/** What the calls under way come to when nothing more is asked for: the states from which the ledger stays within
    what was reclaimed are exactly the covered ones. */
module AdaptiveContinuations {
  import opened Options
  import opened AdaptiveLedgerModel
  import opened AdaptiveLedgerTheorems

  // ----- Letting calls proceed -----

  /** What a call has still to ask the controller for. */
  function ToAsk(c: Call): nat {
    if c.Asking? then c.asked else 0
  }

  /** The controller would grant all that the calls under way are going to ask for. */
  ghost predicate HasRoom(limits: Limits, s: State) {
    && !s.budget.terminal
    && (forall c <- s.calls :: ToAsk(c) <= limits.maxOutput)
    && s.budget.consumed + s.budget.reserved + Total(ToAsk, s.calls) <= limits.ceiling
  }

  function Go(k: nat): Event {
    Proceed(k, false, {})
  }

  /** A call needs to proceed at most twice. */
  function Finish(k: nat): seq<Event> {
    [Go(k), Go(k)]
  }

  lemma RunFinish(limits: Limits, s: State, k: nat)
    ensures Run(limits, s, Finish(k)) == Step(limits, Step(limits, s, Go(k)), Go(k))
  {
    hide Step;
    RunConcat(limits, s, [Go(k)], [Go(k)]);
    assert Finish(k) == [Go(k)] + [Go(k)] && [Go(k)][1..] == [];
  }

  /** The controller grants a call all it asks for. */
  lemma Grants(limits: Limits, s: State, k: nat)
    requires k < |s.calls| && s.calls[k].Asking? && HasRoom(limits, s)
    ensures Reserved(limits, s.budget, s.calls[k].session, 0, s.calls[k].asked, false).1 == Some(s.calls[k].asked)
  {
    hide Total;
    TotalUpdate(ToAsk, s.calls, k, Finished);
    assert s.calls[k] in s.calls;
  }

  /** What a call finishes as. */
  ghost predicate Finishes(s: State, k: nat, entry: Entry, t: State)
    requires k < |s.calls|
  {
    && t.calls == s.calls[k := Finished]
    && t.entries == s.entries + [entry]
    && CallId(s.calls[k]) == Some(IdOf(entry))
    && (if entry.Redistribution? then entry.amount == ToRedistribute(s.calls[k]) else ToRedistribute(s.calls[k]) == 0)
    && (entry.Reclaim? <==> s.calls[k].Reclaiming?)
  }

  lemma FinishEnters(limits: Limits, s: State, k: nat) returns (entry: Entry)
    requires (forall c <- s.calls :: WellFormed(c)) && k < |s.calls| && !s.calls[k].Finished?
    requires s.calls[k].Asking? ==> HasRoom(limits, s)
    ensures Finishes(s, k, entry, Run(limits, s, Finish(k)))
  {
    hide CancelFirst, Reserved, HasRoom;
    RunFinish(limits, s, k);
    var c := s.calls[k];
    assert c in s.calls && WellFormed(c);
    match c
    case Asking(target, source, asked, _) =>
      Grants(limits, s, k);
      entry := Redistribution(target, source, asked, |s.budget.reservations|, asked);
    case Terminating(_, workstream, reason) =>
      entry := Termination(workstream, reason);
    case Reclaiming(e) => entry := e;
    case Granted(e) => entry := e;
    case Ended(e) => entry := e;
  }

  /** Letting one call proceed leaves room for the others. */
  lemma FinishKeepsRoom(limits: Limits, s: State, k: nat)
    requires BudgetInv(s.budget) && HasRoom(limits, s) && k < |s.calls|
    ensures HasRoom(limits, Run(limits, s, Finish(k)))
  {
    hide Total, CancelFirst, BudgetInv, Onward;
    RunFinish(limits, s, k);
    var t := Run(limits, s, Finish(k));
    TotalUpdate(ToAsk, s.calls, k, Finished);
    if s.calls[k].Asking? {
      Grants(limits, s, k);
    } else if s.calls[k].Terminating? {
      CancelFirstOnlyFrees(s.budget, Some({} + {s.calls[k].session}), |s.budget.reservations|);
    }
    assert t.calls == s.calls[k := Finished];
    assert t.budget.consumed + t.budget.reserved <= s.budget.consumed + s.budget.reserved + ToAsk(s.calls[k]);
  }

  // ----- Redistributions -----

  /** Lets the redistributions among the first n calls proceed. */
  function Drain(calls: seq<Call>, n: nat): seq<Event>
    requires n <= |calls|
  {
    if n == 0 then []
    else Drain(calls, n - 1) + if calls[n - 1].Asking? || calls[n - 1].Granted? then Finish(n - 1) else []
  }

  /** Redistributions have gone from under way to entered. */
  ghost predicate Drained(s: State, n: nat, t: State) {
    && |t.calls| == |s.calls|
    && (forall k :: n <= k < |s.calls| ==> t.calls[k] == s.calls[k])
    && (forall k :: 0 <= k < n && k < |s.calls| ==> ToRedistribute(t.calls[k]) == 0)
    && Reclaimed(t.entries) == Reclaimed(s.entries)
    && Redistributed(t.entries) + Total(ToRedistribute, t.calls)
       == Redistributed(s.entries) + Total(ToRedistribute, s.calls)
  }

  lemma FinishDrains(limits: Limits, s: State, n: nat, t: State)
    requires Inv(t) && HasRoom(limits, t) && Drained(s, n, t)
    requires n < |s.calls| && (t.calls[n].Asking? || t.calls[n].Granted?)
    ensures Drained(s, n + 1, Run(limits, t, Finish(n)))
  {
    hide Total, Run, Reclaimed, Redistributed, HasRoom;
    var entry := FinishEnters(limits, t, n);
    SumsAppend(t.entries, entry);
    TotalUpdate(ToRedistribute, t.calls, n, Finished);
  }

  lemma {:induction false} DrainDrains(limits: Limits, s: State, n: nat)
    requires Inv(s) && HasRoom(limits, s) && n <= |s.calls|
    ensures var t := Run(limits, s, Drain(s.calls, n)); Inv(t) && HasRoom(limits, t) && Drained(s, n, t)
  {
    hide Run, Inv, HasRoom;
    if n == 0 {
      RunNothing(limits, s);
    } else {
      DrainDrains(limits, s, n - 1);
      var t := Run(limits, s, Drain(s.calls, n - 1));
      if s.calls[n - 1].Asking? || s.calls[n - 1].Granted? {
        RunConcat(limits, s, Drain(s.calls, n - 1), Finish(n - 1));
        FinishDrains(limits, s, n - 1, t);
        RunInv(limits, t, Finish(n - 1));
        InvBudget(t);
        FinishKeepsRoom(limits, t, n - 1);
      } else {
        assert Drain(s.calls, n) == Drain(s.calls, n - 1);
      }
    }
  }

  lemma RunNothing(limits: Limits, s: State)
    ensures Run(limits, s, []) == s
  {
  }

  lemma InvBudget(s: State)
    requires Inv(s)
    ensures BudgetInv(s.budget)
  {
  }

  /** Where the controller has room, letting every redistribution proceed enters all that was under way, and no
      reclaim. */
  lemma DrainEntersAll(limits: Limits, s: State)
    requires Inv(s) && HasRoom(limits, s)
    ensures var t := Run(limits, s, Drain(s.calls, |s.calls|));
            && Reclaimed(t.entries) == Reclaimed(s.entries)
            && Redistributed(t.entries) == Redistributed(s.entries) + Total(ToRedistribute, s.calls)
  {
    hide Run, Inv, HasRoom, Reclaimed, Redistributed;
    DrainDrains(limits, s, |s.calls|);
    TotalZero(ToRedistribute, Run(limits, s, Drain(s.calls, |s.calls|)).calls);
  }

  predicate Asks(e: Event) {
    e.AskRedistribute? || e.AskTerminate?
  }

  predicate AsksNothing(events: seq<Event>) {
    forall e <- events :: !Asks(e)
  }

  lemma {:induction false} DrainAsksNothing(calls: seq<Call>, n: nat)
    requires n <= |calls|
    ensures AsksNothing(Drain(calls, n))
  {
    if n > 0 {
      DrainAsksNothing(calls, n - 1);
    }
  }

  /** Whatever happens, as long as nothing more is asked for, no more is redistributed than has been reclaimed. */
  ghost predicate StaysWithin(limits: Limits, s: State) {
    forall more {:trigger Run(limits, s, more)} :: AsksNothing(more) ==>
      Redistributed(Run(limits, s, more).entries) <= Reclaimed(Run(limits, s, more).entries)
  }

  lemma {:induction false} AsksNothingOverspendsNot(limits: Limits, s: State, more: seq<Event>)
    requires AsksNothing(more)
    ensures Keeps(limits, (s, e) => !Overspends(s, e), s, more)
    decreases |more|
  {
    hide Step;
    if more != [] {
      assert more[0] in more;
      AsksNothingOverspendsNot(limits, Step(limits, s, more[0]), more[1..]);
    }
  }

  /** That is so if and only if what is entered and what is under way is covered. */
  lemma StaysWithinIff(limits: Limits, s: State)
    requires Inv(s) && HasRoom(limits, s)
    ensures StaysWithin(limits, s) <==> Covered(s)
  {
    hide Run, Keeps, AsksNothing, Inv, HasRoom, Reclaimed, Redistributed;
    if Covered(s) {
      forall more | AsksNothing(more)
        ensures Redistributed(Run(limits, s, more).entries) <= Reclaimed(Run(limits, s, more).entries)
      {
        AsksNothingOverspendsNot(limits, s, more);
        RedistributedWithinReclaimed(limits, s, more);
      }
    } else {
      DrainAsksNothing(s.calls, |s.calls|);
      DrainEntersAll(limits, s);
    }
  }

  /** While the controller has room, a run comes to no point at which more may be redistributed than has been
      reclaimed, if and only if no redistribution in it is let through that, with those under way, asks for more than
      is left. */
  lemma {:induction false} WithinThroughoutIff(limits: Limits, s: State, events: seq<Event>)
    requires Inv(s) && Covered(s) && Throughout(limits, s => HasRoom(limits, s), s, events)
    ensures Throughout(limits, s => StaysWithin(limits, s), s, events)
       <==> Keeps(limits, (s, e) => !Overspends(s, e), s, events)
    decreases |events|
  {
    hide Inv, Step, Covered, Overspends, HasRoom, StaysWithin;
    StaysWithinIff(limits, s);
    if events != [] {
      var t := Step(limits, s, events[0]);
      StepInv(limits, s, events[0]);
      StepCoveredIff(limits, s, events[0]);
      if Covered(t) {
        WithinThroughoutIff(limits, t, events[1..]);
      } else {
        StaysWithinIff(limits, t);
      }
    }
  }
}
