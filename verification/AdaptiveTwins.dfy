/** What the calls under way come to when nothing more is asked for: the states from which no event is recorded twice
    are exactly those in which ids are unique among what is entered and what is under way. */
module AdaptiveTwins {
  import opened Options
  import opened AdaptiveLedgerModel
  import opened AdaptiveLedgerTheorems
  import opened AdaptiveContinuations

  /** Whatever happens, as long as nothing more is asked for, no event id that matters is recorded twice. */
  ghost predicate StaysDistinct(limits: Limits, matters: EventId -> bool, s: State) {
    forall more {:trigger Run(limits, s, more)} :: AsksNothing(more) ==> Distinct(matters, Run(limits, s, more).entries)
  }

  lemma {:induction false} AsksNothingTwinsNot(limits: Limits, matters: EventId -> bool, s: State, more: seq<Event>)
    requires AsksNothing(more)
    ensures Keeps(limits, (s, e) => !IsTwin(matters, s, e), s, more)
    decreases |more|
  {
    hide Step;
    if more != [] {
      assert more[0] in more;
      AsksNothingTwinsNot(limits, matters, Step(limits, s, more[0]), more[1..]);
    }
  }

  /** No call that matters is at the mercy of the controller. */
  ghost predicate WillFinish(limits: Limits, matters: EventId -> bool, s: State) {
    HasRoom(limits, s) || forall k :: 0 <= k < |s.calls| && s.calls[k].Asking? ==> !Pends(matters, s, k)
  }

  /** A call that matters. */
  ghost predicate Pends(matters: EventId -> bool, s: State, k: nat) {
    k < |s.calls| && CallId(s.calls[k]).Some? && matters(CallId(s.calls[k]).value)
  }

  lemma FinishPending(limits: Limits, matters: EventId -> bool, s: State, k: nat) returns (entry: Entry)
    requires Inv(s) && WillFinish(limits, matters, s) && Pends(matters, s, k)
    ensures var t := Run(limits, s, Finish(k));
            Inv(t) && WillFinish(limits, matters, t) && Finishes(s, k, entry, t)
  {
    hide Run, BudgetInv, Conserves, HasRoom;
    entry := FinishEnters(limits, s, k);
    if HasRoom(limits, s) {
      FinishKeepsRoom(limits, s, k);
    }
    RunInv(limits, s, Finish(k));
  }

  /** An id that is recorded and under way, or under way twice, may come to be recorded twice. */
  lemma DuplicateIsRecorded(limits: Limits, matters: EventId -> bool, s: State)
    requires Inv(s) && WillFinish(limits, matters, s) && !Unique(matters, s)
    ensures !StaysDistinct(limits, matters, s)
  {
    hide Run, Inv, WillFinish;
    if !Distinct(matters, s.entries) {
      RunNothing(limits, s);
      assert AsksNothing([]);
    } else if exists k: nat :: Pends(matters, s, k) && Recorded(s.entries, CallId(s.calls[k]).value) {
      var k: nat :| Pends(matters, s, k) && Recorded(s.entries, CallId(s.calls[k]).value);
      var entry := FinishPending(limits, matters, s, k);
      TwiceRecorded(matters, s.entries, entry);
      assert AsksNothing(Finish(k));
    } else {
      var k: nat, l: nat :| k < l && Pends(matters, s, k) && l < |s.calls| && CallId(s.calls[k]) == CallId(s.calls[l]);
      var first := FinishPending(limits, matters, s, k);
      var t := Run(limits, s, Finish(k));
      var second := FinishPending(limits, matters, t, l);
      RunConcat(limits, s, Finish(k), Finish(l));
      assert first in t.entries;
      TwiceRecorded(matters, t.entries, second);
      assert AsksNothing(Finish(k) + Finish(l));
    }
  }

  lemma TwiceRecorded(matters: EventId -> bool, entries: seq<Entry>, entry: Entry)
    requires matters(IdOf(entry)) && Recorded(entries, IdOf(entry))
    ensures !Distinct(matters, entries + [entry])
  {
    var e :| e in entries && IdOf(e) == IdOf(entry);
    var i :| 0 <= i < |entries| && entries[i] == e;
    assert (entries + [entry])[i] == e && (entries + [entry])[|entries|] == entry;
  }

  /** Nothing is going to be recorded twice if and only if event ids are unique among what is entered and what is
      under way. */
  lemma StaysDistinctIff(limits: Limits, matters: EventId -> bool, s: State)
    requires Inv(s) && ReclaimsCommitted(s) && WillFinish(limits, matters, s)
    ensures StaysDistinct(limits, matters, s) <==> Unique(matters, s)
  {
    if Unique(matters, s) {
      forall more | AsksNothing(more)
        ensures Distinct(matters, Run(limits, s, more).entries)
      {
        hide Run, Keeps, AsksNothing, Inv, IsTwin, ReclaimsCommitted, WillFinish;
        AsksNothingTwinsNot(limits, matters, s, more);
        UniqueThroughoutIff(limits, matters, s, more);
        AtTheEnd(limits, s => Unique(matters, s), s, more);
      }
    } else {
      hide Run, Keeps, AsksNothing, Inv, IsTwin, ReclaimsCommitted, WillFinish, Unique;
      DuplicateIsRecorded(limits, matters, s);
    }
  }

  /** A run comes to no point at which an event id that matters may be recorded twice, if and only if no call in it is
      let through while another for the same id is under way. */
  lemma {:induction false} DistinctThroughoutIff(
      limits: Limits, matters: EventId -> bool, s: State, events: seq<Event>)
    requires Inv(s) && ReclaimsCommitted(s) && Unique(matters, s)
    requires Throughout(limits, s => WillFinish(limits, matters, s), s, events)
    ensures Throughout(limits, s => StaysDistinct(limits, matters, s), s, events)
       <==> Keeps(limits, (s, e) => !IsTwin(matters, s, e), s, events)
    decreases |events|
  {
    hide Inv, Step, Unique, ReclaimsCommitted, IsTwin, WillFinish, StaysDistinct;
    StaysDistinctIff(limits, matters, s);
    if events != [] {
      var t := Step(limits, s, events[0]);
      StepInv(limits, s, events[0]);
      StepReclaimsCommitted(limits, s, events[0]);
      StepUniqueIff(limits, matters, s, events[0]);
      if Unique(matters, t) {
        DistinctThroughoutIff(limits, matters, t, events[1..]);
      } else {
        StaysDistinctIff(limits, matters, t);
      }
    }
  }

  predicate IsTermination(id: EventId) {
    id.TerminationOf?
  }

  /** For terminations the controller is not asked: two that overlap for one workstream and reason are both
      recorded. */
  lemma TerminationsDistinctIff(limits: Limits, events: seq<Event>)
    ensures Throughout(limits, s => StaysDistinct(limits, IsTermination, s), INITIAL, events)
       <==> Keeps(limits, (s, e) => !IsTwin(IsTermination, s, e), INITIAL, events)
  {
    hide Keeps, IsTwin;
    InitialUnique();
    AlwaysFinish(limits, INITIAL, events);
    DistinctThroughoutIff(limits, IsTermination, INITIAL, events);
  }

  lemma {:induction false} AlwaysFinish(limits: Limits, s: State, events: seq<Event>)
    ensures Throughout(limits, s => WillFinish(limits, IsTermination, s), s, events)
    decreases |events|
  {
    hide Step, HasRoom;
    if events != [] {
      AlwaysFinish(limits, Step(limits, s, events[0]), events[1..]);
    }
  }
}
