/** What the token ledger and its controller keep over every run, and what they keep when redistributions
    do not overlap. */
module AdaptiveLedgerTheorems {
  import opened Options
  import opened AdaptiveLedgerModel

  // ----- The controller, in every run -----

  function OpenClaims(rs: seq<Reservation>): nat
    decreases |rs|
  {
    if rs == [] then 0
    else OpenClaims(rs[..|rs| - 1]) + if rs[|rs| - 1].status.Open? then rs[|rs| - 1].claimed else 0
  }

  lemma {:induction false} OpenClaimsUpdate(rs: seq<Reservation>, k: nat, status: Status)
    requires k < |rs| && rs[k].status.Open? && !status.Open?
    ensures rs[k].claimed <= OpenClaims(rs)
    ensures OpenClaims(rs[k := rs[k].(status := status)]) == OpenClaims(rs) - rs[k].claimed
    decreases |rs|
  {
    var n := |rs| - 1;
    var t := rs[k := rs[k].(status := status)];
    if k < n {
      OpenClaimsUpdate(rs[..n], k, status);
      assert t[..n] == rs[..n][k := rs[k].(status := status)];
    } else {
      assert t[..n] == rs[..n];
    }
  }

  /** Reservations keep their numbers, and only open ones change. */
  ghost predicate Onward(b: Budget, c: Budget) {
    && |b.reservations| <= |c.reservations|
    && (forall k :: 0 <= k < |b.reservations| && !b.reservations[k].status.Open? ==>
          c.reservations[k] == b.reservations[k])
  }

  /** What the controller reserves is what its open reservations claim: freeing them never goes below zero. */
  ghost predicate BudgetInv(b: Budget) {
    b.reserved == OpenClaims(b.reservations)
  }

  ghost predicate OnlyFrees(b: Budget, c: Budget) {
    && BudgetInv(c) && Onward(b, c) && |c.reservations| == |b.reservations|
    && c.reserved <= b.reserved && c.consumed == b.consumed && c.released == b.released && c.terminal == b.terminal
  }

  lemma CancelOnlyFrees(b: Budget, k: nat)
    requires BudgetInv(b)
    ensures OnlyFrees(b, CancelAt(b, k))
  {
    if k < |b.reservations| && b.reservations[k].status.Open? {
      OpenClaimsUpdate(b.reservations, k, Cancelled);
    }
  }

  lemma {:induction false} CancelFirstOnlyFrees(b: Budget, sessions: Option<set<string>>, n: nat)
    requires BudgetInv(b)
    ensures OnlyFrees(b, CancelFirst(b, sessions, n))
  {
    hide CancelAt, BudgetInv;
    if n > 0 {
      CancelFirstOnlyFrees(b, sessions, n - 1);
      CancelOnlyFrees(CancelFirst(b, sessions, n - 1), n - 1);
    }
  }

  /** A cancellation cancels the open reservations of the sessions it is for, and changes no other. */
  lemma {:induction false} CancelsExactly(b: Budget, sessions: Option<set<string>>, n: nat, k: nat)
    requires k < |b.reservations|
    ensures var r := b.reservations[k];
            var rs := CancelFirst(b, sessions, n).reservations;
            && |rs| == |b.reservations|
            && rs[k] == if k < n && r.status.Open? && (sessions.None? || r.session in sessions.value)
                        then r.(status := Cancelled) else r
  {
    if n > 0 {
      CancelsExactly(b, sessions, n - 1, k);
    }
  }

  lemma ReservedKeeps(limits: Limits, b: Budget, session: string, input: int, output: int, refused: bool)
    requires BudgetInv(b)
    ensures var (c, claimed) := Reserved(limits, b, session, input, output, refused);
            && BudgetInv(c) && Onward(b, c) && c.released == b.released
            && (claimed.Some? ==> claimed.value <= Clamp(input, limits.maxInput) + Clamp(output, limits.maxOutput))
            && (c.consumed + c.reserved <= limits.ceiling || c.consumed + c.reserved == b.consumed + b.reserved)
            && (if claimed.Some? then |c.reservations| == |b.reservations| + 1 else c == b)
  {
    var need := Clamp(input, limits.maxInput) + Clamp(output, limits.maxOutput);
    assert (b.reservations + [Reservation(session, need, Open)])[..|b.reservations|] == b.reservations;
  }

  /** A commit frees exactly what was claimed, and gives back what was not used, once. */
  lemma ChargedKeeps(b: Budget, key: string, reservation: Option<nat>, billable: nat)
    requires BudgetInv(b)
    ensures var c := Charged(b, key, reservation, billable);
            && BudgetInv(c) && Onward(b, c)
            && (c.released > b.released ==>
                  reservation.Some? && IsOpen(b, reservation.value) && IsCommitted(c, reservation.value))
            && c.consumed + c.reserved <= b.consumed + b.reserved + Overrun(b, reservation, billable)
  {
    if reservation.Some? && IsOpen(b, reservation.value) {
      OpenClaimsUpdate(b.reservations, reservation.value, Committed);
    }
  }

  lemma CommitKeeps(limits: Limits, b: Budget, key: string, reservation: Option<nat>, billable: nat)
    requires BudgetInv(b)
    ensures var (c, unused) := CommitUsage(limits, b, key, reservation, billable);
            && BudgetInv(c) && Onward(b, c)
            && c.released == b.released + (if unused.Some? then unused.value else 0)
            && (unused.Some? && unused.value > 0 ==>
                  reservation.Some? && IsOpen(b, reservation.value) && IsCommitted(c, reservation.value))
            && c.consumed + c.reserved <= b.consumed + b.reserved + Overrun(b, reservation, billable)
  {
    hide Charged, OpenClaims, Overrun, CancelFirst;
    ChargedKeeps(b, key, reservation, billable);
    var charged := Charged(b, key, reservation, billable);
    CancelFirstOnlyFrees(charged, None, |charged.reservations|);
  }

  /** What a commit bills beyond the reservation it is for. */
  function Overrun(b: Budget, reservation: Option<nat>, billable: nat): nat {
    var open := reservation.Some? && IsOpen(b, reservation.value);
    Less(billable, if open then b.reservations[reservation.value].claimed else 0)
  }

  lemma HandleReservedBudget(limits: Limits, s: State, k: nat, input: int, output: int, refused: bool)
    requires BudgetInv(s.budget) && k < |s.handles|
    ensures var c := HandleReserved(limits, s, k, input, output, refused).budget;
            && BudgetInv(c) && Onward(s.budget, c) && c.released == s.budget.released
            && (|| c.consumed + c.reserved <= limits.ceiling
                || c.consumed + c.reserved == s.budget.consumed + s.budget.reserved)
  {
    hide BudgetInv, Reserved;
    var h := s.handles[k];
    ReservedKeeps(limits, s.budget, h.session, input, if output < h.profileCap then output else h.profileCap, refused);
  }

  /** A step moves the budget on, and releases tokens only by committing an open reservation. */
  lemma StepBudget(limits: Limits, s: State, e: Event)
    requires BudgetInv(s.budget)
    ensures BudgetInv(Step(limits, s, e).budget) && Onward(s.budget, Step(limits, s, e).budget)
    ensures !e.Reconcile? ==> Step(limits, s, e).budget.released == s.budget.released
  {
    hide OpenClaims, CancelFirst, CancelAt, Reserved, CommitUsage, Onward;
    SameIsOnward(s.budget);
    match e
    case Reserve(session, input, output, refused) => ReservedKeeps(limits, s.budget, session, input, output, refused);
    case Reconcile(_, key, reservation, billable) => CommitKeeps(limits, s.budget, key, reservation, billable);
    case Proceed(c, refused, affected) =>
      if c < |s.calls| && s.calls[c].Asking? {
        ReservedKeeps(limits, s.budget, s.calls[c].session, 0, s.calls[c].asked, refused);
      } else if c < |s.calls| && s.calls[c].Terminating? {
        CancelFirstOnlyFrees(s.budget, Some(affected + {s.calls[c].session}), |s.budget.reservations|);
      }
    case HandleReserve(h, input, output, refused) =>
      if h < |s.handles| {
        HandleReservedBudget(limits, s, h, input, output, refused);
      }
    case CancelOne(k) => CancelOnlyFrees(s.budget, k);
    case StopRun =>
      CancelFirstOnlyFrees(s.budget, None, |s.budget.reservations|);
      var freed := CancelFirst(s.budget, None, |s.budget.reservations|);
      assert Onward(s.budget, freed.(terminal := true)) by { OnwardWhateverTerminal(s.budget, freed); }
    case _ =>
  }

  lemma SameIsOnward(b: Budget)
    ensures Onward(b, b)
  {
  }

  lemma OnwardWhateverTerminal(b: Budget, c: Budget)
    requires Onward(b, c)
    ensures Onward(b, c.(terminal := true))
  {
  }

  // ----- Conservation -----

  function Total(weight: Call -> nat, calls: seq<Call>): nat
    decreases |calls|
  {
    if calls == [] then 0 else Total(weight, calls[..|calls| - 1]) + weight(calls[|calls| - 1])
  }

  lemma {:induction false} TotalUpdate(weight: Call -> nat, calls: seq<Call>, k: nat, c: Call)
    requires k < |calls|
    ensures weight(calls[k]) <= Total(weight, calls)
    ensures Total(weight, calls[k := c]) == Total(weight, calls) - weight(calls[k]) + weight(c)
    decreases |calls|
  {
    var n := |calls| - 1;
    if k < n {
      TotalUpdate(weight, calls[..n], k, c);
      assert calls[k := c][..n] == calls[..n][k := c];
    } else {
      assert calls[k := c][..n] == calls[..n];
    }
  }

  lemma TotalAppend(weight: Call -> nat, calls: seq<Call>, c: Call)
    ensures Total(weight, calls + [c]) == Total(weight, calls) + weight(c)
  {
    assert (calls + [c])[..|calls|] == calls;
  }

  lemma {:induction false} TotalZero(weight: Call -> nat, calls: seq<Call>)
    requires forall c <- calls :: weight(c) == 0
    ensures Total(weight, calls) == 0
    decreases |calls|
  {
    if calls != [] {
      TotalZero(weight, calls[..|calls| - 1]);
    }
  }

  /** Tokens a call has freed and not yet entered as reclaimed. */
  function ToReclaim(c: Call): nat {
    if c.Reclaiming? && c.entry.Reclaim? then c.entry.amount else 0
  }

  /** Tokens a call may still enter as redistributed. */
  function ToRedistribute(c: Call): nat {
    match c
    case Asking(_, _, asked, _) => asked
    case Granted(entry) => if entry.Redistribution? then entry.amount else 0
    case _ => 0
  }

  predicate WellFormed(c: Call) {
    match c
    case Reclaiming(entry) => entry.Reclaim?
    case Granted(entry) => entry.Redistribution? && entry.amount <= entry.asked
    case Ended(entry) => entry.Termination?
    case _ => true
  }

  ghost predicate Inv(s: State) {
    && BudgetInv(s.budget)
    && (forall c <- s.calls :: WellFormed(c))
    && Conserves(s)
  }

  lemma SumsAppend(entries: seq<Entry>, e: Entry)
    ensures Reclaimed(entries + [e]) == Reclaimed(entries) + if e.Reclaim? then e.amount else 0
    ensures Redistributed(entries + [e]) == Redistributed(entries) + if e.Redistribution? then e.amount else 0
  {
    assert (entries + [e])[..|entries|] == entries;
  }

  lemma StepWellFormed(limits: Limits, s: State, e: Event)
    requires forall c <- s.calls :: WellFormed(c)
    ensures forall c <- Step(limits, s, e).calls :: WellFormed(c)
  {
    hide CancelFirst, CancelAt, Reserved, MayRedistribute, Recorded, CommitUsage;
    if e.Proceed? && e.call < |s.calls| && s.calls[e.call].Asking? {
      ReservedAtMostAsked(limits, s.budget, s.calls[e.call].session, s.calls[e.call].asked, e.refused);
    }
  }

  lemma StepInv(limits: Limits, s: State, e: Event)
    requires Inv(s)
    ensures Inv(Step(limits, s, e))
  {
    StepBudget(limits, s, e);
    StepWellFormed(limits, s, e);
    StepConserves(limits, s, e);
    hide Step, Conserves, WellFormed, BudgetInv, Onward;
  }

  ghost predicate Conserves(s: State) {
    Reclaimed(s.entries) + Total(ToReclaim, s.calls) == s.budget.released
  }

  lemma ReconcileConserves(
      limits: Limits, s: State, workstream: string, key: string, reservation: Option<nat>, billable: nat)
    requires Inv(s)
    ensures Conserves(Step(limits, s, Reconcile(workstream, key, reservation, billable)))
  {
    hide Reclaimed, CommitUsage, Total, WellFormed;
    CommitKeeps(limits, s.budget, key, reservation, billable);
    var unused := CommitUsage(limits, s.budget, key, reservation, billable).1;
    if unused.Some? && unused.value > 0 {
      TotalAppend(ToReclaim, s.calls, Reclaiming(Reclaim(reservation.value, workstream, unused.value)));
    }
  }

  lemma ProceedConserves(limits: Limits, s: State, c: nat, refused: bool, affected: set<string>)
    requires Inv(s) && c < |s.calls|
    ensures Conserves(Proceeded(limits, s, c, refused, affected))
  {
    StepBudget(limits, s, Proceed(c, refused, affected));
    var t := Proceeded(limits, s, c, refused, affected);
    assert t.budget.released == s.budget.released;
    assert s.calls[c] in s.calls && WellFormed(s.calls[c]);
    hide Reclaimed, CancelFirst, Reserved, Total, Onward, BudgetInv, Inv;
    assert Conserves(s) by { InvConserves(s); }
    TotalUpdate(ToReclaim, s.calls, c, t.calls[c]);
    if s.calls[c].Reclaiming? || s.calls[c].Granted? || s.calls[c].Ended? {
      SumsAppend(s.entries, s.calls[c].entry);
    }
  }

  lemma InvConserves(s: State)
    requires Inv(s)
    ensures Conserves(s)
  {
  }

  /** In every step, what the commits have released is what has been entered as reclaimed, and what is about to be. */
  lemma StepConserves(limits: Limits, s: State, e: Event)
    requires Inv(s)
    ensures Conserves(Step(limits, s, e))
  {
    StepBudget(limits, s, e);
    InvConserves(s);
    hide Inv, BudgetInv, Reclaimed, CancelFirst, CancelAt, Reserved, MayRedistribute, Recorded, CommitUsage;
    hide Total, Onward;
    match e
    case Reconcile(workstream, key, reservation, billable) =>
      ReconcileConserves(limits, s, workstream, key, reservation, billable);
    case AskRedistribute(target, session, amount, source, cap) =>
      if Step(limits, s, e) != s {
        TotalAppend(ToReclaim, s.calls, Asking(target, source, Bounded(amount, cap), session));
      }
    case AskTerminate(session, workstream, reason) =>
      TotalAppend(ToReclaim, s.calls, Terminating(session, workstream, reason));
    case Proceed(c, refused, affected) =>
      if c < |s.calls| {
        ProceedConserves(limits, s, c, refused, affected);
      }
    case _ =>
  }

  // ----- Redistribution -----

  ghost predicate Covered(s: State) {
    Redistributed(s.entries) + Total(ToRedistribute, s.calls) <= Reclaimed(s.entries)
  }

  /** A redistribution is let through although, with those under way, it asks for more than is left. */
  ghost predicate Overspends(s: State, e: Event) {
    && e.AskRedistribute?
    && var bounded := Bounded(e.amount, e.profileCap);
       && MayRedistribute(s.entries, e.target, e.source, bounded)
       && Redistributed(s.entries) + Total(ToRedistribute, s.calls) + bounded > Reclaimed(s.entries)
  }

  /** That is exactly when a step loses cover. */
  lemma StepCoveredIff(limits: Limits, s: State, e: Event)
    requires Inv(s) && Covered(s)
    ensures Covered(Step(limits, s, e)) <==> !Overspends(s, e)
  {
    hide BudgetInv, Reclaimed, Redistributed, CancelFirst, CancelAt, Reserved, Recorded, CommitUsage, Total;
    match e
    case Reconcile(workstream, key, reservation, billable) =>
      if Step(limits, s, e).calls != s.calls {
        TotalAppend(ToRedistribute, s.calls, Step(limits, s, e).calls[|s.calls|]);
      }
    case AskRedistribute(target, session, amount, source, cap) =>
      if MayRedistribute(s.entries, target, source, Bounded(amount, cap)) {
        TotalAppend(ToRedistribute, s.calls, Asking(target, source, Bounded(amount, cap), session));
      }
    case AskTerminate(session, workstream, reason) =>
      TotalAppend(ToRedistribute, s.calls, Terminating(session, workstream, reason));
    case Proceed(c, refused, affected) =>
      if c < |s.calls| {
        var t := Step(limits, s, e);
        assert s.calls[c] in s.calls && WellFormed(s.calls[c]);
        TotalUpdate(ToRedistribute, s.calls, c, t.calls[c]);
        if s.calls[c].Reclaiming? || s.calls[c].Granted? || s.calls[c].Ended? {
          SumsAppend(s.entries, s.calls[c].entry);
        } else if s.calls[c].Asking? {
          ReservedAtMostAsked(limits, s.budget, s.calls[c].session, s.calls[c].asked, refused);
        }
      }
    case _ =>
  }

  lemma ReservedAtMostAsked(limits: Limits, b: Budget, session: string, asked: nat, refused: bool)
    ensures var claimed := Reserved(limits, b, session, 0, asked, refused).1;
            claimed.Some? ==> claimed.value <= asked
  {
  }

  /** A condition on every event of a run, where it happens. */
  ghost predicate Keeps(limits: Limits, condition: (State, Event) -> bool, s: State, events: seq<Event>)
    decreases |events|
  {
    events != [] ==> condition(s, events[0]) && Keeps(limits, condition, Step(limits, s, events[0]), events[1..])
  }

  lemma {:induction false} RunInv(limits: Limits, s: State, events: seq<Event>)
    requires Inv(s)
    ensures Inv(Run(limits, s, events))
    decreases |events|
  {
    hide Inv, Step;
    if events != [] {
      StepInv(limits, s, events[0]);
      RunInv(limits, Step(limits, s, events[0]), events[1..]);
    }
  }

  lemma InitialInv()
    ensures Inv(INITIAL) && Covered(INITIAL)
  {
  }

  /** A property of every state of a run, the first and the last included. */
  ghost predicate Throughout(limits: Limits, property: State -> bool, s: State, events: seq<Event>)
    decreases |events|
  {
    property(s) && (events != [] ==> Throughout(limits, property, Step(limits, s, events[0]), events[1..]))
  }

  lemma {:induction false} AtTheEnd(limits: Limits, property: State -> bool, s: State, events: seq<Event>)
    requires Throughout(limits, property, s, events)
    ensures property(Run(limits, s, events))
    decreases |events|
  {
    hide Step;
    if events != [] {
      AtTheEnd(limits, property, Step(limits, s, events[0]), events[1..]);
    }
  }

  lemma {:induction false} RunConcat(limits: Limits, s: State, events: seq<Event>, more: seq<Event>)
    ensures Run(limits, s, events + more) == Run(limits, Run(limits, s, events), more)
    decreases |events|
  {
    hide Step;
    if events == [] {
      assert [] + more == more;
    } else {
      assert (events + more)[1..] == events[1..] + more;
      RunConcat(limits, Step(limits, s, events[0]), events[1..], more);
    }
  }

  /** A run stays covered if and only if no redistribution in it overspends. */
  lemma {:induction false} CoveredThroughoutIff(limits: Limits, s: State, events: seq<Event>)
    requires Inv(s) && Covered(s)
    ensures Throughout(limits, Covered, s, events) <==> Keeps(limits, (s, e) => !Overspends(s, e), s, events)
    decreases |events|
  {
    if events != [] {
      hide Inv, Step, Covered, Overspends;
      StepInv(limits, s, events[0]);
      StepCoveredIff(limits, s, events[0]);
      if Covered(Step(limits, s, events[0])) {
        CoveredThroughoutIff(limits, Step(limits, s, events[0]), events[1..]);
      }
    }
  }

  /** Then no more is ever redistributed than has been reclaimed, nor reclaimed than commits have released. */
  lemma {:induction false} RedistributedWithinReclaimed(limits: Limits, s: State, events: seq<Event>)
    requires Inv(s) && Covered(s) && Keeps(limits, (s, e) => !Overspends(s, e), s, events)
    ensures var t := Run(limits, s, events);
            Redistributed(t.entries) <= Reclaimed(t.entries) <= t.budget.released
    decreases |events|
  {
    if events != [] {
      hide Inv, Step, Covered, Overspends;
      StepInv(limits, s, events[0]);
      StepCoveredIff(limits, s, events[0]);
      RedistributedWithinReclaimed(limits, Step(limits, s, events[0]), events[1..]);
    }
  }

  /** No redistribution is asked for while another is under way. */
  ghost predicate OneAtATime(s: State, e: Event) {
    e.AskRedistribute? ==> forall c <- s.calls :: ToRedistribute(c) == 0
  }

  lemma {:induction false} OneAtATimeIsEnough(limits: Limits, s: State, events: seq<Event>)
    requires Keeps(limits, OneAtATime, s, events)
    ensures Keeps(limits, (s, e) => !Overspends(s, e), s, events)
    decreases |events|
  {
    hide Step;
    if events != [] {
      if events[0].AskRedistribute? {
        TotalZero(ToRedistribute, s.calls);
      }
      OneAtATimeIsEnough(limits, Step(limits, s, events[0]), events[1..]);
    }
  }

  /** Where redistributions do not overlap, no more is ever redistributed than has been reclaimed. */
  lemma OneAtATimeStaysWithin(limits: Limits, events: seq<Event>)
    requires Keeps(limits, OneAtATime, INITIAL, events)
    ensures var t := Run(limits, INITIAL, events);
            Redistributed(t.entries) <= Reclaimed(t.entries) <= t.budget.released
  {
    hide Run, Keeps, Reclaimed, Redistributed;
    InitialInv();
    OneAtATimeIsEnough(limits, INITIAL, events);
    RedistributedWithinReclaimed(limits, INITIAL, events);
  }

  // ----- The run's ceiling -----

  /** A commit bills no more than its reservation claimed. */
  ghost predicate WithinClaim(s: State, e: Event) {
    e.Reconcile? ==> Overrun(s.budget, e.reservation, e.billable) == 0
  }

  lemma StepWithinCeiling(limits: Limits, s: State, e: Event)
    requires Inv(s) && WithinClaim(s, e)
    requires s.budget.consumed + s.budget.reserved <= limits.ceiling
    ensures Step(limits, s, e).budget.consumed + Step(limits, s, e).budget.reserved <= limits.ceiling
  {
    hide Reclaimed, CancelFirst, CancelAt, Reserved, MayRedistribute, CommitUsage, Total, OpenClaims;
    match e
    case Reserve(session, input, output, refused) => ReservedKeeps(limits, s.budget, session, input, output, refused);
    case Reconcile(_, key, reservation, billable) => CommitKeeps(limits, s.budget, key, reservation, billable);
    case Proceed(c, refused, affected) =>
      if c < |s.calls| && s.calls[c].Asking? {
        ReservedKeeps(limits, s.budget, s.calls[c].session, 0, s.calls[c].asked, refused);
      } else if c < |s.calls| && s.calls[c].Terminating? {
        CancelFirstOnlyFrees(s.budget, Some(affected + {s.calls[c].session}), |s.budget.reservations|);
      }
    case HandleReserve(h, input, output, refused) =>
      if h < |s.handles| {
        HandleReservedBudget(limits, s, h, input, output, refused);
      }
    case CancelOne(k) => CancelOnlyFrees(s.budget, k);
    case StopRun => CancelFirstOnlyFrees(s.budget, None, |s.budget.reservations|);
    case _ =>
  }

  /** However calls overlap, reservations never oversubscribe the run: what is consumed and what is reserved stay
      within the ceiling while commits stay within their claims. */
  lemma {:induction false} NeverOversubscribed(limits: Limits, s: State, events: seq<Event>)
    requires Inv(s) && s.budget.consumed + s.budget.reserved <= limits.ceiling && Keeps(limits, WithinClaim, s, events)
    ensures var b := Run(limits, s, events).budget; b.consumed + b.reserved <= limits.ceiling
    decreases |events|
  {
    hide Inv, Step, WithinClaim;
    if events != [] {
      StepInv(limits, s, events[0]);
      StepWithinCeiling(limits, s, events[0]);
      NeverOversubscribed(limits, Step(limits, s, events[0]), events[1..]);
    }
  }

  // ----- Event ids -----

  function CallId(c: Call): Option<EventId> {
    match c
    case Reclaiming(entry) => Some(IdOf(entry))
    case Granted(entry) => Some(IdOf(entry))
    case Ended(entry) => Some(IdOf(entry))
    case Asking(target, source, asked, _) => Some(RedistributionTo(target, source, asked))
    case Terminating(_, workstream, reason) => Some(TerminationOf(workstream, reason))
    case Finished => None
  }

  predicate Underway(s: State, id: EventId) {
    exists c <- s.calls :: CallId(c) == Some(id)
  }

  /** No event id that matters is recorded twice. */
  ghost predicate Distinct(matters: EventId -> bool, entries: seq<Entry>) {
    forall i, j :: 0 <= i < j < |entries| && matters(IdOf(entries[i])) ==> IdOf(entries[i]) != IdOf(entries[j])
  }

  /** An event id that matters is recorded at most once, and is not recorded while a call for it is under way; a
      reclaim is of a committed reservation. */
  ghost predicate Unique(matters: EventId -> bool, s: State) {
    && Distinct(matters, s.entries)
    && (forall k :: 0 <= k < |s.calls| && CallId(s.calls[k]).Some? && matters(CallId(s.calls[k]).value) ==>
          !Recorded(s.entries, CallId(s.calls[k]).value))
    && (forall k, l :: 0 <= k < l < |s.calls| && CallId(s.calls[k]).Some? && matters(CallId(s.calls[k]).value) ==>
          CallId(s.calls[k]) != CallId(s.calls[l]))
  }

  ghost predicate ReclaimsCommitted(s: State) {
    && (forall e <- s.entries :: e.Reclaim? ==> IsCommitted(s.budget, e.reservation))
    && (forall c <- s.calls :: c.Reclaiming? && c.entry.Reclaim? ==> IsCommitted(s.budget, c.entry.reservation))
  }

  /** A call is let through for an event id that matters while another call for it is under way. */
  ghost predicate IsTwin(matters: EventId -> bool, s: State, e: Event) {
    match e
    case AskRedistribute(target, _, amount, source, cap) =>
      && MayRedistribute(s.entries, target, source, Bounded(amount, cap))
      && var id := RedistributionTo(target, source, Bounded(amount, cap)); matters(id) && Underway(s, id)
    case AskTerminate(_, workstream, reason) =>
      var id := TerminationOf(workstream, reason); !Recorded(s.entries, id) && matters(id) && Underway(s, id)
    case _ => false
  }

  lemma AddCall(matters: EventId -> bool, s: State, c: Call, t: State)
    requires Unique(matters, s) && t.entries == s.entries && t.calls == s.calls + [c]
    requires CallId(c).Some? && matters(CallId(c).value) ==> !Recorded(s.entries, CallId(c).value)
    ensures Unique(matters, t) <==> !(CallId(c).Some? && matters(CallId(c).value) && Underway(s, CallId(c).value))
  {
    hide Recorded;
    if CallId(c).Some? && matters(CallId(c).value) && Underway(s, CallId(c).value) {
      var d :| d in s.calls && CallId(d) == CallId(c);
      var k :| 0 <= k < |s.calls| && s.calls[k] == d;
      assert t.calls[k] == d && t.calls[|s.calls|] == c;
    }
  }

  lemma FinishCall(matters: EventId -> bool, s: State, k: nat, entry: Entry, t: State)
    requires Unique(matters, s) && k < |s.calls| && CallId(s.calls[k]) == Some(IdOf(entry))
    requires t.entries == s.entries + [entry] && t.calls == s.calls[k := Finished]
    ensures Unique(matters, t)
  {
    forall l | 0 <= l < |t.calls| && CallId(t.calls[l]).Some? && matters(CallId(t.calls[l]).value)
      ensures !Recorded(t.entries, CallId(t.calls[l]).value)
    {
      assert t.calls[l] == s.calls[l] && l != k;
    }
  }

  lemma MoveCall(matters: EventId -> bool, s: State, k: nat, t: State)
    requires Unique(matters, s) && k < |s.calls| && |t.calls| == |s.calls| && t.entries == s.entries
    requires t.calls == s.calls[k := t.calls[k]] && (CallId(t.calls[k]) == CallId(s.calls[k]) || t.calls[k].Finished?)
    ensures Unique(matters, t)
  {
    hide Recorded;
  }

  lemma StepReclaimsCommitted(limits: Limits, s: State, e: Event)
    requires Inv(s) && ReclaimsCommitted(s)
    ensures ReclaimsCommitted(Step(limits, s, e))
    ensures var t := Step(limits, s, e);
            e.Reconcile? && t.calls != s.calls ==>
              !Recorded(s.entries, ReclaimOf(e.reservation.value)) && !Underway(s, ReclaimOf(e.reservation.value))
  {
    StepBudget(limits, s, e);
    hide BudgetInv, Reclaimed, CancelFirst, CancelAt, Reserved, MayRedistribute, CommitUsage, Total;
    hide Conserves, Pending, Overrun, OpenClaims;
    var t := Step(limits, s, e);
    if e.Reconcile? {
      CommitKeeps(limits, s.budget, e.key, e.reservation, e.billable);
    } else if e.Proceed? && e.call < |s.calls| {
      assert s.calls[e.call] in s.calls && WellFormed(s.calls[e.call]);
    }
  }

  /** That is exactly when a step loses uniqueness. */
  lemma StepUniqueIff(limits: Limits, matters: EventId -> bool, s: State, e: Event)
    requires Inv(s) && ReclaimsCommitted(s) && Unique(matters, s)
    ensures Unique(matters, Step(limits, s, e)) <==> !IsTwin(matters, s, e)
  {
    StepReclaimsCommitted(limits, s, e);
    hide Inv, Unique, ReclaimsCommitted, CancelFirst, CancelAt, Reserved, Recorded, CommitUsage, Underway;
    hide Reclaimed, Redistributed;
    var t := Step(limits, s, e);
    if |t.calls| > |s.calls| {
      AddCall(matters, s, t.calls[|s.calls|], t);
    } else if e.Proceed? && e.call < |s.calls| && !s.calls[e.call].Finished? {
      if s.calls[e.call].Asking? || s.calls[e.call].Terminating? {
        MoveCall(matters, s, e.call, t);
      } else {
        FinishCall(matters, s, e.call, s.calls[e.call].entry, t);
      }
    }
  }

  /** In a run, event ids stay unique throughout if and only if no call in it is a twin. */
  lemma {:induction false} UniqueThroughoutIff(limits: Limits, matters: EventId -> bool, s: State, events: seq<Event>)
    requires Inv(s) && ReclaimsCommitted(s) && Unique(matters, s)
    ensures Throughout(limits, s => Unique(matters, s), s, events)
       <==> Keeps(limits, (s, e) => !IsTwin(matters, s, e), s, events)
    decreases |events|
  {
    hide Inv, Step, Unique, ReclaimsCommitted, IsTwin;
    if events != [] {
      StepInv(limits, s, events[0]);
      StepReclaimsCommitted(limits, s, events[0]);
      StepUniqueIff(limits, matters, s, events[0]);
      if Unique(matters, Step(limits, s, events[0])) {
        UniqueThroughoutIff(limits, matters, Step(limits, s, events[0]), events[1..]);
      }
    }
  }

  /** In every run, no reservation is reclaimed twice. In one without twins, no event of any kind is recorded twice.
      */
  lemma RecordedOnce(limits: Limits, events: seq<Event>, i: nat, j: nat)
    requires i < j < |Run(limits, INITIAL, events).entries|
    ensures var entries := Run(limits, INITIAL, events).entries;
            entries[i].Reclaim? ==> IdOf(entries[i]) != IdOf(entries[j])
    ensures var entries := Run(limits, INITIAL, events).entries;
            Keeps(limits, (s, e) => !IsTwin(_ => true, s, e), INITIAL, events) ==> IdOf(entries[i]) != IdOf(entries[j])
  {
    hide Run, Keeps;
    InitialUnique();
    var reclaims := (id: EventId) => id.ReclaimOf?;
    NoTwinReclaims(limits, reclaims, INITIAL, events);
    UniqueThroughoutIff(limits, reclaims, INITIAL, events);
    AtTheEnd(limits, s => Unique(reclaims, s), INITIAL, events);
    if Keeps(limits, (s, e) => !IsTwin(_ => true, s, e), INITIAL, events) {
      UniqueThroughoutIff(limits, _ => true, INITIAL, events);
      AtTheEnd(limits, s => Unique(_ => true, s), INITIAL, events);
    }
  }

  lemma InitialUnique()
    ensures Inv(INITIAL) && ReclaimsCommitted(INITIAL) && forall matters: EventId -> bool :: Unique(matters, INITIAL)
  {
  }

  lemma {:induction false} NoTwinReclaims(limits: Limits, matters: EventId -> bool, s: State, events: seq<Event>)
    requires forall id :: matters(id) ==> id.ReclaimOf?
    ensures Keeps(limits, (s, e) => !IsTwin(matters, s, e), s, events)
    decreases |events|
  {
    hide Step;
    if events != [] {
      NoTwinReclaims(limits, matters, Step(limits, s, events[0]), events[1..]);
    }
  }
}
