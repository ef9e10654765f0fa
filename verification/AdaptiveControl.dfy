/** The controller and the ledger as one object. A method runs up to where its call next waits. */
module AdaptiveControl {
  import opened Options
  import opened AdaptiveLedgerModel

  class AdaptiveExecutionControl {
    const limits: Limits
    var budget: Budget
    var entries: seq<Entry>
    var calls: seq<Call>
    var handles: seq<Handle>

    constructor (limits: Limits)
      ensures this.limits == limits && Model() == INITIAL
    {
      this.limits := limits;
      budget, entries, calls, handles := INITIAL.budget, [], [], [];
    }

    ghost function Model(): State
      reads this
    {
      State(budget, entries, calls, handles)
    }

    // ----- The controller -----

    method ReserveRequest(session: string, input: int, output: int, refused: bool) returns (claimed: Option<nat>)
      modifies this`budget
      ensures (budget, claimed) == Reserved(limits, old(budget), session, input, output, refused)
    {
      var need := Clamp(input, limits.maxInput) + Clamp(output, limits.maxOutput);
      if budget.terminal || need > RemainingRun(limits, budget) || refused {
        return None;
      }
      budget := budget.(
        reserved := budget.reserved + need,
        reservations := budget.reservations + [Reservation(session, need, Open)]);
      return Some(need);
    }

    method CancelReservation(k: nat)
      modifies this`budget
      ensures budget == CancelAt(old(budget), k)
    {
      if k < |budget.reservations| && budget.reservations[k].status.Open? {
        var r := budget.reservations[k];
        budget := budget.(
          reservations := budget.reservations[k := r.(status := Cancelled)],
          reserved := Less(budget.reserved, r.claimed));
      }
    }

    method CancelReservations(sessions: Option<set<string>>)
      modifies this`budget
      ensures budget == CancelFirst(old(budget), sessions, |old(budget).reservations|)
    {
      var n := |budget.reservations|;
      for k := 0 to n
        invariant |budget.reservations| == n
        invariant budget == CancelFirst(old(budget), sessions, k)
      {
        if sessions.None? || budget.reservations[k].session in sessions.value {
          CancelReservation(k);
        }
      }
    }

    method Commit(key: string, reservation: Option<nat>, billable: nat) returns (unused: Option<nat>)
      modifies this`budget
      ensures (budget, unused) == CommitUsage(limits, old(budget), key, reservation, billable)
    {
      if key != "" && key in budget.keys {
        return None;
      }
      var charged := budget;
      var freed := 0;
      if reservation.Some? && reservation.value < |budget.reservations| {
        var r := budget.reservations[reservation.value];
        if r.status.Open? {
          freed := Less(r.claimed, billable);
          charged := charged.(
            reservations := charged.reservations[reservation.value := r.(status := Committed)],
            reserved := Less(charged.reserved, r.claimed),
            released := charged.released + freed);
        }
      }
      charged := charged.(consumed := charged.consumed + billable);
      if key != "" {
        charged := charged.(keys := charged.keys + {key});
      }
      assert charged == Charged(budget, key, reservation, billable);
      budget := charged;
      if !budget.terminal && budget.consumed >= limits.hardStop {
        CancelReservations(None);
        budget := budget.(terminal := true);
      }
      return Some(freed);
    }

    method Stop()
      modifies this`budget
      ensures Model() == Step(limits, old(Model()), StopRun)
    {
      if !budget.terminal {
        CancelReservations(None);
        budget := budget.(terminal := true);
      }
    }

    // ----- The ledger -----

    method ReconcileCompletion(workstream: string, key: string, reservation: Option<nat>, billable: nat)
      modifies this`budget, this`calls
      ensures Model() == Step(limits, old(Model()), Reconcile(workstream, key, reservation, billable))
    {
      var unused := Commit(key, reservation, billable);
      if unused.Some? && unused.value > 0 && reservation.Some? {
        calls := calls + [Reclaiming(Reclaim(reservation.value, workstream, unused.value))];
      }
    }

    method Totals() returns (reclaimed: nat, redistributed: nat)
      ensures reclaimed == Reclaimed(entries) && redistributed == Redistributed(entries)
    {
      reclaimed, redistributed := 0, 0;
      for k := 0 to |entries|
        invariant reclaimed == Reclaimed(entries[..k]) && redistributed == Redistributed(entries[..k])
      {
        assert entries[..k + 1][..k] == entries[..k];
        match entries[k]
        case Reclaim(_, _, amount) => reclaimed := reclaimed + amount;
        case Redistribution(_, _, _, _, amount) => redistributed := redistributed + amount;
        case _ =>
      }
      assert entries[..|entries|] == entries;
    }

    method Redistribute(target: string, session: string, amount: real, source: Option<nat>, profileCap: Option<nat>)
        returns (goesOn: bool)
      modifies this`calls
      ensures Model() == Step(limits, old(Model()), AskRedistribute(target, session, amount, source, profileCap))
      ensures goesOn == (calls != old(calls))
    {
      var bounded := Bounded(amount, profileCap);
      if bounded <= 0 {
        return false;
      }
      if Recorded(entries, RedistributionTo(target, source, bounded)) {
        return false;
      }
      if source.Some? && !Recorded(entries, ReclaimOf(source.value)) {
        return false;
      }
      var reclaimed, redistributed := Totals();
      if bounded > Less(reclaimed, redistributed) {
        return false;
      }
      calls := calls + [Asking(target, source, bounded, session)];
      return true;
    }

    method Terminate(session: string, workstream: string, reason: string)
      modifies this`calls
      ensures Model() == Step(limits, old(Model()), AskTerminate(session, workstream, reason))
    {
      if !Recorded(entries, TerminationOf(workstream, reason)) {
        calls := calls + [Terminating(session, workstream, reason)];
      }
    }

    /** What a waiting call does next. */
    method Continue(c: nat, refused: bool, affected: set<string>)
      requires c < |calls|
      modifies this
      ensures Model() == Step(limits, old(Model()), Proceed(c, refused, affected))
    {
      match calls[c]
      case Reclaiming(entry) => entries, calls := entries + [entry], calls[c := Finished];
      case Granted(entry) => entries, calls := entries + [entry], calls[c := Finished];
      case Ended(entry) => entries, calls := entries + [entry], calls[c := Finished];
      case Asking(target, source, asked, session) =>
        var r := |budget.reservations|;
        var claimed := ReserveRequest(session, 0, asked, refused);
        calls := calls[c :=
          if claimed.None? then Finished else Granted(Redistribution(target, source, asked, r, claimed.value))];
      case Terminating(session, workstream, reason) =>
        CancelReservations(Some(affected + {session}));
        calls := calls[c := Ended(Termination(workstream, reason))];
      case Finished =>
    }

    // ----- Handles -----

    method OpenHandle(session: string, workstream: string, cap: nat)
      modifies this`handles
      ensures Model() == Step(limits, old(Model()), OpenWorkstream(session, workstream, cap))
    {
      handles := handles + [Handle(session, workstream, cap, [])];
    }

    method FindPending(workstream: string, given: seq<nat>) returns (r: Option<nat>)
      ensures r == Pending(entries, workstream, given)
    {
      for k := 0 to |entries|
        invariant Pending(entries, workstream, given) == Pending(entries[k..], workstream, given)
      {
        var e := entries[k];
        if e.Redistribution? && e.target == workstream && e.reservation !in given {
          return Some(e.reservation);
        }
      }
      return None;
    }

    /** `reserve` of a handle: a pending redistribution, or a new reservation. */
    method ReserveFor(k: nat, input: int, output: int, refused: bool)
      requires k < |handles|
      modifies this`handles, this`budget
      ensures Model() == Step(limits, old(Model()), HandleReserve(k, input, output, refused))
    {
      var h := handles[k];
      var r := FindPending(h.workstream, h.given);
      if r.Some? {
        handles := handles[k := h.(given := h.given + [r.value])];
      } else {
        var _ := ReserveRequest(h.session, input, if output < h.profileCap then output else h.profileCap, refused);
      }
    }
  }
}
