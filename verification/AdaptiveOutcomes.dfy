/** What every event of the token ledger does: which reservations are granted, what a commit and a cancellation change,
    and which calls are let through. */
module AdaptiveOutcomes {
  import opened Options
  import opened AdaptiveLedgerModel
  import opened AdaptiveLedgerTheorems

  // ----- Reservations -----

  /** What a request for so much input and output comes to, within the limits of one request. */
  ghost function Need(limits: Limits, input: int, output: int): nat {
    (if input <= 0 then 0 else if input <= limits.maxInput then input else limits.maxInput)
    + (if output <= 0 then 0 else if output <= limits.maxOutput then output else limits.maxOutput)
  }

  /** The controller can and will give so much. */
  ghost predicate Grants(limits: Limits, b: Budget, need: nat, refused: bool) {
    !b.terminal && !refused && (need == 0 || b.consumed + b.reserved + need <= limits.ceiling)
  }

  ghost function WithReservation(b: Budget, session: string, need: nat): Budget {
    b.(reservations := b.reservations + [Reservation(session, need, Open)], reserved := b.reserved + need)
  }

  /** A reservation is granted if and only if the run is not over, the session has a share left, and the run has
      enough left; and then it is open and counted. */
  lemma ReserveIff(limits: Limits, s: State, session: string, input: int, output: int, refused: bool)
    ensures var need := Need(limits, input, output);
            Step(limits, s, Reserve(session, input, output, refused)) ==
              if Grants(limits, s.budget, need, refused)
              then s.(budget := WithReservation(s.budget, session, need))
              else s
  {
  }

  /** A handle gives out the first redistribution to its workstream that it has not given out, and only if there is
      none does it reserve, for its own session and for no more output than its profile allows. */
  lemma HandleReserveIff(limits: Limits, s: State, k: nat, input: int, output: int, refused: bool)
    requires k < |s.handles|
    ensures var h := s.handles[k];
            var t := Step(limits, s, HandleReserve(k, input, output, refused));
            && (forall j :: IsFirstUngiven(s.entries, h, j) ==>
                  t == s.(handles := s.handles[k := h.(given := h.given + [s.entries[j].reservation])]))
            && ((forall e <- s.entries :: !IsUngiven(e, h)) ==>
                  var capped := if output <= h.profileCap then output else h.profileCap;
                  t == Step(limits, s, Reserve(h.session, input, capped, refused)))
  {
    hide Reserved;
    PendingIff(s.entries, s.handles[k]);
  }

  /** A redistribution to the handle's workstream that the handle has not given out. */
  ghost predicate IsUngiven(e: Entry, h: Handle) {
    e.Redistribution? && e.target == h.workstream && e.reservation !in h.given
  }

  ghost predicate IsFirstUngiven(entries: seq<Entry>, h: Handle, j: int) {
    0 <= j < |entries| && IsUngiven(entries[j], h) && forall i :: 0 <= i < j ==> !IsUngiven(entries[i], h)
  }

  lemma {:induction false} PendingIff(entries: seq<Entry>, h: Handle)
    ensures (forall e <- entries :: !IsUngiven(e, h)) ==> Pending(entries, h.workstream, h.given) == None
    ensures forall j :: IsFirstUngiven(entries, h, j) ==>
              Pending(entries, h.workstream, h.given) == Some(entries[j].reservation)
  {
    if entries != [] {
      var rest := entries[1..];
      PendingIff(rest, h);
      if !IsUngiven(entries[0], h) {
        forall j | IsFirstUngiven(entries, h, j)
          ensures IsFirstUngiven(rest, h, j - 1) && rest[j - 1] == entries[j]
        {
          assert forall i :: 0 <= i < |rest| ==> rest[i] == entries[i + 1];
        }
      }
    }
  }

  // ----- Commits -----

  /** A commit under a key that was used before changes nothing. Any other bills the run; it closes the reservation it
      names, if that is open, frees what that claimed, and releases what of it was not used, which is then about to be
      entered as reclaimed. */
  lemma ReconcileIff(
      limits: Limits, s: State, workstream: string, key: string, reservation: Option<nat>, billable: nat)
    requires Inv(s)
    ensures var b := s.budget;
            var t := Step(limits, s, Reconcile(workstream, key, reservation, billable));
            if key != "" && key in b.keys then t == s
            else
              var open := reservation.Some? && reservation.value < |b.reservations|
                          && b.reservations[reservation.value].status == Open;
              var claimed := if open then b.reservations[reservation.value].claimed else 0;
              var unused := if claimed > billable then claimed - billable else 0;
              && claimed <= b.reserved
              && t.budget.consumed == b.consumed + billable && t.budget.released == b.released + unused
              && t.budget.keys == (if key == "" then b.keys else b.keys + {key})
              && t.budget.terminal == (b.terminal || b.consumed + billable >= limits.hardStop)
              && t.entries == s.entries && t.handles == s.handles
              && t.calls == s.calls
                   + (if unused == 0 then [] else [Reclaiming(Reclaim(reservation.value, workstream, unused))])
              && (!b.terminal && t.budget.terminal ==> t.budget.reserved == 0)
              && (b.terminal || !t.budget.terminal ==> t.budget.reserved == b.reserved - claimed)
              && |t.budget.reservations| == |b.reservations|
              && forall k: nat :: k < |b.reservations| ==>
                   t.budget.reservations[k] ==
                     if open && k == reservation.value then b.reservations[k].(status := Committed)
                     else if !b.terminal && t.budget.terminal && b.reservations[k].status == Open
                     then b.reservations[k].(status := Cancelled)
                     else b.reservations[k]
  {
    hide CancelFirst, OpenClaims, Conserves;
    var b := s.budget;
    var charged := Charged(b, key, reservation, billable);
    if reservation.Some? && IsOpen(b, reservation.value) {
      OpenClaimsUpdate(b.reservations, reservation.value, Committed);
    }
    ChargedKeeps(b, key, reservation, billable);
    AllCancelled(charged);
    assert s.calls + [] == s.calls;
  }

  lemma {:induction false} NoOpenClaims(rs: seq<Reservation>)
    requires forall r <- rs :: !r.status.Open?
    ensures OpenClaims(rs) == 0
    decreases |rs|
  {
    if rs != [] {
      NoOpenClaims(rs[..|rs| - 1]);
    }
  }

  lemma CancelLength(b: Budget, sessions: Option<set<string>>)
    ensures |CancelFirst(b, sessions, |b.reservations|).reservations| == |b.reservations|
  {
    if b.reservations != [] {
      CancelsExactly(b, sessions, |b.reservations|, 0);
    } else {
      assert CancelFirst(b, sessions, 0) == b;
    }
  }

  /** Cancelling everything leaves nothing reserved. */
  lemma AllCancelled(b: Budget)
    requires BudgetInv(b)
    ensures var c := CancelFirst(b, None, |b.reservations|);
            && c.reserved == 0 && c == b.(reservations := c.reservations, reserved := 0)
            && |c.reservations| == |b.reservations|
            && forall k: nat :: k < |b.reservations| ==>
                 c.reservations[k] == if b.reservations[k].status == Open
                                      then b.reservations[k].(status := Cancelled) else b.reservations[k]
  {
    var c := CancelFirst(b, None, |b.reservations|);
    CancelLength(b, None);
    CancelFirstOnlyFrees(b, None, |b.reservations|);
    forall k: nat | k < |b.reservations|
      ensures c.reservations[k] == if b.reservations[k].status == Open
                                   then b.reservations[k].(status := Cancelled) else b.reservations[k]
    {
      CancelsExactly(b, None, |b.reservations|, k);
    }
    CancelKeepsRest(b, None, |b.reservations|);
    NoOpenClaims(c.reservations);
  }

  lemma {:induction false} CancelKeepsRest(b: Budget, sessions: Option<set<string>>, n: nat)
    ensures var c := CancelFirst(b, sessions, n); c == b.(reservations := c.reservations, reserved := c.reserved)
  {
    if n > 0 {
      CancelKeepsRest(b, sessions, n - 1);
    }
  }

  // ----- Stops and cancellations -----

  /** Stopping the run cancels what is open, once. */
  lemma StopIff(limits: Limits, s: State)
    requires Inv(s)
    ensures var b, t := s.budget, Step(limits, s, StopRun);
            if b.terminal then t == s
            else
              && t == s.(budget := b.(reservations := t.budget.reservations, reserved := 0, terminal := true))
              && |t.budget.reservations| == |b.reservations|
              && forall k: nat :: k < |b.reservations| ==>
                   t.budget.reservations[k] == if b.reservations[k].status == Open
                                               then b.reservations[k].(status := Cancelled) else b.reservations[k]
  {
    hide CancelFirst;
    AllCancelled(s.budget);
  }

  /** A cancellation of one reservation cancels it if it is open, frees its claim, and touches no other. */
  lemma CancelOneIff(limits: Limits, s: State, k: nat)
    requires Inv(s)
    ensures var b := s.budget;
            Step(limits, s, CancelOne(k)) ==
              if k < |b.reservations| && b.reservations[k].status == Open && b.reservations[k].claimed <= b.reserved
              then s.(budget := b.(
                     reservations := b.reservations[k := b.reservations[k].(status := Cancelled)],
                     reserved := b.reserved - b.reservations[k].claimed))
              else s
    ensures k < |s.budget.reservations| && s.budget.reservations[k].status == Open ==>
              s.budget.reservations[k].claimed <= s.budget.reserved
  {
    if k < |s.budget.reservations| && s.budget.reservations[k].status == Open {
      OpenClaimsUpdate(s.budget.reservations, k, Cancelled);
    }
  }

  /** A termination that proceeds cancels the open reservations of its own session and of those the controller finds
      under it, and of no other, and is then about to be entered. */
  lemma TerminationCancels(limits: Limits, s: State, c: nat, refused: bool, affected: set<string>, k: nat)
    requires Inv(s) && c < |s.calls| && s.calls[c].Terminating? && k < |s.budget.reservations|
    ensures var call, r, t := s.calls[c], s.budget.reservations[k], Step(limits, s, Proceed(c, refused, affected));
            && |t.budget.reservations| == |s.budget.reservations|
            && t.budget.reservations[k] ==
                 (if r.status == Open && (r.session == call.session || r.session in affected)
                  then r.(status := Cancelled) else r)
            && t == s.(budget := t.budget, calls := s.calls[c := Ended(Termination(call.workstream, call.reason))])
            && t.budget == s.budget.(reservations := t.budget.reservations, reserved := t.budget.reserved)
  {
    hide CancelFirst;
    var sessions := Some(affected + {s.calls[c].session});
    CancelsExactly(s.budget, sessions, |s.budget.reservations|, k);
    CancelKeepsRest(s.budget, sessions, |s.budget.reservations|);
  }

  // ----- Calls -----

  /** A redistribution is let through for a whole number of tokens, at least one and at most what the profile allows,
      if that very one has not been entered, its source has been reclaimed, and so much is left of what was
      reclaimed. */
  lemma RedistributeIff(
      limits: Limits, s: State, target: string, session: string, amount: real, source: Option<nat>, cap: Option<nat>)
    ensures var most := if cap.Some? && (cap.value as real) < amount then cap.value else amount.Floor;
            Step(limits, s, AskRedistribute(target, session, amount, source, cap)) ==
              if && most >= 1
                 && (forall e <- s.entries :: e.Redistribution? ==>
                       !(e.target == target && e.source == source && e.asked == most))
                 && (source.Some? ==> exists e <- s.entries :: e.Reclaim? && e.reservation == source.value)
                 && Redistributed(s.entries) + most <= Reclaimed(s.entries)
              then s.(calls := s.calls + [Asking(target, source, most, session)])
              else s
  {
    hide Reclaimed, Redistributed;
  }

  /** A termination is let through if that very one has not been entered. */
  lemma TerminateIff(limits: Limits, s: State, session: string, workstream: string, reason: string)
    ensures Step(limits, s, AskTerminate(session, workstream, reason)) ==
              if exists e <- s.entries :: e.Termination? && e.workstream == workstream && e.reason == reason
              then s else s.(calls := s.calls + [Terminating(session, workstream, reason)])
  {
    if e :| e in s.entries && IdOf(e) == TerminationOf(workstream, reason) {
      assert e.Termination? && e.workstream == workstream && e.reason == reason;
    }
    if e :| e in s.entries && e.Termination? && e.workstream == workstream && e.reason == reason {
      assert IdOf(e) == TerminationOf(workstream, reason);
    }
  }

  /** A redistribution that proceeds is granted what the controller gives it, or ends there. */
  lemma GrantIff(limits: Limits, s: State, c: nat, refused: bool, affected: set<string>)
    requires c < |s.calls| && s.calls[c].Asking?
    ensures var call, need := s.calls[c], Need(limits, 0, s.calls[c].asked);
            var granted := Redistribution(call.target, call.source, call.asked, |s.budget.reservations|, need);
            Step(limits, s, Proceed(c, refused, affected)) ==
              if Grants(limits, s.budget, need, refused)
              then s.(budget := WithReservation(s.budget, call.session, need), calls := s.calls[c := Granted(granted)])
              else s.(calls := s.calls[c := Finished])
  {
  }

  /** A call that has only its entry left to write writes it. */
  lemma EntryIsWritten(limits: Limits, s: State, c: nat, refused: bool, affected: set<string>)
    requires c < |s.calls| && (s.calls[c].Reclaiming? || s.calls[c].Granted? || s.calls[c].Ended?)
    ensures Step(limits, s, Proceed(c, refused, affected))
         == s.(entries := s.entries + [s.calls[c].entry], calls := s.calls[c := Finished])
  {
    hide CancelFirst, Reserved;
  }

  /** A workstream is opened with a handle that has given out nothing. */
  lemma OpenIs(limits: Limits, s: State, session: string, workstream: string, cap: nat)
    ensures Step(limits, s, OpenWorkstream(session, workstream, cap))
         == s.(handles := s.handles + [Handle(session, workstream, cap, [])])
  {
  }
}
