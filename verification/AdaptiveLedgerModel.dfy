/** The adaptive token ledger over its budget controller, with calls that wait in the middle and so overlap. */
module AdaptiveLedgerModel {
  import opened Options

  datatype Status = Open | Committed | Cancelled

  /** Reservations are numbered in the order the controller makes them. */
  datatype Reservation = Reservation(session: string, claimed: nat, status: Status)

  datatype Limits = Limits(ceiling: nat, maxInput: nat, maxOutput: nat, hardStop: nat)

  datatype Budget = Budget(
    reservations: seq<Reservation>, reserved: nat, consumed: nat, released: nat, keys: set<string>, terminal: bool)

  datatype Entry =
    | Reclaim(reservation: nat, workstream: string, amount: nat)
    | Redistribution(target: string, source: Option<nat>, asked: nat, reservation: nat, amount: nat)
    | Termination(workstream: string, reason: string)

  datatype EventId =
    | ReclaimOf(reservation: nat)
    | RedistributionTo(target: string, source: Option<nat>, asked: nat)
    | TerminationOf(workstream: string, reason: string)

  function IdOf(e: Entry): EventId {
    match e
    case Reclaim(r, _, _) => ReclaimOf(r)
    case Redistribution(t, s, a, _, _) => RedistributionTo(t, s, a)
    case Termination(w, r) => TerminationOf(w, r)
  }

  /** A call where it waits. What it has still to write into the ledger is in it. */
  datatype Call =
    | Reclaiming(entry: Entry)
    | Asking(target: string, source: Option<nat>, asked: nat, session: string)
    | Granted(entry: Entry)
    | Terminating(session: string, workstream: string, reason: string)
    | Ended(entry: Entry)
    | Finished

  /** What `openWorkstream` returns, with the redistributed reservations it has given out, in order. */
  datatype Handle = Handle(session: string, workstream: string, profileCap: nat, given: seq<nat>)

  datatype State = State(budget: Budget, entries: seq<Entry>, calls: seq<Call>, handles: seq<Handle>)

  datatype Event =
    | Reserve(session: string, input: int, output: int, refused: bool)
    | Reconcile(workstream: string, key: string, reservation: Option<nat>, billable: nat)
    | AskRedistribute(target: string, session: string, amount: real, source: Option<nat>, profileCap: Option<nat>)
    | AskTerminate(session: string, workstream: string, reason: string)
    | Proceed(call: nat, refused: bool, affected: set<string>)
    | OpenWorkstream(session: string, workstream: string, cap: nat)
    | HandleReserve(handle: nat, input: int, output: int, refused: bool)
    | CancelOne(cancelled: nat)
    | StopRun

  // ----- The controller -----

  function Clamp(n: int, most: nat): nat {
    if n < 0 then 0 else if n > most then most else n
  }

  function Less(a: nat, b: nat): nat {
    if a < b then 0 else a - b
  }

  function RemainingRun(limits: Limits, b: Budget): nat {
    Less(limits.ceiling, b.consumed + b.reserved)
  }

  /** `reserveRequest`. `refused` stands for a session that has ended or used up its own share. */
  function Reserved(
      limits: Limits, b: Budget, session: string, input: int, output: int, refused: bool): (Budget, Option<nat>)
  {
    var need := Clamp(input, limits.maxInput) + Clamp(output, limits.maxOutput);
    if b.terminal || need > RemainingRun(limits, b) || refused then (b, None)
    else
      var next := b.reservations + [Reservation(session, need, Open)];
      (b.(reservations := next, reserved := b.reserved + need), Some(need))
  }

  /** Cancels the open reservation at k, if it is one. */
  function CancelAt(b: Budget, k: nat): Budget {
    if k < |b.reservations| && b.reservations[k].status.Open?
    then b.(reservations := b.reservations[k := b.reservations[k].(status := Cancelled)],
            reserved := Less(b.reserved, b.reservations[k].claimed))
    else b
  }

  /** Cancels the open reservations before n that belong to some sessions, or to any. */
  function CancelFirst(b: Budget, sessions: Option<set<string>>, n: nat): Budget {
    if n == 0 then b
    else
      var c := CancelFirst(b, sessions, n - 1);
      if n <= |c.reservations| && (sessions.None? || c.reservations[n - 1].session in sessions.value)
      then CancelAt(c, n - 1)
      else c
  }

  /** A commit before the hard stop is looked at. */
  function Charged(b: Budget, key: string, reservation: Option<nat>, billable: nat): (c: Budget)
    ensures c.released >= b.released
  {
    var open := reservation.Some? && IsOpen(b, reservation.value);
    var claimed := if open then b.reservations[reservation.value].claimed else 0;
    Budget(
      if open
      then b.reservations[reservation.value := b.reservations[reservation.value].(status := Committed)]
      else b.reservations,
      Less(b.reserved, claimed),
      b.consumed + billable,
      b.released + (if open then Less(claimed, billable) else 0),
      if key != "" then b.keys + {key} else b.keys,
      b.terminal)
  }

  predicate IsOpen(b: Budget, k: nat) {
    k < |b.reservations| && b.reservations[k].status.Open?
  }

  predicate IsCommitted(b: Budget, k: nat) {
    k < |b.reservations| && b.reservations[k].status.Committed?
  }

  /** `commitUsage`: a key that was committed before changes nothing. */
  function CommitUsage(
      limits: Limits, b: Budget, key: string, reservation: Option<nat>, billable: nat): (Budget, Option<nat>)
  {
    if key != "" && key in b.keys then (b, None)
    else
      var charged := Charged(b, key, reservation, billable);
      (if !charged.terminal && charged.consumed >= limits.hardStop
       then CancelFirst(charged, None, |charged.reservations|).(terminal := true)
       else charged,
       Some(charged.released - b.released))
  }

  // ----- The ledger -----

  function Reclaimed(entries: seq<Entry>): nat
    decreases |entries|
  {
    if entries == [] then 0
    else
      var e := entries[|entries| - 1];
      Reclaimed(entries[..|entries| - 1]) + if e.Reclaim? then e.amount else 0
  }

  function Redistributed(entries: seq<Entry>): nat
    decreases |entries|
  {
    if entries == [] then 0
    else
      var e := entries[|entries| - 1];
      Redistributed(entries[..|entries| - 1]) + if e.Redistribution? then e.amount else 0
  }

  predicate Recorded(entries: seq<Entry>, id: EventId) {
    exists e <- entries :: IdOf(e) == id
  }

  /** What a redistribution is for: at least one token, and no more than the profile allows. */
  function Bounded(amount: real, profileCap: Option<nat>): int {
    if profileCap.Some? && profileCap.value < amount.Floor then profileCap.value else amount.Floor
  }

  predicate MayRedistribute(entries: seq<Entry>, target: string, source: Option<nat>, bounded: int) {
    && bounded > 0
    && !Recorded(entries, RedistributionTo(target, source, bounded))
    && (source.Some? ==> Recorded(entries, ReclaimOf(source.value)))
    && bounded <= Less(Reclaimed(entries), Redistributed(entries))
  }

  // ----- Handles -----

  /** The first redistribution to a workstream that has not been given out. */
  function Pending(entries: seq<Entry>, workstream: string, given: seq<nat>): Option<nat> {
    if entries == [] then None
    else if entries[0].Redistribution? && entries[0].target == workstream && entries[0].reservation !in given
    then Some(entries[0].reservation)
    else Pending(entries[1..], workstream, given)
  }

  /** `reserve` of a handle: a pending redistribution, or an ordinary reservation within the profile. */
  function HandleReserved(limits: Limits, s: State, k: nat, input: int, output: int, refused: bool): State
    requires k < |s.handles|
  {
    var h := s.handles[k];
    var r := Pending(s.entries, h.workstream, h.given);
    if r.Some? then s.(handles := s.handles[k := h.(given := h.given + [r.value])])
    else
      var capped := if output < h.profileCap then output else h.profileCap;
      s.(budget := Reserved(limits, s.budget, h.session, input, capped, refused).0)
  }

  // ----- Steps -----

  function Asked(s: State, e: Event): State
    requires e.AskRedistribute?
  {
    var bounded := Bounded(e.amount, e.profileCap);
    if MayRedistribute(s.entries, e.target, e.source, bounded)
    then s.(calls := s.calls + [Asking(e.target, e.source, bounded, e.session)])
    else s
  }

  /** Calls that proceed: a redistribution asks the controller and then writes; a termination cancels and then
      writes. */
  function Proceeded(limits: Limits, s: State, c: nat, refused: bool, affected: set<string>): State
    requires c < |s.calls|
  {
    match s.calls[c]
    case Reclaiming(entry) => s.(entries := s.entries + [entry], calls := s.calls[c := Finished])
    case Granted(entry) => s.(entries := s.entries + [entry], calls := s.calls[c := Finished])
    case Ended(entry) => s.(entries := s.entries + [entry], calls := s.calls[c := Finished])
    case Asking(target, source, asked, session) =>
      var (b, claimed) := Reserved(limits, s.budget, session, 0, asked, refused);
      s.(budget := b, calls := s.calls[c :=
        if claimed.None? then Finished
        else Granted(Redistribution(target, source, asked, |s.budget.reservations|, claimed.value))])
    case Terminating(session, workstream, reason) =>
      s.(budget := CancelFirst(s.budget, Some(affected + {session}), |s.budget.reservations|),
         calls := s.calls[c := Ended(Termination(workstream, reason))])
    case Finished => s
  }

  function Step(limits: Limits, s: State, e: Event): State {
    match e
    case Reserve(session, input, output, refused) =>
      s.(budget := Reserved(limits, s.budget, session, input, output, refused).0)
    case Reconcile(workstream, key, reservation, billable) =>
      var (b, unused) := CommitUsage(limits, s.budget, key, reservation, billable);
      if unused.Some? && unused.value > 0 && reservation.Some?
      then s.(budget := b, calls := s.calls + [Reclaiming(Reclaim(reservation.value, workstream, unused.value))])
      else s.(budget := b)
    case AskRedistribute(_, _, _, _, _) => Asked(s, e)
    case AskTerminate(session, workstream, reason) =>
      if Recorded(s.entries, TerminationOf(workstream, reason)) then s
      else s.(calls := s.calls + [Terminating(session, workstream, reason)])
    case Proceed(c, refused, affected) => if c < |s.calls| then Proceeded(limits, s, c, refused, affected) else s
    case OpenWorkstream(session, workstream, cap) =>
      s.(handles := s.handles + [Handle(session, workstream, cap, [])])
    case HandleReserve(h, input, output, refused) =>
      if h < |s.handles| then HandleReserved(limits, s, h, input, output, refused) else s
    case CancelOne(k) => s.(budget := CancelAt(s.budget, k))
    case StopRun => if s.budget.terminal then s
                    else s.(budget := CancelFirst(s.budget, None, |s.budget.reservations|).(terminal := true))
  }

  function Run(limits: Limits, s: State, events: seq<Event>): State
    decreases |events|
  {
    if events == [] then s else Run(limits, Step(limits, s, events[0]), events[1..])
  }

  const INITIAL := State(Budget([], 0, 0, 0, {}, false), [], [], [])
}
