/** Live verification of a run as a state machine: any number of verifications of one run, each cut
    at its awaits, interleave with each other and with arbitrary changes of the run. */
module LiveVerificationModel {
  import opened Options

  datatype Phase = Verifying | Recovering | Completed | Failed | Cancelled | OtherPhase(name: string)

  predicate Terminal(p: Phase) {
    p.Completed? || p.Failed? || p.Cancelled?
  }

  datatype WorkItem = WorkItem(id: string, isRequired: bool, isSatisfied: bool, evidenceIds: set<string>)

  /** The part of a snapshot that the state fingerprint covers. `rest` stands for the artifacts,
      results and evidence rows that the fingerprint also covers and verification does not read. */
  datatype Content = Content(
    aggregateVersion: nat,
    phase: Phase,
    workItems: seq<WorkItem>,
    activeRequired: nat,
    failedRequired: nat,
    cancelRequested: nat,
    deferredReplacement: bool,
    rest: string)

  /** A run: its fingerprinted content, and what the fingerprint does not cover. */
  datatype RunState = RunState(content: Content, stalled: bool, validSha: bool)

  datatype Status = Pending | Passed | NotPassed

  datatype Reason =
    | RequiredWorkIncomplete | RequiredChildActive | RequiredChildFailed | CancellationUnresolved
    | DeferredUnresolved | NoDurableEvidence | ChecksIncomplete | ChecksFailed | StateChanged

  /** A durable verification: one per state version and fingerprint. */
  datatype Identity = Identity(version: nat, fingerprint: string)

  datatype Record = Record(
    id: Identity, status: Status, stale: bool, validSha: bool, evidenceIds: set<string>, reasons: set<Reason>)

  /** Where a verification stands at an await. */
  datatype Stage =
    | Requesting(id: Identity, validSha: bool)
    | Rechecking(id: Identity)
    | Evaluating(id: Identity, snapshot: Content)
    | Updating(id: Identity, snapshot: Content)
    | Applying(result: Record)
    | MarkingStale(id: Identity)
    | Done

  /** An attempt to complete the run: what the run was, and the result it was attempted on. */
  datatype Attempt = Attempt(content: Content, result: Record)

  datatype State = State(
    run: Option<RunState>,
    records: map<Identity, Record>,
    stages: map<nat, Stage>,
    attempts: seq<Attempt>,
    completions: nat)

  // ----- What verification asks of a run -----

  predicate RequiredSatisfied(c: Content) {
    && (exists item <- c.workItems :: item.isRequired)
    && forall item <- c.workItems :: item.isRequired ==> item.isSatisfied
  }

  function RequiredEvidence(c: Content): set<string> {
    set item, id | item in c.workItems && item.isRequired && id in item.evidenceIds :: id
  }

  /** The reasons pushed by `runLiveVerification`. */
  function FailureReasons(c: Content): seq<Reason> {
    (if RequiredSatisfied(c) then [] else [RequiredWorkIncomplete])
    + (if c.activeRequired > 0 then [RequiredChildActive] else [])
    + (if c.failedRequired > 0 then [RequiredChildFailed] else [])
    + (if c.cancelRequested > 0 then [CancellationUnresolved] else [])
    + (if c.deferredReplacement then [DeferredUnresolved] else [])
  }

  /** The reasons recorded by `evaluateLiveVerification`. */
  function Findings(c: Content): set<Reason> {
    (set r <- FailureReasons(c))
    + (if RequiredEvidence(c) == {} then {NoDurableEvidence} else {})
    + (if RequiredSatisfied(c) && c.activeRequired == 0 then {} else {ChecksIncomplete})
    + (if FailureReasons(c) == [] then {} else {ChecksFailed})
  }

  function Evaluate(r: Record, c: Content): Record {
    r.(status := if Findings(c) == {} then Passed else NotPassed,
       evidenceIds := RequiredEvidence(c),
       reasons := Findings(c))
  }

  predicate Settled(r: Record) {
    r.stale || r.status != Pending
  }

  /** What keeps the completion policy from completing the run on the verification `id`. */
  predicate Blocked(fp: Content -> string, run: RunState, records: map<Identity, Record>, id: Identity) {
    var c := run.content;
    || c.phase != Verifying
    || !RequiredSatisfied(c)
    || c.activeRequired > 0 || c.failedRequired > 0 || c.cancelRequested > 0 || c.deferredReplacement
    || run.stalled
    || id !in records
    || records[id].status != Passed || records[id].stale || !records[id].validSha
    || records[id].id.version < 1
    || records[id].evidenceIds == {} || records[id].reasons != {}
    || records[id].id.version != c.aggregateVersion || records[id].id.fingerprint != fp(c)
  }

  // ----- The segments of `runLiveVerification` between its awaits -----

  /** Up to the request. */
  function Begin(fp: Content -> string, run: Option<RunState>): Stage {
    if run.None? || run.value.content.phase != Verifying then Done
    else Requesting(Identity(run.value.content.aggregateVersion, fp(run.value.content)), run.value.validSha)
  }

  /** The durable request: the record of this identity, created if there is none. */
  function Create(records: map<Identity, Record>, id: Identity, validSha: bool): map<Identity, Record> {
    if id in records then records else records[id := Record(id, Pending, false, validSha, {}, {})]
  }

  /** The snapshot is read again after the request. */
  function Recheck(fp: Content -> string, run: Option<RunState>, id: Identity): Stage {
    if || run.None?
       || run.value.content.aggregateVersion != id.version
       || fp(run.value.content) != id.fingerprint
       || run.value.content.phase != Verifying
    then MarkingStale(id)
    else Evaluating(id, run.value.content)
  }

  /** The record read before it is written: a settled one is returned as it is. */
  function Read(records: map<Identity, Record>, id: Identity, snapshot: Content): Stage {
    if id !in records then Done
    else if Settled(records[id]) then Applying(records[id])
    else Updating(id, snapshot)
  }

  /** The result is applied only to the state it was made for. */
  function Apply(fp: Content -> string, s: State, v: nat, r: Record): State {
    if s.run.None? || fp(s.run.value.content) != r.id.fingerprint then
      s.(stages := s.stages[v := MarkingStale(r.id)])
    else
      var c := s.run.value.content;
      if Terminal(c.phase) then s.(stages := s.stages[v := Done])
      else if c.phase != Verifying || c.aggregateVersion != r.id.version then
        s.(stages := s.stages[v := MarkingStale(r.id)])
      else if r.status != Passed then
        s.(stages := s.stages[v := Done], run := Some(Advance(s.run.value, Recovering)))
      else
        var t := s.(stages := s.stages[v := Done], attempts := s.attempts + [Attempt(c, r)]);
        if Blocked(fp, s.run.value, s.records, r.id) then t
        else t.(run := Some(Advance(s.run.value, Completed)), completions := s.completions + 1)
  }

  function Advance(run: RunState, phase: Phase): RunState {
    run.(content := run.content.(phase := phase, aggregateVersion := run.content.aggregateVersion + 1))
  }

  function MarkStale(records: map<Identity, Record>, id: Identity): map<Identity, Record> {
    if id in records && !records[id].stale
    then records[id := records[id].(stale := true, reasons := records[id].reasons + {StateChanged})]
    else records
  }

  // ----- Runs -----

  datatype Event =
    | Starts(v: nat)
    | Continues(v: nat)
    | Changes(run: Option<RunState>)

  /** A run in a terminal phase stays in it: terminal phases are immutable. */
  predicate MayChange(before: Option<RunState>, after: Option<RunState>) {
    before.Some? && Terminal(before.value.content.phase)
    ==> after.Some? && after.value.content.phase == before.value.content.phase
  }

  function Continue(fp: Content -> string, s: State, v: nat): State
    requires v in s.stages
  {
    match s.stages[v]
    case Requesting(id, validSha) =>
      s.(records := Create(s.records, id, validSha), stages := s.stages[v := Rechecking(id)])
    case Rechecking(id) =>
      s.(stages := s.stages[v := Recheck(fp, s.run, id)])
    case Evaluating(id, snapshot) =>
      s.(stages := s.stages[v := Read(s.records, id, snapshot)])
    case Updating(id, snapshot) =>
      if id !in s.records then s.(stages := s.stages[v := Done])
      else
        var r := Evaluate(s.records[id], snapshot);
        s.(records := s.records[id := r], stages := s.stages[v := Applying(r)])
    case Applying(r) =>
      Apply(fp, s, v, r)
    case MarkingStale(id) =>
      s.(records := MarkStale(s.records, id), stages := s.stages[v := Done])
    case Done => s
  }

  function Step(fp: Content -> string, s: State, e: Event): State {
    match e
    case Starts(v) => if v in s.stages then s else s.(stages := s.stages[v := Begin(fp, s.run)])
    case Continues(v) => if v in s.stages then Continue(fp, s, v) else s
    case Changes(run) => if MayChange(s.run, run) then s.(run := run) else s
  }

  function Run(fp: Content -> string, s: State, events: seq<Event>): State
    decreases events
  {
    if events == [] then s else Run(fp, Step(fp, s, events[0]), events[1..])
  }
}
