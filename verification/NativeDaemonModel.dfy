/** The resident FDX process manager as a state machine: one function per event
    that reaches it. A request is named by its sequence number and a child process
    by its place in the order of starts. */
module NativeDaemonModel {
  import opened Options
  import opened LineFraming

  datatype Code =
    | TimedOut | Aborted | WriteFailed | Wedged | Stopped | SpawnFailed | BadResponse | ProcessExited

  datatype Outcome = Resolved(value: string) | Rejected(code: Code)

  datatype Signal = NoSignal | LiveSignal | AbortedSignal

  /** A pending request: whether its caller gave an abort signal, and the process it was written to. */
  datatype Entry = Entry(hasSignal: bool, process: nat)

  /** The pending requests with the timers and abort listeners the runtime holds for them.
      `finishes` records every attempt to settle a request's promise; the first one counts. */
  datatype Book = Book(
    pending: map<nat, Entry>,
    timers: set<nat>,
    listeners: set<nat>,
    nextId: nat,
    finishes: map<nat, seq<Outcome>>)

  datatype Health = Healthy | Suspect | Unhealthy | Quarantined

  datatype Vitals = Vitals(health: Health, failures: nat)

  /** The child process and its restarts. `timerStarts` counts the starts a restart timer made. */
  datatype Processes = Processes(
    child: Option<nat>,
    starts: nat,
    timerStarts: nat,
    restartCount: nat,
    restartTimers: nat,
    stopping: bool)

  datatype State = State(
    book: Book, processes: Processes, vitals: Vitals, buffer: string, ipcRequests: nat, ipcFailures: nat)

  datatype Config = Config(maxQueued: nat, maxRestarts: nat)

  /** What the operating system says of a child process at one moment. */
  datatype ProcessView = ProcessView(hasPid: bool, exited: bool, killed: bool, writable: bool)

  /** What a caller of `request` is told before anything is queued. */
  datatype Admission = Accepted(id: nat) | QueueLimit | Unavailable

  /** A line of output as `JSON.parse` and the field tests see it. */
  datatype Reply =
    | NotJson
    | Null
    | NoStringId
    | Reply(id: Option<nat>, ok: bool, value: string)

  const INITIAL := State(
    Book(map[], {}, {}, 0, map[]), Processes(None, 0, 0, 0, 0, false), Vitals(Healthy, 0), "", 0, 0)

  // ----- The pending requests -----

  /** A new request gets the next number and a promise nobody has settled. */
  function Issue(b: Book): Book {
    b.(nextId := b.nextId + 1, finishes := b.finishes[b.nextId := []])
  }

  function Finish(b: Book, id: nat, o: Outcome): Book {
    if id in b.finishes then b.(finishes := b.finishes[id := b.finishes[id] + [o]]) else b
  }

  function Queue(b: Book, id: nat, e: Entry): Book {
    b.(pending := b.pending[id := e],
       timers := b.timers + {id},
       listeners := if e.hasSignal then b.listeners + {id} else b.listeners)
  }

  /** `discardPending`: forget a request without settling its caller. */
  function Discard(b: Book, id: nat): Book {
    if id in b.pending
    then b.(pending := b.pending - {id}, timers := b.timers - {id}, listeners := b.listeners - {id})
    else b
  }

  function Settle(b: Book, id: nat, o: Outcome): Book {
    Finish(Discard(b, id), id, o)
  }

  /** The loops that reject everything pending. */
  function RejectAll(b: Book, code: Code): Book {
    b.(pending := map[],
       timers := b.timers - b.pending.Keys,
       listeners := b.listeners - b.pending.Keys,
       finishes := map id | id in b.finishes ::
         if id in b.pending then b.finishes[id] + [Rejected(code)] else b.finishes[id])
  }

  // ----- The child process -----

  predicate Alive(p: Processes, os: nat -> ProcessView) {
    p.child.Some? && !os(p.child.value).exited && !os(p.child.value).killed
  }

  function ScheduleRestart(cfg: Config, p: Processes): Processes {
    if p.stopping || p.restartCount >= cfg.maxRestarts then p
    else p.(restartCount := p.restartCount + 1, restartTimers := p.restartTimers + 1)
  }

  function Forget(p: Processes, process: nat): Processes {
    if p.child == Some(process) then p.(child := None) else p
  }

  function Spawn(s: State): State {
    if s.processes.stopping then s
    else s.(
      processes := s.processes.(child := Some(s.processes.starts), starts := s.processes.starts + 1),
      vitals := Vitals(Healthy, 0),
      buffer := "")
  }

  function Start(s: State, os: nat -> ProcessView): State {
    if Alive(s.processes, os) && os(s.processes.child.value).hasPid then s else Spawn(s)
  }

  predicate IsHealthy(s: State, os: nat -> ProcessView) {
    s.vitals.health != Quarantined && s.vitals.health != Unhealthy && Alive(s.processes, os)
  }

  // ----- The events -----

  /** Whether `request` queues the request, and if not, why. */
  function Admit(cfg: Config, s: State, os: nat -> ProcessView): Admission {
    if |s.book.pending| >= cfg.maxQueued then QueueLimit
    else
      var t := Start(s, os);
      if IsHealthy(t, os) && os(t.processes.child.value).writable
      then Accepted(t.book.nextId)
      else Unavailable
  }

  function Request(cfg: Config, s: State, os: nat -> ProcessView, signal: Signal, writeFails: bool): State {
    match Admit(cfg, s, os)
    case QueueLimit => s.(ipcFailures := s.ipcFailures + 1)
    case Unavailable => var t := Start(s, os); t.(ipcFailures := t.ipcFailures + 1)
    case Accepted(id) =>
      var t := Start(s, os);
      var b := Issue(t.book);
      if signal.AbortedSignal? then t.(book := Finish(b, id, Rejected(Aborted)))
      else
        var queued := Queue(b, id, Entry(signal.LiveSignal?, t.processes.child.value));
        if writeFails
        then t.(book := Settle(queued, id, Rejected(WriteFailed)), ipcFailures := t.ipcFailures + 1)
        else t.(book := queued, ipcRequests := t.ipcRequests + 1)
  }

  /** The timer of a request fires: `handleDaemonFailure`. */
  function Timeout(cfg: Config, s: State, id: nat): State {
    var b := s.book.(timers := s.book.timers - {id});
    var failures := s.vitals.failures + 1;
    if failures >= 2 then
      s.(book := RejectAll(b, Wedged),
         vitals := Vitals(Quarantined, failures),
         processes := ScheduleRestart(cfg, s.processes.(child := None)),
         ipcFailures := s.ipcFailures + 1 + |b.pending|)
    else if id in b.pending then
      s.(book := Settle(b, id, Rejected(TimedOut)),
         vitals := Vitals(Suspect, failures),
         ipcFailures := s.ipcFailures + 1)
    else
      s.(book := b, vitals := s.vitals.(failures := failures), ipcFailures := s.ipcFailures + 1)
  }

  /** The abort signal of a request fires. */
  function Abort(s: State, id: nat): State {
    var b := s.book.(listeners := s.book.listeners - {id});
    s.(book := Settle(b, id, Rejected(Aborted)), ipcFailures := s.ipcFailures + 1)
  }

  function HandleReply(s: State, r: Reply): State {
    if !r.Reply? || r.id.None? || r.id.value !in s.book.pending then s
    else if r.ok
    then s.(book := Settle(s.book, r.id.value, Resolved(r.value)), vitals := Vitals(Healthy, 0))
    else s.(book := Settle(s.book, r.id.value, Rejected(BadResponse)), ipcFailures := s.ipcFailures + 1)
  }

  function IndexOfNewline(s: string): (n: nat)
    ensures n <= |s|
    ensures '\n' !in s[..n]
    ensures n < |s| ==> s[n] == '\n'
  {
    if s == [] || s[0] == '\n' then 0
    else
      var n := 1 + IndexOfNewline(s[1..]);
      assert s[..n] == [s[0]] + s[1..][..n - 1];
      n
  }

  /** The loop of `onData`. Reading a field of the JSON value `null` throws, which ends it early. */
  function Consume(s: State, decode: string -> Reply): State
    decreases |s.buffer|
  {
    var n := IndexOfNewline(s.buffer);
    if n == |s.buffer| then s
    else
      var line := Trim(s.buffer[..n]);
      var t := s.(buffer := s.buffer[n + 1..]);
      if line == "" then Consume(t, decode)
      else if decode(line).Null? then t
      else Consume(HandleReply(t, decode(line)), decode)
  }

  /** Handle lines in order, up to the first that throws. */
  function HandleLines(s: State, lines: seq<string>, decode: string -> Reply): State
    decreases lines
  {
    if lines == [] || decode(lines[0]).Null? then s
    else HandleLines(HandleReply(s, decode(lines[0])), lines[1..], decode)
  }

  function Data(s: State, chunk: string, decode: string -> Reply): State {
    Consume(s.(buffer := s.buffer + chunk), decode)
  }

  function Exit(cfg: Config, s: State, process: nat): State {
    s.(book := RejectAll(s.book, ProcessExited),
       processes := ScheduleRestart(cfg, Forget(s.processes, process)),
       ipcFailures := s.ipcFailures + |s.book.pending|)
  }

  function SpawnError(cfg: Config, s: State, process: nat): State {
    s.(book := RejectAll(s.book, SpawnFailed),
       processes := ScheduleRestart(cfg, Forget(s.processes, process)),
       ipcFailures := s.ipcFailures + |s.book.pending|)
  }

  function RestartTimer(s: State, os: nat -> ProcessView): State
    requires s.processes.restartTimers > 0
  {
    var p := s.processes.(restartTimers := s.processes.restartTimers - 1);
    if p.stopping || IsHealthy(s, os) then s.(processes := p)
    else Spawn(s.(processes := p.(timerStarts := p.timerStarts + 1)))
  }

  function Stop(s: State): State {
    s.(book := if s.processes.child.Some? then RejectAll(s.book, Stopped) else s.book,
       processes := s.processes.(stopping := true, child := None))
  }

  // ----- Runs -----

  datatype Event =
    | StartCall(os: nat -> ProcessView)
    | RequestCall(os: nat -> ProcessView, signal: Signal, writeFails: bool)
    | TimerFires(id: nat)
    | SignalFires(id: nat)
    | Chunk(process: nat, text: string, decode: string -> Reply)
    | ChildExits(process: nat)
    | ChildErrors(process: nat)
    | RestartFires(os: nat -> ProcessView)
    | StopCall

  /** One event. A timer or listener that is not armed cannot fire, so it changes nothing. The handler of output
      does not look at which process it comes from. */
  function Step(cfg: Config, s: State, e: Event): State {
    match e
    case StartCall(os) => Start(s, os)
    case RequestCall(os, signal, writeFails) => Request(cfg, s, os, signal, writeFails)
    case TimerFires(id) => if id in s.book.timers then Timeout(cfg, s, id) else s
    case SignalFires(id) => if id in s.book.listeners then Abort(s, id) else s
    case Chunk(_, text, decode) => Data(s, text, decode)
    case ChildExits(process) => Exit(cfg, s, process)
    case ChildErrors(process) => SpawnError(cfg, s, process)
    case RestartFires(os) => if s.processes.restartTimers > 0 then RestartTimer(s, os) else s
    case StopCall => Stop(s)
  }

  function Run(cfg: Config, s: State, events: seq<Event>): State
    decreases events
  {
    if events == [] then s else Run(cfg, Step(cfg, s, events[0]), events[1..])
  }
}
