/** The guarantees of the resident FDX process manager over whole runs. */
module NativeDaemonTheorems {
  import opened Options
  import opened LineFraming
  import opened NativeDaemonModel
  import opened NativeDaemonProofs

  /** After any events, every request ever issued is pending or has been settled exactly once;
      a timer is armed for exactly the pending ones; without a child nothing is pending; health
      follows the failure count; and the queue and the automatic restarts are bounded. */
  lemma EveryRun(cfg: Config, events: seq<Event>)
    ensures var s := Run(cfg, INITIAL, events);
            && (forall id: nat :: id < s.book.nextId <==> id in s.book.finishes)
            && (forall id <- s.book.finishes :: |s.book.finishes[id]| <= 1)
            && (forall id <- s.book.finishes :: s.book.finishes[id] == [] <==> id in s.book.pending)
            && s.book.timers == s.book.pending.Keys
            && (s.processes.child.None? ==> s.book.pending == map[])
            && (s.vitals.health == Healthy <==> s.vitals.failures == 0)
            && (s.vitals.health == Suspect <==> s.vitals.failures == 1)
            && (s.vitals.health == Quarantined <==> s.vitals.failures == 2)
            && (s.vitals.health == Quarantined ==> s.processes.child.None?)
            && |s.book.pending| <= cfg.maxQueued
            && s.processes.timerStarts <= s.processes.restartCount <= cfg.maxRestarts
  {
    InitialInv(cfg);
    RunInv(cfg, INITIAL, events);
  }

  // ----- Settlements are final -----

  /** The settlement attempts of one book are kept, in order, by a later one. */
  ghost predicate Keeps(b: Book, b': Book) {
    forall id <- b.finishes :: id in b'.finishes && b.finishes[id] <= b'.finishes[id]
  }

  lemma {:induction false} LinesKeep(s: State, lines: seq<string>, decode: string -> Reply)
    ensures Keeps(s.book, HandleLines(s, lines, decode).book)
    ensures HandleLines(s, lines, decode).processes == s.processes
    ensures s.book.pending == map[] ==> HandleLines(s, lines, decode) == s
    decreases lines
  {
    if lines != [] && !decode(lines[0]).Null? {
      LinesKeep(HandleReply(s, decode(lines[0])), lines[1..], decode);
    }
  }

  lemma DataKeeps(s: State, chunk: string, decode: string -> Reply)
    ensures var t := Data(s, chunk, decode);
            && Keeps(s.book, t.book)
            && t.processes == s.processes
            && (s.book.pending == map[] ==> t == s.(buffer := t.buffer))
  {
    var u := s.(buffer := s.buffer + chunk);
    ConsumeHandlesLines(u, decode);
    LinesKeep(u, Lines(u.buffer), decode);
  }

  lemma RequestKeeps(cfg: Config, s: State, os: nat -> ProcessView, signal: Signal, writeFails: bool)
    requires Inv(cfg, s)
    ensures Keeps(s.book, Request(cfg, s, os, signal, writeFails).book)
  {
  }

  lemma StepKeeps(cfg: Config, s: State, e: Event)
    requires Inv(cfg, s)
    ensures Keeps(s.book, Step(cfg, s, e).book)
  {
    match e
    case RequestCall(os, signal, writeFails) => RequestKeeps(cfg, s, os, signal, writeFails);
    case Chunk(_, text, decode) => DataKeeps(s, text, decode);
    case _ =>
  }

  /** A settled caller stays settled as it was, whatever happens afterwards. */
  lemma {:induction false} SettledForGood(cfg: Config, s: State, events: seq<Event>, id: nat)
    requires Inv(cfg, s) && id in s.book.finishes && id !in s.book.pending
    ensures var t := Run(cfg, s, events);
            id in t.book.finishes && t.book.finishes[id] == s.book.finishes[id] && id !in t.book.pending
    decreases events
  {
    if events != [] {
      var t := Step(cfg, s, events[0]);
      StepInv(cfg, s, events[0]);
      StepKeeps(cfg, s, events[0]);
      assert |s.book.finishes[id]| == 1 <= |t.book.finishes[id]|;
      SettledForGood(cfg, t, events[1..], id);
    }
  }

  /** A request that leaves the queue is settled in that very step. */
  lemma LeavesSettled(cfg: Config, s: State, e: Event, id: nat)
    requires Inv(cfg, s) && id in s.book.pending && id !in Step(cfg, s, e).book.pending
    ensures s.book.finishes[id] == []
    ensures id in Step(cfg, s, e).book.finishes && |Step(cfg, s, e).book.finishes[id]| == 1
  {
    StepInv(cfg, s, e);
    StepKeeps(cfg, s, e);
  }

  /** No caller can wait for ever: the timer of a pending request is armed, and it settles the request. */
  lemma TimerSettles(cfg: Config, s: State, id: nat)
    requires Inv(cfg, s) && id in s.book.pending
    ensures id in s.book.timers
    ensures var t := Step(cfg, s, TimerFires(id));
            && id !in t.book.pending
            && t.book.finishes[id] == [Rejected(if s.vitals.failures == 0 then TimedOut else Wedged)]
  {
  }

  // ----- Stop and restarts -----

  ghost predicate Stopped(s: State) {
    s.processes.stopping && s.processes.child.None? && s.book.pending == map[]
  }

  lemma StaysStopped(cfg: Config, s: State, e: Event)
    requires Inv(cfg, s) && Stopped(s)
    ensures var t := Step(cfg, s, e);
            Stopped(t) && t.processes.starts == s.processes.starts && t.book.nextId == s.book.nextId
  {
    hide Inv, Data, Settle, ScheduleRestart, RejectAll, Queue, Issue;
    NothingToReject(s.book);
    StoppedSchedulesNone(cfg, s.processes);
    match e
    case Chunk(_, text, decode) => DataKeeps(s, text, decode);
    case TimerFires(id) =>
      var b := s.book.(timers := s.book.timers - {id});
      NothingToReject(b);
      StoppedSchedulesNone(cfg, s.processes.(child := None));
    case SignalFires(id) => SettlesNothing(s.book.(listeners := s.book.listeners - {id}), id, Rejected(Aborted));
    case _ =>
  }

  lemma NothingToReject(b: Book)
    requires b.pending == map[]
    ensures forall code :: RejectAll(b, code).pending == map[] && RejectAll(b, code).nextId == b.nextId
  {
  }

  lemma SettlesNothing(b: Book, id: nat, o: Outcome)
    requires b.pending == map[]
    ensures Settle(b, id, o).pending == map[] && Settle(b, id, o).nextId == b.nextId
  {
  }

  lemma StoppedSchedulesNone(cfg: Config, p: Processes)
    requires p.stopping
    ensures ScheduleRestart(cfg, p) == p
  {
  }

  /** After `stop` nothing is ever pending and no process is ever started. */
  lemma {:induction false} StoppedForGood(cfg: Config, s: State, events: seq<Event>)
    requires Inv(cfg, s) && s.processes.stopping
    ensures var t := Run(cfg, s, events);
            t.processes.stopping && t.processes.child.None? && t.book.pending == map[]
            && t.processes.starts == s.processes.starts && t.book.nextId == s.book.nextId
    decreases events
  {
    assert Stopped(s);
    if events != [] {
      hide Inv, Step;
      StepInv(cfg, s, events[0]);
      StaysStopped(cfg, s, events[0]);
      StoppedForGood(cfg, Step(cfg, s, events[0]), events[1..]);
    }
  }

  /** A `start`, or a `request` there is room for, finds no live child with a PID. */
  predicate Demanded(cfg: Config, s: State, e: Event) {
    match e
    case StartCall(os) => !(Alive(s.processes, os) && os(s.processes.child.value).hasPid)
    case RequestCall(os, _, _) =>
      |s.book.pending| < cfg.maxQueued && !(Alive(s.processes, os) && os(s.processes.child.value).hasPid)
    case _ => false
  }

  /** A restart timer finds an unhealthy child. */
  predicate Restarted(s: State, e: Event) {
    e.RestartFires? && s.processes.restartTimers > 0 && !IsHealthy(s, e.os)
  }

  /** How many events of a run meet a condition before `stop`. */
  ghost function CountBeforeStop(cfg: Config, condition: (State, Event) -> bool, s: State, events: seq<Event>): nat
    decreases |events|
  {
    if events == [] then 0
    else
      (if !s.processes.stopping && condition(s, events[0]) then 1 else 0)
      + CountBeforeStop(cfg, condition, Step(cfg, s, events[0]), events[1..])
  }

  /** A step starts one process if it is demanded or a restart before `stop`, and otherwise none. */
  lemma StepStarts(cfg: Config, s: State, e: Event)
    ensures var p, q := s.processes, Step(cfg, s, e).processes;
            && q.starts == p.starts + (if !p.stopping && (Demanded(cfg, s, e) || Restarted(s, e)) then 1 else 0)
            && q.timerStarts == p.timerStarts + (if !p.stopping && Restarted(s, e) then 1 else 0)
  {
    if e.Chunk? {
      DataKeeps(s, e.text, e.decode);
    }
  }

  /** Over every run, the process starts are exactly the demands that find no usable child, and the restarts by at
      most `maxRestarts` timers. */
  lemma StartsCounted(cfg: Config, s: State, events: seq<Event>)
    requires Inv(cfg, s)
    ensures var t := Run(cfg, s, events);
            var demanded := CountBeforeStop(cfg, (s, e) => Demanded(cfg, s, e), s, events);
            var restarted := CountBeforeStop(cfg, (s, e) => Restarted(s, e), s, events);
            && t.processes.starts == s.processes.starts + demanded + restarted
            && s.processes.timerStarts + restarted <= cfg.maxRestarts
  {
    TimerStartsCounted(cfg, s, events);
    RunInv(cfg, s, events);
    StartsSum(cfg, s, events);
  }

  lemma {:induction false} TimerStartsCounted(cfg: Config, s: State, events: seq<Event>)
    ensures Run(cfg, s, events).processes.timerStarts
         == s.processes.timerStarts + CountBeforeStop(cfg, (s, e) => Restarted(s, e), s, events)
    decreases events
  {
    hide Step;
    if events != [] {
      StepStarts(cfg, s, events[0]);
      TimerStartsCounted(cfg, Step(cfg, s, events[0]), events[1..]);
    }
  }

  lemma {:induction false} StartsSum(cfg: Config, s: State, events: seq<Event>)
    ensures Run(cfg, s, events).processes.starts
         == s.processes.starts + CountBeforeStop(cfg, (s, e) => Demanded(cfg, s, e), s, events)
            + CountBeforeStop(cfg, (s, e) => Restarted(s, e), s, events)
    decreases events
  {
    hide Step;
    if events != [] {
      StepStarts(cfg, s, events[0]);
      StartsSum(cfg, Step(cfg, s, events[0]), events[1..]);
    }
  }

  const UP := (p: nat) => ProcessView(true, false, false, true)

  /** Processes are started and exit, n times. */
  function Rounds(first: nat, n: nat): seq<Event>
    decreases n
  {
    if n == 0 then [] else [StartCall(UP), ChildExits(first)] + Rounds(first + 1, n - 1)
  }

  /** `maxRestarts` does not bound the starts: with no automatic restart at all, any number of processes can be
      started by calling `start` after each exit. */
  lemma {:induction false} StartsUnbounded(cfg: Config, s: State, n: nat)
    requires s.processes.child.None? && !s.processes.stopping
    ensures Run(cfg, s, Rounds(s.processes.starts, n)).processes.starts == s.processes.starts + n
    decreases n
  {
    if n > 0 {
      var first := s.processes.starts;
      var t := Step(cfg, Step(cfg, s, StartCall(UP)), ChildExits(first));
      hide Step;
      var events := Rounds(first, n);
      assert events[1..][1..] == Rounds(first + 1, n - 1);
      assert Run(cfg, s, events) == Run(cfg, t, Rounds(first + 1, n - 1));
      StartsUnbounded(cfg, t, n - 1);
    }
  }

  /** An exit rejects everything pending, so it spares the requests written to other
      processes exactly when there are none. */
  lemma ExitSparesOthersIff(cfg: Config, s: State, process: nat)
    ensures (forall id <- s.book.pending :: s.book.pending[id].process != process
                                            ==> id in Exit(cfg, s, process).book.pending)
        <==> (forall id <- s.book.pending :: s.book.pending[id].process == process)
  {
  }

  /** One request waits for a process. */
  ghost predicate Waits(s: State, id: nat, child: nat) {
    && s.book.pending == map[id := Entry(false, child)] && s.book.timers == {id}
    && id in s.book.finishes && s.book.finishes[id] == [] && s.book.nextId == id + 1
    && s.processes.child == Some(child) && s.processes.starts == child + 1 && !s.processes.stopping
  }

  ghost predicate Idle(s: State, id: nat, starts: nat) {
    && s.book.pending == map[] && s.book.timers == {} && s.book.nextId == id
    && s.processes.starts == starts && !s.processes.stopping
  }

  const ASK := RequestCall(UP, NoSignal, false)

  lemma AskWithoutChild(cfg: Config, s: State, id: nat, starts: nat)
    requires cfg.maxQueued >= 1 && Idle(s, id, starts) && s.processes.child.None?
    ensures Waits(Step(cfg, s, ASK), id, starts) && Step(cfg, s, ASK).vitals == Vitals(Healthy, 0)
  {
    hide Timeout, Abort, Data, Exit, SpawnError, RestartTimer, Stop, Settle, RejectAll, ScheduleRestart;
    var t := Start(s, UP);
    assert t == Spawn(s) && t.book == s.book && t.vitals == Vitals(Healthy, 0);
    hide Start, Spawn;
    assert IsHealthy(t, UP);
  }

  lemma AskOfChild(cfg: Config, s: State, id: nat, child: nat)
    requires cfg.maxQueued >= 1 && Idle(s, id, child + 1) && s.processes.child == Some(child)
    requires s.vitals.health.Suspect?
    ensures Waits(Step(cfg, s, ASK), id, child) && Step(cfg, s, ASK).vitals == s.vitals
  {
    hide Timeout, Abort, Data, Exit, SpawnError, RestartTimer, Stop, Settle, RejectAll, ScheduleRestart, Spawn;
    assert IsHealthy(s, UP) && Start(s, UP) == s;
  }

  lemma TimesOut(cfg: Config, s: State, id: nat, child: nat)
    requires Waits(s, id, child) && s.vitals.failures <= 1
    ensures var t := Step(cfg, s, TimerFires(id));
            && Idle(t, id + 1, child + 1)
            && (if s.vitals.failures == 0
                then t.processes.child == Some(child) && t.vitals == Vitals(Suspect, 1)
                else t.processes.child.None?)
  {
    hide Request, Abort, Data, Exit, SpawnError, RestartTimer, Start, Stop, ScheduleRestart;
    var p := s.processes.(child := None);
    SchedulesOnly(cfg, p);
  }

  lemma SchedulesOnly(cfg: Config, p: Processes)
    ensures var q := ScheduleRestart(cfg, p); q.child == p.child && q.starts == p.starts && q.stopping == p.stopping
  {
  }

  lemma ExitRejects(cfg: Config, s: State, id: nat, child: nat, process: nat)
    requires Waits(s, id, child) && process != child
    ensures var t := Step(cfg, s, ChildExits(process));
            && t.processes.child == Some(child)
            && id in t.book.finishes && t.book.finishes[id] == [Rejected(ProcessExited)]
  {
  }

  lemma RunFirst(cfg: Config, s: State, e: Event, events: seq<Event>)
    ensures Run(cfg, s, [e] + events) == Run(cfg, Step(cfg, s, e), events)
  {
    hide Step;
    assert ([e] + events)[1..] == events;
  }

  /** The late exit of a replaced process rejects a request of the new one: two requests time out, so that their
      process is killed and replaced for a third. */
  lemma LateExitRejectsNewRequest(cfg: Config)
    requires cfg.maxQueued >= 1
    ensures var s := Run(cfg, INITIAL, [ASK, TimerFires(0), ASK, TimerFires(1), ASK, ChildExits(0)]);
            s.processes.child == Some(1) && 2 in s.book.finishes && s.book.finishes[2] == [Rejected(ProcessExited)]
  {
    hide Step, Run, Waits;
    var s1 := Step(cfg, INITIAL, ASK);
    var s2 := Step(cfg, s1, TimerFires(0));
    var s3 := Step(cfg, s2, ASK);
    var s4 := Step(cfg, s3, TimerFires(1));
    var s5 := Step(cfg, s4, ASK);
    AskWithoutChild(cfg, INITIAL, 0, 0);
    TimesOut(cfg, s1, 0, 0);
    AskOfChild(cfg, s2, 1, 0);
    TimesOut(cfg, s3, 1, 0);
    AskWithoutChild(cfg, s4, 2, 1);
    ExitRejects(cfg, s5, 2, 1, 0);
    var e0 := [ChildExits(0)];
    var e1 := [ASK] + e0;
    var e2 := [TimerFires(1)] + e1;
    var e3 := [ASK] + e2;
    var e4 := [TimerFires(0)] + e3;
    RunFirst(cfg, INITIAL, ASK, e4);
    RunFirst(cfg, s1, TimerFires(0), e3);
    RunFirst(cfg, s2, ASK, e2);
    RunFirst(cfg, s3, TimerFires(1), e1);
    RunFirst(cfg, s4, ASK, e0);
    RunFirst(cfg, s5, ChildExits(0), []);
    RunNothing(cfg, Step(cfg, s5, ChildExits(0)));
    assert [ASK] + e4 == [ASK, TimerFires(0), ASK, TimerFires(1), ASK, ChildExits(0)];
    assert e0 == e0 + [];
  }

  lemma RunNothing(cfg: Config, s: State)
    ensures Run(cfg, s, []) == s
  {
  }
}
