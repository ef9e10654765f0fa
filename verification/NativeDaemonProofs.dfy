/** What every run of the resident FDX process manager keeps. */
module NativeDaemonProofs {
  import opened Options
  import opened LineFraming
  import opened NativeDaemonModel

  /** Every request issued so far is either pending, with no attempt to settle it and its
      timer armed, or gone with exactly one attempt and no timer: the `settled` guard of
      `request` never has to act. */
  ghost predicate BookInv(b: Book) {
    && (forall id: nat :: id in b.finishes <==> id < b.nextId)
    && (forall id <- b.pending :: id in b.finishes)
    && (forall id <- b.finishes :: |b.finishes[id]| == if id in b.pending then 0 else 1)
    && b.timers == b.pending.Keys
    && (forall id <- b.pending :: b.pending[id].hasSignal <==> id in b.listeners)
    && b.listeners <= b.pending.Keys
  }

  ghost predicate VitalsInv(v: Vitals) {
    || v == Vitals(Healthy, 0)
    || v == Vitals(Suspect, 1)
    || v == Vitals(Quarantined, 2)
  }

  ghost predicate ProcessesInv(cfg: Config, p: Processes) {
    && (p.child.Some? ==> p.child.value + 1 == p.starts)
    && (p.stopping ==> p.child.None?)
    && p.restartCount <= cfg.maxRestarts
    && p.timerStarts + p.restartTimers <= p.restartCount
    && p.timerStarts <= p.starts
  }

  ghost predicate Inv(cfg: Config, s: State) {
    && BookInv(s.book)
    && VitalsInv(s.vitals)
    && ProcessesInv(cfg, s.processes)
    && |s.book.pending| <= cfg.maxQueued
    && (s.processes.child.None? ==> s.book.pending == map[])
    && (s.vitals.health == Quarantined ==> s.processes.child.None?)
  }

  // ----- Pending requests -----

  lemma IssueInv(b: Book, o: Outcome)
    requires BookInv(b)
    ensures BookInv(Finish(Issue(b), b.nextId, o))
  {
  }

  lemma QueueInv(b: Book, e: Entry)
    requires BookInv(b)
    ensures BookInv(Queue(Issue(b), b.nextId, e))
    ensures |Queue(Issue(b), b.nextId, e).pending| == |b.pending| + 1
  {
    var id := b.nextId;
    assert id !in b.pending;
    assert Queue(Issue(b), id, e).pending.Keys == b.pending.Keys + {id};
  }

  lemma SettleInv(b: Book, id: nat, o: Outcome)
    requires BookInv(b) && id in b.pending
    ensures BookInv(Settle(b, id, o))
    ensures |Settle(b, id, o).pending| == |b.pending| - 1
    ensures Settle(b.(timers := b.timers - {id}), id, o) == Settle(b, id, o)
    ensures Settle(b.(listeners := b.listeners - {id}), id, o) == Settle(b, id, o)
  {
    assert Settle(b, id, o).pending.Keys == b.pending.Keys - {id};
    assert b.timers - {id} - {id} == b.timers - {id};
    assert b.listeners - {id} - {id} == b.listeners - {id};
  }

  lemma RejectAllInv(b: Book, id: nat, code: Code)
    requires BookInv(b)
    ensures BookInv(RejectAll(b, code))
    ensures id in b.pending ==> RejectAll(b.(timers := b.timers - {id}), code) == RejectAll(b, code)
  {
    assert id in b.pending ==> b.timers - {id} - b.pending.Keys == b.timers - b.pending.Keys;
  }

  // ----- Output -----

  /** The lines after the first that throws. */
  function Unhandled(lines: seq<string>, decode: string -> Reply): seq<string> {
    if lines == [] then []
    else if decode(lines[0]).Null? then lines[1..]
    else Unhandled(lines[1..], decode)
  }

  ghost predicate NoneThrows(lines: seq<string>, decode: string -> Reply) {
    forall line <- lines :: !decode(line).Null?
  }

  lemma {:induction false} HandleLinesBuffer(s: State, lines: seq<string>, decode: string -> Reply, b: string)
    ensures HandleLines(s.(buffer := b), lines, decode) == HandleLines(s, lines, decode).(buffer := b)
    decreases lines
  {
    if lines != [] && !decode(lines[0]).Null? {
      assert HandleReply(s.(buffer := b), decode(lines[0])) == HandleReply(s, decode(lines[0])).(buffer := b);
      HandleLinesBuffer(HandleReply(s, decode(lines[0])), lines[1..], decode, b);
    }
  }

  /** `t` is `s` with its buffered lines handled up to the first that throws, and
      what is not handled still buffered. */
  ghost predicate Consumed(s: State, lines: seq<string>, rest: string, decode: string -> Reply, t: State) {
    && t == HandleLines(s, lines, decode).(buffer := t.buffer)
    && Lines(t.buffer) == Unhandled(lines, decode)
    && Rest(t.buffer) == rest
    && (NoneThrows(lines, decode) ==> t.buffer == rest)
  }

  lemma ConsumedNext(
      s: State, b: string, line: string, lines: seq<string>, rest: string, decode: string -> Reply, t: State)
    requires !decode(line).Null?
    requires Consumed(HandleReply(s.(buffer := b), decode(line)), lines, rest, decode, t)
    ensures Consumed(s, [line] + lines, rest, decode, t)
  {
    HandleLinesBuffer(HandleReply(s, decode(line)), lines, decode, b);
    assert ([line] + lines)[1..] == lines;
    assert HandleReply(s.(buffer := b), decode(line)) == HandleReply(s, decode(line)).(buffer := b);
    assert forall l <- lines :: l in [line] + lines;
  }

  lemma ConsumedBuffer(s: State, b: string, lines: seq<string>, rest: string, decode: string -> Reply, t: State)
    requires Consumed(s.(buffer := b), lines, rest, decode, t)
    ensures Consumed(s, lines, rest, decode, t)
  {
    HandleLinesBuffer(s, lines, decode, b);
  }

  lemma ConsumedEnd(s: State, decode: string -> Reply)
    requires '\n' !in s.buffer
    ensures Consumed(s, Lines(s.buffer), Rest(s.buffer), decode, s)
  {
    FrameEnd(s.buffer);
  }

  lemma ConsumedThrow(s: State, b: string, line: string, decode: string -> Reply)
    requires decode(line).Null?
    ensures Consumed(s, [line] + Lines(b), Rest(b), decode, s.(buffer := b))
  {
    assert line in [line] + Lines(b);
  }

  lemma ReplyKeepsBuffer(s: State, r: Reply)
    ensures HandleReply(s, r).buffer == s.buffer
  {
  }

  /** The loop of `onData` handles the trimmed non-blank lines of the buffer, in order and up to
      the first that throws, and leaves what it has not handled. */
  lemma {:induction false} ConsumeHandlesLines(s: State, decode: string -> Reply)
    ensures Consumed(s, Lines(s.buffer), Rest(s.buffer), decode, Consume(s, decode))
    decreases |s.buffer|
  {
    hide Trim, Rest, Lines, Consumed, HandleReply;
    var n := IndexOfNewline(s.buffer);
    if n == |s.buffer| {
      assert s.buffer[..n] == s.buffer;
      ConsumedEnd(s, decode);
    } else {
      var line, b := Trim(s.buffer[..n]), s.buffer[n + 1..];
      var t := s.(buffer := b);
      assert Lines(s.buffer) == (if line == "" then [] else [line]) + Lines(b) && Rest(s.buffer) == Rest(b) by {
        FrameStep(s.buffer, n);
      }
      if line == "" {
        assert Lines(s.buffer) == Lines(b);
        ConsumeHandlesLines(t, decode);
        ConsumedBuffer(s, b, Lines(b), Rest(b), decode, Consume(t, decode));
      } else if decode(line).Null? {
        ConsumedThrow(s, b, line, decode);
      } else {
        var u := HandleReply(t, decode(line));
        ReplyKeepsBuffer(t, decode(line));
        ConsumeHandlesLines(u, decode);
        ConsumedNext(s, b, line, Lines(b), Rest(b), decode, Consume(u, decode));
      }
    }
  }

  // ----- Every event -----

  /** The invariant does not look at the counters, and at the buffer. */
  lemma WithBook(cfg: Config, s: State, t: State)
    requires Inv(cfg, s) && t.processes == s.processes && t.vitals == s.vitals
    requires BookInv(t.book) && |t.book.pending| <= cfg.maxQueued
    requires s.processes.child.None? ==> t.book.pending == map[]
    ensures Inv(cfg, t)
  {
    hide BookInv, VitalsInv, ProcessesInv;
  }

  lemma InvGives(cfg: Config, s: State)
    requires Inv(cfg, s)
    ensures BookInv(s.book) && |s.book.pending| <= cfg.maxQueued
    ensures s.processes.child.None? ==> s.book.pending == map[]
  {
    hide BookInv, VitalsInv, ProcessesInv;
  }

  lemma RequestInv(cfg: Config, s: State, os: nat -> ProcessView, signal: Signal, writeFails: bool)
    requires Inv(cfg, s)
    ensures Inv(cfg, Request(cfg, s, os, signal, writeFails))
  {
    StartInv(cfg, s, os);
    var t := Start(s, os);
    assert t.book == s.book;
    hide Start, Inv, BookInv;
    InvGives(cfg, s);
    InvGives(cfg, t);
    var u := Request(cfg, s, os, signal, writeFails);
    if Admit(cfg, s, os).Accepted? {
      AcceptedInv(cfg, t, os, signal, writeFails);
      WithBook(cfg, t, u);
    } else if Admit(cfg, s, os).QueueLimit? {
      WithBook(cfg, s, u);
    } else {
      WithBook(cfg, t, u);
    }
  }

  /** What an accepted request makes of the book. */
  lemma AcceptedInv(cfg: Config, t: State, os: nat -> ProcessView, signal: Signal, writeFails: bool)
    requires BookInv(t.book) && |t.book.pending| < cfg.maxQueued && t.processes.child.Some?
    ensures var id := t.book.nextId;
            var i, e := Issue(t.book), Entry(signal.LiveSignal?, t.processes.child.value);
            && (var b := Finish(i, id, Rejected(Aborted)); BookInv(b) && b.pending == t.book.pending)
            && (var b := Queue(i, id, e); BookInv(b) && |b.pending| <= cfg.maxQueued)
            && (var b := Settle(Queue(i, id, e), id, Rejected(WriteFailed)); BookInv(b) && |b.pending| <= cfg.maxQueued)
  {
    var id := t.book.nextId;
    var i, e := Issue(t.book), Entry(signal.LiveSignal?, t.processes.child.value);
    IssueInv(t.book, Rejected(Aborted));
    QueueInv(t.book, e);
    assert id in Queue(i, id, e).pending;
    assert Finish(i, id, Rejected(Aborted)).pending == t.book.pending;
    hide BookInv, Settle, Finish;
    SettleInv(Queue(i, id, e), id, Rejected(WriteFailed));
  }

  lemma StartInv(cfg: Config, s: State, os: nat -> ProcessView)
    requires Inv(cfg, s)
    ensures Inv(cfg, Start(s, os))
  {
  }

  /** A second consecutive timeout quarantines the process. */
  lemma WedgedInv(cfg: Config, s: State, id: nat)
    requires Inv(cfg, s) && id in s.book.timers && s.vitals.failures == 1
    ensures Inv(cfg, Timeout(cfg, s, id))
  {
    RejectAllInv(s.book, id, Wedged);
    assert Timeout(cfg, s, id).book == RejectAll(s.book, Wedged);
  }

  /** A first timeout makes it suspect. */
  lemma SuspectInv(cfg: Config, s: State, id: nat)
    requires Inv(cfg, s) && id in s.book.timers && s.vitals.failures == 0
    ensures Inv(cfg, Timeout(cfg, s, id))
  {
    SettleInv(s.book, id, Rejected(TimedOut));
    assert Timeout(cfg, s, id).book == Settle(s.book, id, Rejected(TimedOut));
  }

  lemma TimeoutInv(cfg: Config, s: State, id: nat)
    requires Inv(cfg, s) && id in s.book.timers
    ensures Inv(cfg, Timeout(cfg, s, id))
  {
    if s.vitals.failures == 0 {
      SuspectInv(cfg, s, id);
    } else {
      assert s.vitals.failures == 1;
      WedgedInv(cfg, s, id);
    }
  }

  lemma AbortInv(cfg: Config, s: State, id: nat)
    requires Inv(cfg, s) && id in s.book.listeners
    ensures Inv(cfg, Abort(s, id))
  {
    SettleInv(s.book, id, Rejected(Aborted));
  }

  lemma ExitInv(cfg: Config, s: State, process: nat)
    requires Inv(cfg, s)
    ensures Inv(cfg, Exit(cfg, s, process))
    ensures Inv(cfg, SpawnError(cfg, s, process))
  {
    RejectAllInv(s.book, 0, ProcessExited);
    RejectAllInv(s.book, 0, SpawnFailed);
  }

  lemma RestartInv(cfg: Config, s: State, os: nat -> ProcessView)
    requires Inv(cfg, s) && s.processes.restartTimers > 0
    ensures Inv(cfg, RestartTimer(s, os))
  {
  }

  lemma StopInv(cfg: Config, s: State)
    requires Inv(cfg, s)
    ensures Inv(cfg, Stop(s))
  {
    RejectAllInv(s.book, 0, Stopped);
  }

  lemma ReplyInv(cfg: Config, s: State, r: Reply)
    requires Inv(cfg, s)
    ensures Inv(cfg, HandleReply(s, r))
  {
    if r.Reply? && r.id.Some? && r.id.value in s.book.pending {
      SettleInv(s.book, r.id.value, if r.ok then Resolved(r.value) else Rejected(BadResponse));
    }
  }

  lemma {:induction false} LinesInv(cfg: Config, s: State, lines: seq<string>, decode: string -> Reply)
    requires Inv(cfg, s)
    ensures Inv(cfg, HandleLines(s, lines, decode))
    decreases lines
  {
    if lines != [] && !decode(lines[0]).Null? {
      ReplyInv(cfg, s, decode(lines[0]));
      LinesInv(cfg, HandleReply(s, decode(lines[0])), lines[1..], decode);
    }
  }

  lemma DataInv(cfg: Config, s: State, chunk: string, decode: string -> Reply)
    requires Inv(cfg, s)
    ensures Inv(cfg, Data(s, chunk, decode))
  {
    var t := s.(buffer := s.buffer + chunk);
    ConsumeHandlesLines(t, decode);
    LinesInv(cfg, t, Lines(t.buffer), decode);
  }

  /** Every event keeps the invariant. */
  lemma StepInv(cfg: Config, s: State, e: Event)
    requires Inv(cfg, s)
    ensures Inv(cfg, Step(cfg, s, e))
  {
    InvGives(cfg, s);
    hide Inv, BookInv, Start, Request, Timeout, Abort, Data, Exit, SpawnError, RestartTimer, Stop;
    match e
    case StartCall(os) => StartInv(cfg, s, os);
    case RequestCall(os, signal, writeFails) => RequestInv(cfg, s, os, signal, writeFails);
    case TimerFires(id) => if id in s.book.timers { TimeoutInv(cfg, s, id); }
    case SignalFires(id) => if id in s.book.listeners { AbortInv(cfg, s, id); }
    case Chunk(_, text, decode) => DataInv(cfg, s, text, decode);
    case ChildExits(process) => ExitInv(cfg, s, process);
    case ChildErrors(process) => ExitInv(cfg, s, process);
    case RestartFires(os) => if s.processes.restartTimers > 0 { RestartInv(cfg, s, os); }
    case StopCall => StopInv(cfg, s);
  }

  lemma InitialInv(cfg: Config)
    ensures Inv(cfg, INITIAL)
  {
    assert INITIAL.book.pending.Keys == {};
  }

  /** Every reachable state satisfies the invariant. */
  lemma {:induction false} RunInv(cfg: Config, s: State, events: seq<Event>)
    requires Inv(cfg, s)
    ensures Inv(cfg, Run(cfg, s, events))
    decreases events
  {
    if events != [] {
      StepInv(cfg, s, events[0]);
      RunInv(cfg, Step(cfg, s, events[0]), events[1..]);
    }
  }
}
