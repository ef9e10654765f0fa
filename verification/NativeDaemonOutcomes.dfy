/** What every event does: which requests are queued and which refused, what settles a pending request and how, and when
    a process is replaced. */
module NativeDaemonOutcomes {
  import opened Options
  import opened LineFraming
  import opened NativeDaemonModel
  import opened NativeDaemonProofs

  // ----- Requests -----

  ghost predicate Usable(s: State, os: nat -> ProcessView) {
    && s.processes.child.Some?
    && !os(s.processes.child.value).exited && !os(s.processes.child.value).killed && os(s.processes.child.value).hasPid
  }

  /** A process started on demand, healthy again and with nothing read. */
  ghost function WithNewProcess(s: State): State {
    s.(processes := s.processes.(child := Some(s.processes.starts), starts := s.processes.starts + 1),
       vitals := Vitals(Healthy, 0),
       buffer := "")
  }

  ghost function Started(s: State, os: nat -> ProcessView): State {
    if Usable(s, os) || s.processes.stopping then s else WithNewProcess(s)
  }

  /** A start finds a usable process, or replaces it unless `stop` has been called. */
  lemma StartIff(cfg: Config, s: State, os: nat -> ProcessView)
    ensures Step(cfg, s, StartCall(os)) == Started(s, os)
  {
  }

  /** The process can be written to, and has not been given up. */
  ghost predicate Serves(s: State, os: nat -> ProcessView) {
    && s.processes.child.Some?
    && !os(s.processes.child.value).exited && !os(s.processes.child.value).killed
    && os(s.processes.child.value).writable
    && s.vitals.health in {Healthy, Suspect}
  }

  /** The book with one more request, settled at once. */
  ghost function WithSettled(b: Book, code: Code): Book {
    b.(nextId := b.nextId + 1, finishes := b.finishes[b.nextId := [Rejected(code)]])
  }

  /** The book with one more request, pending. */
  ghost function WithPending(b: Book, hasSignal: bool, process: nat): Book {
    var id := b.nextId;
    Book(
      b.pending[id := Entry(hasSignal, process)], b.timers + {id}, b.listeners + (if hasSignal then {id} else {}),
      id + 1, b.finishes[id := []])
  }

  /** There is no room for a request, or no process that serves after a start. */
  ghost predicate Refuses(cfg: Config, s: State, os: nat -> ProcessView) {
    |s.book.pending| == cfg.maxQueued || !Serves(Started(s, os), os)
  }

  /** A request that is refused is counted as a failure, and nothing else: the queue is looked at before anything is
      started. */
  lemma RefusedRequest(cfg: Config, s: State, os: nat -> ProcessView, signal: Signal, writeFails: bool)
    requires Inv(cfg, s) && Refuses(cfg, s, os)
    ensures var u := if |s.book.pending| == cfg.maxQueued then s else Started(s, os);
            Step(cfg, s, RequestCall(os, signal, writeFails)) == u.(ipcFailures := u.ipcFailures + 1)
  {
    AdmitIff(cfg, s, os);
    hide Inv, Start, Admit, Started, Serves;
    hide Timeout, Abort, Data, Exit, SpawnError, RestartTimer, Stop;
  }

  /** Any other is issued under the next number. It is settled at once if its signal has fired or the write fails, and
      otherwise pends, written to the process that serves, with its timer armed and its signal heard. */
  lemma AcceptedRequest(cfg: Config, s: State, os: nat -> ProcessView, signal: Signal, writeFails: bool)
    requires Inv(cfg, s) && !Refuses(cfg, s, os)
    ensures var t, u := Step(cfg, s, RequestCall(os, signal, writeFails)), Started(s, os);
            && (signal == AbortedSignal ==> t == u.(book := WithSettled(s.book, Aborted)))
            && (signal != AbortedSignal && writeFails ==>
                  t == u.(book := WithSettled(s.book, WriteFailed), ipcFailures := u.ipcFailures + 1))
            && (signal != AbortedSignal && !writeFails ==>
                  t == u.(
                    book := WithPending(s.book, signal == LiveSignal, u.processes.child.value),
                    ipcRequests := u.ipcRequests + 1))
  {
    AdmitIff(cfg, s, os);
    BookIsSound(cfg, s);
    var u := Started(s, os);
    IssueSettled(s.book, Aborted);
    IssueQueued(s.book, Entry(signal.LiveSignal?, u.processes.child.value));
    hide Inv, BookInv, Start, Issue, Queue, Finish, Settle, WithSettled, WithPending, Admit, Started, Serves;
    hide Timeout, Abort, Data, Exit, SpawnError, RestartTimer, Stop;
  }

  lemma BookIsSound(cfg: Config, s: State)
    requires Inv(cfg, s)
    ensures BookInv(s.book)
  {
  }

  lemma AdmitIff(cfg: Config, s: State, os: nat -> ProcessView)
    requires Inv(cfg, s)
    ensures Start(s, os) == Started(s, os)
    ensures Admit(cfg, s, os) ==
              if |s.book.pending| == cfg.maxQueued then QueueLimit
              else if Serves(Started(s, os), os) then Accepted(s.book.nextId)
              else Unavailable
    ensures Started(s, os).book == s.book
    ensures Serves(Started(s, os), os) ==> Started(s, os).processes.child.Some?
  {
    assert |s.book.pending| <= cfg.maxQueued && s.vitals.health != Unhealthy;
    hide Inv;
  }

  lemma IssueSettled(b: Book, code: Code)
    ensures Finish(Issue(b), b.nextId, Rejected(code)) == WithSettled(b, code)
  {
    assert [] + [Rejected(code)] == [Rejected(code)];
    assert b.finishes[b.nextId := []][b.nextId := [Rejected(code)]] == b.finishes[b.nextId := [Rejected(code)]];
  }

  lemma IssueQueued(b: Book, e: Entry)
    requires BookInv(b)
    ensures Queue(Issue(b), b.nextId, e) == WithPending(b, e.hasSignal, e.process)
    ensures Settle(Queue(Issue(b), b.nextId, e), b.nextId, Rejected(WriteFailed)) == WithSettled(b, WriteFailed)
  {
    var id := b.nextId;
    assert id !in b.finishes && id !in b.pending && id !in b.timers && id !in b.listeners;
    hide BookInv;
    assert b.listeners + {} == b.listeners;
    var q := Queue(Issue(b), id, e);
    assert q.pending - {id} == b.pending;
    assert q.timers - {id} == b.timers;
    assert q.listeners - {id} == b.listeners;
    assert Discard(q, id) == Issue(b);
    IssueSettled(b, WriteFailed);
  }

  // ----- Output -----

  ghost predicate Carries(reply: Reply, id: nat) {
    reply.Reply? && reply.id == Some(id)
  }

  /** The first line that carries the id, if the lines before it can be handled. */
  ghost predicate FirstAnswer(lines: seq<string>, decode: string -> Reply, id: nat, k: int) {
    && 0 <= k < |lines| && Carries(decode(lines[k]), id)
    && forall j :: 0 <= j < k ==> !decode(lines[j]).Null? && !Carries(decode(lines[j]), id)
  }

  ghost function Said(reply: Reply): Outcome
    requires reply.Reply?
  {
    if reply.ok then Resolved(reply.value) else Rejected(BadResponse)
  }

  lemma FirstAnswerCons(lines: seq<string>, decode: string -> Reply, id: nat, k: int)
    requires lines != []
    ensures FirstAnswer(lines, decode, id, k) <==>
              if k == 0 then decode(lines[0]).Reply? && decode(lines[0]).id == Some(id)
              else
                && !decode(lines[0]).Null? && !Carries(decode(lines[0]), id)
                && FirstAnswer(lines[1..], decode, id, k - 1)
  {
    var rest := lines[1..];
    assert forall j :: 0 <= j < |rest| ==> rest[j] == lines[j + 1];
    if k > 0 && FirstAnswer(lines, decode, id, k) {
      forall j | 0 <= j < k - 1
        ensures !decode(rest[j]).Null? && !Carries(decode(rest[j]), id)
      {
        assert rest[j] == lines[j + 1];
      }
    }
    if k > 0 && !decode(lines[0]).Null? && !Carries(decode(lines[0]), id)
       && FirstAnswer(rest, decode, id, k - 1) {
      forall j | 0 <= j < k
        ensures !decode(lines[j]).Null? && !Carries(decode(lines[j]), id)
      {
        assert j > 0 ==> lines[j] == rest[j - 1];
      }
    }
  }

  /** What one reply does. */
  lemma ReplyIff(s: State, r: Reply)
    ensures var t := HandleReply(s, r);
            if r.Reply? && r.id.Some? && r.id.value in s.book.pending
            then
              var id := r.id.value;
              && t.book.pending == s.book.pending - {id}
              && t.book.finishes ==
                   (if id in s.book.finishes then s.book.finishes[id := s.book.finishes[id] + [Said(r)]]
                    else s.book.finishes)
              && t.vitals == (if r.ok then Vitals(Healthy, 0) else s.vitals)
              && t.ipcFailures == s.ipcFailures + if r.ok then 0 else 1
            else t == s
  {
  }

  lemma {:induction false} LinesSettle(s: State, lines: seq<string>, decode: string -> Reply, id: nat, k: int)
    requires id in s.book.pending && id in s.book.finishes && FirstAnswer(lines, decode, id, k)
    ensures var t := HandleLines(s, lines, decode);
            && id !in t.book.pending && id in t.book.finishes
            && t.book.finishes[id] == s.book.finishes[id] + [Said(decode(lines[k]))]
    decreases lines
  {
    hide HandleReply;
    FirstAnswerCons(lines, decode, id, k);
    var r := decode(lines[0]);
    var u := HandleReply(s, r);
    ReplyIff(s, r);
    if k == 0 {
      LinesLeave(u, lines[1..], decode, id);
    } else {
      LinesSettle(u, lines[1..], decode, id, k - 1);
    }
  }

  lemma {:induction false} LinesLeave(s: State, lines: seq<string>, decode: string -> Reply, id: nat)
    requires id in s.book.finishes
    requires id in s.book.pending ==> forall k :: !FirstAnswer(lines, decode, id, k)
    ensures var t := HandleLines(s, lines, decode);
            && (id in t.book.pending <==> id in s.book.pending)
            && id in t.book.finishes && t.book.finishes[id] == s.book.finishes[id]
    decreases lines
  {
    hide HandleReply;
    if lines != [] && !decode(lines[0]).Null? {
      var r := decode(lines[0]);
      ReplyIff(s, r);
      if id in s.book.pending {
        FirstAnswerCons(lines, decode, id, 0);
        forall k
          ensures !FirstAnswer(lines[1..], decode, id, k)
        {
          if k >= 0 {
            FirstAnswerCons(lines, decode, id, k + 1);
          }
        }
      }
      LinesLeave(HandleReply(s, r), lines[1..], decode, id);
    }
  }

  /** Output settles a pending request if and only if a line carries its id and is reached, that is if no line before
      it throws; and the first such line settles it, with what it says. */
  lemma OutputSettlesIff(cfg: Config, s: State, process: nat, text: string, decode: string -> Reply, id: nat)
    requires Inv(cfg, s) && id in s.book.pending
    ensures var lines, t := Lines(s.buffer + text), Step(cfg, s, Chunk(process, text, decode));
            && (id !in t.book.pending <==> exists k :: FirstAnswer(lines, decode, id, k))
            && id in t.book.finishes
            && forall k :: FirstAnswer(lines, decode, id, k) ==> t.book.finishes[id] == [Said(decode(lines[k]))]
  {
    hide Lines, Rest, Consume, HandleLines;
    var all := s.(buffer := s.buffer + text);
    var lines := Lines(all.buffer);
    ConsumeHandlesLines(all, decode);
    assert s.book.finishes[id] == [];
    hide Inv;
    if k :| FirstAnswer(lines, decode, id, k) {
      forall k | FirstAnswer(lines, decode, id, k)
        ensures var t := HandleLines(all, lines, decode);
                id !in t.book.pending && id in t.book.finishes && t.book.finishes[id] == [Said(decode(lines[k]))]
      {
        LinesSettle(all, lines, decode, id, k);
      }
    } else {
      LinesLeave(all, lines, decode, id);
    }
  }

  /** A pending request is answered with success. */
  ghost predicate Succeeds(b: Book, lines: seq<string>, decode: string -> Reply, id: nat) {
    id in b.pending && exists k :: FirstAnswer(lines, decode, id, k) && decode(lines[k]).ok
  }

  /** A pending request is answered with failure. */
  ghost predicate Fails(b: Book, lines: seq<string>, decode: string -> Reply, id: nat) {
    id in b.pending && exists k :: FirstAnswer(lines, decode, id, k) && !decode(lines[k]).ok
  }

  /** Whose answer comes after the first line. */
  lemma AnswersAfter(s: State, lines: seq<string>, decode: string -> Reply, id: nat)
    requires lines != [] && !decode(lines[0]).Null?
    ensures var r := decode(lines[0]);
            var b := HandleReply(s, r).book;
            if r.Reply? && r.id == Some(id)
            then
              && (Succeeds(s.book, lines, decode, id) <==> id in s.book.pending && r.ok)
              && (Fails(s.book, lines, decode, id) <==> id in s.book.pending && !r.ok)
              && !Succeeds(b, lines[1..], decode, id) && !Fails(b, lines[1..], decode, id)
            else
              && (Succeeds(s.book, lines, decode, id) <==> Succeeds(b, lines[1..], decode, id))
              && (Fails(s.book, lines, decode, id) <==> Fails(b, lines[1..], decode, id))
  {
    hide HandleReply, FirstAnswer;
    var r, rest := decode(lines[0]), lines[1..];
    ReplyIff(s, r);
    forall k
      ensures FirstAnswer(lines, decode, id, k) <==>
                if k == 0 then r.Reply? && r.id == Some(id)
                else !Carries(r, id) && FirstAnswer(rest, decode, id, k - 1)
    {
      FirstAnswerCons(lines, decode, id, k);
    }
    forall k | FirstAnswer(rest, decode, id, k)
      ensures 0 <= k < |rest|
      ensures rest[k] == lines[k + 1]
    {
      FirstAnswerIn(rest, decode, id, k);
    }
    if !Carries(r, id) {
      forall k | FirstAnswer(rest, decode, id, k)
        ensures FirstAnswer(lines, decode, id, k + 1)
      {
      }
    }
    if r.Reply? && r.id == Some(id) {
      assert FirstAnswer(lines, decode, id, 0);
    }
  }

  lemma FirstAnswerIn(lines: seq<string>, decode: string -> Reply, id: nat, k: int)
    requires FirstAnswer(lines, decode, id, k)
    ensures 0 <= k < |lines|
  {
  }

  /** What lines do to the health of the process and to the count of failures. */
  lemma {:induction false} LinesCount(s: State, lines: seq<string>, decode: string -> Reply)
    ensures var t := HandleLines(s, lines, decode);
            && t.vitals == (if exists id :: Succeeds(s.book, lines, decode, id) then Vitals(Healthy, 0) else s.vitals)
            && t.ipcFailures == s.ipcFailures + |set id | id in s.book.pending && Fails(s.book, lines, decode, id)|
            && t.ipcRequests == s.ipcRequests && t.processes == s.processes
    decreases lines
  {
    hide HandleReply, Succeeds, Fails;
    var failing := set id | id in s.book.pending && Fails(s.book, lines, decode, id);
    if lines == [] || decode(lines[0]).Null? {
      NobodyAnswers(s.book, lines, decode);
      assert failing == {};
    } else {
      var r, rest := decode(lines[0]), lines[1..];
      var u := HandleReply(s, r);
      var after := set id | id in u.book.pending && Fails(u.book, rest, decode, id);
      forall id: nat
        ensures Fails(s.book, lines, decode, id) <==> id in failing
        ensures Fails(u.book, rest, decode, id) <==> id in after
      {
        OnlyPending(s.book, lines, decode, id);
        OnlyPending(u.book, rest, decode, id);
      }
      ReplyIff(s, r);
      ReplyCounts(s, r);
      forall id: nat
        ensures var own := r.Reply? && r.id == Some(id) && id in s.book.pending;
                && (Succeeds(s.book, lines, decode, id) <==> (own && r.ok) || Succeeds(u.book, rest, decode, id))
                && (id in failing <==> (own && !r.ok) || id in after)
                && (own ==> id !in after)
      {
        AnswersAfter(s, lines, decode, id);
      }
      if r.Reply? && r.id.Some? && r.id.value in s.book.pending && !r.ok {
        assert failing == after + {r.id.value};
      } else {
        assert failing == after;
      }
      LinesCount(u, rest, decode);
    }
  }

  lemma ReplyCounts(s: State, r: Reply)
    ensures HandleReply(s, r).ipcRequests == s.ipcRequests && HandleReply(s, r).processes == s.processes
  {
  }

  lemma OnlyPending(b: Book, lines: seq<string>, decode: string -> Reply, id: nat)
    ensures Fails(b, lines, decode, id) ==> id in b.pending
  {
  }

  lemma NobodyAnswers(b: Book, lines: seq<string>, decode: string -> Reply)
    requires lines == [] || decode(lines[0]).Null?
    ensures forall id :: !Succeeds(b, lines, decode, id) && !Fails(b, lines, decode, id)
  {
  }

  /** Output makes the process healthy again if and only if it answers a pending request with success; it counts a
      failure for every pending request that it answers otherwise, and touches no process. */
  lemma OutputCounts(cfg: Config, s: State, process: nat, text: string, decode: string -> Reply)
    ensures var lines, t := Lines(s.buffer + text), Step(cfg, s, Chunk(process, text, decode));
            && t.vitals == (if exists id :: Succeeds(s.book, lines, decode, id) then Vitals(Healthy, 0) else s.vitals)
            && t.ipcFailures == s.ipcFailures + |set id | id in s.book.pending && Fails(s.book, lines, decode, id)|
            && t.ipcRequests == s.ipcRequests && t.processes == s.processes
  {
    hide Lines, Rest, Consume, HandleLines, Succeeds, Fails;
    var all := s.(buffer := s.buffer + text);
    ConsumeHandlesLines(all, decode);
    LinesCount(all, Lines(all.buffer), decode);
  }

  // ----- Timers and signals -----

  /** The book with one pending request settled. */
  ghost function WithOneRejected(b: Book, id: nat, code: Code): Book
    requires id in b.pending
  {
    Book(b.pending - {id}, b.timers - {id}, b.listeners - {id}, b.nextId, b.finishes[id := [Rejected(code)]])
  }

  /** The book with every pending request settled. */
  ghost function WithAllRejected(b: Book, code: Code): Book {
    Book(map[], {}, {}, b.nextId,
         map id | id in b.finishes :: if id in b.pending then [Rejected(code)] else b.finishes[id])
  }

  /** One more restart is planned, unless `stop` has been called or none is left. */
  ghost function WithRestart(cfg: Config, p: Processes): Processes {
    if !p.stopping && p.restartCount < cfg.maxRestarts
    then p.(restartCount := p.restartCount + 1, restartTimers := p.restartTimers + 1)
    else p
  }

  lemma OneRejected(b: Book, id: nat, code: Code)
    requires BookInv(b) && id in b.pending
    ensures Settle(b.(timers := b.timers - {id}), id, Rejected(code)) == WithOneRejected(b, id, code)
    ensures Settle(b.(listeners := b.listeners - {id}), id, Rejected(code)) == WithOneRejected(b, id, code)
  {
    assert [] + [Rejected(code)] == [Rejected(code)];
    assert b.timers - {id} - {id} == b.timers - {id} && b.listeners - {id} - {id} == b.listeners - {id};
  }

  lemma AllRejected(b: Book, timers: set<nat>, code: Code)
    requires BookInv(b) && timers <= b.timers
    ensures RejectAll(b.(timers := timers), code) == WithAllRejected(b, code)
  {
    var r := RejectAll(b.(timers := timers), code);
    assert r.timers == {} && r.listeners == {};
    forall id | id in b.finishes
      ensures r.finishes[id] == if id in b.pending then [Rejected(code)] else b.finishes[id]
    {
      assert id in b.pending ==> b.finishes[id] == [];
    }
    hide BookInv;
    assert r.finishes == WithAllRejected(b, code).finishes;
  }

  /** The first pending request to time out since the last answer is rejected, and the process is suspect. */
  lemma FirstTimeout(cfg: Config, s: State, id: nat)
    requires Inv(cfg, s) && id in s.book.pending && s.vitals.failures == 0
    ensures Step(cfg, s, TimerFires(id)) ==
              s.(book := WithOneRejected(s.book, id, TimedOut),
                 vitals := Vitals(Suspect, 1),
                 ipcFailures := s.ipcFailures + 1)
  {
    BookIsSound(cfg, s);
    OneRejected(s.book, id, TimedOut);
    assert id in s.book.timers;
    hide Inv, RejectAll, Settle, WithOneRejected;
    hide Request, Abort, Data, Exit, SpawnError, RestartTimer, Start, Stop, ScheduleRestart;
  }

  /** The second means that the process is given up, that everything pending is rejected with it, and that a restart
      is planned. */
  lemma SecondTimeout(cfg: Config, s: State, id: nat)
    requires Inv(cfg, s) && id in s.book.pending && s.vitals.failures != 0
    ensures Step(cfg, s, TimerFires(id)) ==
              s.(book := WithAllRejected(s.book, Wedged),
                 vitals := Vitals(Quarantined, 2),
                 processes := WithRestart(cfg, s.processes.(child := None)),
                 ipcFailures := s.ipcFailures + 1 + |s.book.pending|)
  {
    BookIsSound(cfg, s);
    AllRejected(s.book, s.book.timers - {id}, Wedged);
    PendingHasProcess(cfg, s, id);
    assert id in s.book.timers;
    hide Inv, RejectAll, Settle, WithAllRejected;
    hide Request, Abort, Data, Exit, SpawnError, RestartTimer, Start, Stop;
  }

  lemma PendingHasProcess(cfg: Config, s: State, id: nat)
    requires Inv(cfg, s) && id in s.book.pending
    ensures s.processes.child.Some? && s.vitals in {Vitals(Healthy, 0), Vitals(Suspect, 1)}
  {
  }

  /** The signal of a pending request rejects it, and no other. */
  lemma SignalIff(cfg: Config, s: State, id: nat)
    requires Inv(cfg, s)
    ensures Step(cfg, s, SignalFires(id)) ==
              if id in s.book.pending && s.book.pending[id].hasSignal
              then s.(book := WithOneRejected(s.book, id, Aborted), ipcFailures := s.ipcFailures + 1)
              else s
  {
    BookIsSound(cfg, s);
    assert id in s.book.listeners <==> id in s.book.pending && s.book.pending[id].hasSignal;
    if id in s.book.pending {
      OneRejected(s.book, id, Aborted);
    }
    hide BookInv, Settle, WithOneRejected;
  }

  // ----- The end of a process -----

  /** The exit of a process, whichever it is, rejects everything pending and plans a restart. */
  lemma ExitIff(cfg: Config, s: State, process: nat)
    requires Inv(cfg, s)
    ensures var p := s.processes.(child := if s.processes.child == Some(process) then None else s.processes.child);
            && Step(cfg, s, ChildExits(process)) == s.(
                 book := WithAllRejected(s.book, ProcessExited),
                 processes := WithRestart(cfg, p),
                 ipcFailures := s.ipcFailures + |s.book.pending|)
            && Step(cfg, s, ChildErrors(process)) == s.(
                 book := WithAllRejected(s.book, SpawnFailed),
                 processes := WithRestart(cfg, p),
                 ipcFailures := s.ipcFailures + |s.book.pending|)
  {
    BookIsSound(cfg, s);
    AllRejected(s.book, s.book.timers, ProcessExited);
    AllRejected(s.book, s.book.timers, SpawnFailed);
    hide BookInv, RejectAll, WithAllRejected;
  }

  /** A planned restart starts a process unless `stop` has been called or one is there that has not been given up. */
  lemma RestartIff(cfg: Config, s: State, os: nat -> ProcessView)
    requires Inv(cfg, s)
    ensures var p := s.processes;
            var lives := p.child.Some? && !os(p.child.value).exited && !os(p.child.value).killed;
            Step(cfg, s, RestartFires(os)) ==
              if p.restartTimers == 0 then s
              else if p.stopping || lives then s.(processes := p.(restartTimers := p.restartTimers - 1))
              else
                WithNewProcess(
                  s.(processes := p.(restartTimers := p.restartTimers - 1, timerStarts := p.timerStarts + 1)))
  {
    assert s.processes.child.Some? ==> s.vitals.health in {Healthy, Suspect};
    hide BookInv;
  }

  /** `stop` rejects everything pending, and lets go of the process for good. */
  lemma StopIff(cfg: Config, s: State)
    requires Inv(cfg, s)
    ensures Step(cfg, s, StopCall) == s.(
              book := WithAllRejected(s.book, Stopped),
              processes := s.processes.(stopping := true, child := None))
  {
    BookIsSound(cfg, s);
    AllRejected(s.book, s.book.timers, Stopped);
    if s.processes.child.None? {
      assert s.book.pending == map[] && s.book.timers == {} && s.book.listeners == {};
      assert WithAllRejected(s.book, Stopped).finishes == s.book.finishes;
    }
  }
}
