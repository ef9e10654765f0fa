/** The resident FDX process manager as an object whose methods are the events that reach it.
    Each method is proved to make the step of `NativeDaemonModel`. */
module NativeDaemon {
  import opened Options
  import opened LineFraming
  import opened NativeDaemonModel
  import opened NativeDaemonProofs

  /** How far the loop that rejects everything pending in `b` has come: `done` is behind it. */
  ghost predicate RejectedSoFar(b: Book, t: Book, done: set<nat>, code: Code) {
    && done <= b.pending.Keys
    && t.pending.Keys == b.pending.Keys - done
    && t.timers == b.timers - done
    && t.listeners == b.listeners - done
    && t.nextId == b.nextId
    && t.finishes.Keys == b.finishes.Keys
    && forall id <- b.finishes :: t.finishes[id] == FinishesAfter(b, done, code, id)
  }

  /** The attempts on one promise once the requests in `done` have been rejected. */
  ghost function FinishesAfter(b: Book, done: set<nat>, code: Code, id: nat): seq<Outcome>
    requires id in b.finishes
  {
    if id in done then b.finishes[id] + [Rejected(code)] else b.finishes[id]
  }

  lemma NoneRejected(b: Book, code: Code)
    ensures RejectedSoFar(b, b, {}, code)
  {
  }

  lemma RejectOne(b: Book, t: Book, done: set<nat>, code: Code, id: nat)
    requires RejectedSoFar(b, t, done, code) && id in b.pending && id !in done
    ensures RejectedSoFar(b, Settle(t, id, Rejected(code)), done + {id}, code)
  {
    assert b.timers - done - {id} == b.timers - (done + {id});
    assert b.listeners - done - {id} == b.listeners - (done + {id});
  }

  lemma AllRejected(b: Book, t: Book, code: Code)
    requires RejectedSoFar(b, t, b.pending.Keys, code)
    ensures t == RejectAll(b, code)
  {
    assert t.pending == map[];
    assert t.finishes == RejectAll(b, code).finishes;
  }

  lemma NoLineThrows(text: string, decode: string -> Reply)
    requires IndexOfNewline(text) == |text|
    ensures NoneThrows(Lines(text), decode)
  {
    assert text[..|text|] == text;
    FrameEnd(text);
  }

  lemma NextThrows(text: string, n: nat, decode: string -> Reply)
    requires n == IndexOfNewline(text) < |text|
    ensures var line := Trim(text[..n]);
            NoneThrows(Lines(text), decode)
            <==> (line == "" || !decode(line).Null?) && NoneThrows(Lines(text[n + 1..]), decode)
  {
    hide Lines, Trim, Rest;
    FrameStep(text, n);
    var line, later := Trim(text[..n]), Lines(text[n + 1..]);
    var first: seq<string> := if line == "" then [] else [line];
    assert Lines(text) == first + later;
    assert forall l :: l in first + later <==> l in first || l in later;
  }

  class FdxNativeDaemon {
    const cfg: Config
    /** The pending map and request counter, with the runtime's timers and listeners. */
    var book: Book
    var processes: Processes
    var vitals: Vitals
    var buffer: string
    var ipcRequests: nat
    var ipcFailures: nat

    ghost function Model(): State
      reads this
    {
      State(book, processes, vitals, buffer, ipcRequests, ipcFailures)
    }

    constructor (cfg: Config)
      ensures this.cfg == cfg && Model() == INITIAL && Inv(cfg, Model())
    {
      this.cfg := cfg;
      book := Book(map[], {}, {}, 0, map[]);
      processes := Processes(None, 0, 0, 0, 0, false);
      vitals := Vitals(Healthy, 0);
      buffer, ipcRequests, ipcFailures := "", 0, 0;
      new;
      InitialInv(cfg);
    }

    /** Resolve or reject a promise: every attempt is recorded, in order. */
    method FinishPromise(id: nat, o: Outcome)
      modifies this`book
      ensures book == Finish(old(book), id, o)
    {
      if id in book.finishes {
        book := book.(finishes := book.finishes[id := book.finishes[id] + [o]]);
      }
    }

    method DiscardPending(id: nat)
      modifies this`book
      ensures book == Discard(old(book), id)
    {
      if id in book.pending {
        book := book.(timers := book.timers - {id});
        book := book.(listeners := book.listeners - {id});
        book := book.(pending := book.pending - {id});
      }
    }

    method QueueRequest(id: nat, e: Entry)
      modifies this`book
      ensures book == Queue(old(book), id, e)
    {
      book := book.(timers := book.timers + {id});
      if e.hasSignal {
        book := book.(listeners := book.listeners + {id});
      }
      book := book.(pending := book.pending[id := e]);
    }

    /** Take a request out of the queue and settle its caller. */
    method SettleRequest(id: nat, o: Outcome)
      modifies this`book
      ensures book == Settle(old(book), id, o)
    {
      DiscardPending(id);
      FinishPromise(id, o);
    }

    /** Reject every pending request, one after the other. */
    method RejectPending(code: Code, counted: bool)
      modifies this`book, this`ipcFailures
      ensures book == RejectAll(old(book), code)
      ensures ipcFailures == old(ipcFailures) + if counted then |old(book).pending| else 0
    {
      hide RejectAll, Settle, RejectedSoFar;
      ghost var before := book;
      ghost var done := {};
      var todo := book.pending.Keys;
      NoneRejected(before, code);
      while todo != {}
        invariant done <= before.pending.Keys && todo == before.pending.Keys - done
        invariant RejectedSoFar(before, book, done, code)
        invariant ipcFailures == old(ipcFailures) + if counted then |before.pending| - |todo| else 0
        decreases todo
      {
        var id :| id in todo;
        RejectOne(before, book, done, code, id);
        if counted {
          ipcFailures := ipcFailures + 1;
        }
        SettleRequest(id, Rejected(code));
        todo := todo - {id};
        done := done + {id};
      }
      assert done == before.pending.Keys;
      AllRejected(before, book, code);
    }

    method SpawnProcess()
      modifies this`processes, this`vitals, this`buffer
      ensures Model() == Spawn(old(Model()))
    {
      if processes.stopping {
        return;
      }
      processes := processes.(child := Some(processes.starts));
      processes := processes.(starts := processes.starts + 1);
      buffer := "";
      vitals := vitals.(health := Healthy);
      vitals := vitals.(failures := 0);
    }

    method StartProcess(os: nat -> ProcessView)
      modifies this`processes, this`vitals, this`buffer
      ensures Model() == Start(old(Model()), os)
    {
      if processes.child.Some? {
        var view := os(processes.child.value);
        if !view.exited && !view.killed && view.hasPid {
          return;
        }
      }
      SpawnProcess();
    }

    predicate IsHealthyNow(os: nat -> ProcessView)
      reads this
      ensures IsHealthyNow(os) <==> IsHealthy(Model(), os)
    {
      if vitals.health == Quarantined || vitals.health == Unhealthy then false
      else
        var child := processes.child;
        child.Some? && !os(child.value).exited && !os(child.value).killed
    }

    /** Plan a restart, unless stopped or out of restarts. */
    method PlanRestart()
      modifies this`processes
      ensures processes == ScheduleRestart(cfg, old(processes))
    {
      if processes.stopping || processes.restartCount >= cfg.maxRestarts {
        return;
      }
      processes := processes.(restartCount := processes.restartCount + 1);
      processes := processes.(restartTimers := processes.restartTimers + 1);
    }

    method RequestValue(os: nat -> ProcessView, signal: Signal, writeFails: bool) returns (r: Admission)
      requires Inv(cfg, Model())
      modifies this
      ensures r == Admit(cfg, old(Model()), os)
      ensures Model() == Request(cfg, old(Model()), os, signal, writeFails) && Inv(cfg, Model())
    {
      hide Inv, Settle, Queue, Finish;
      RequestInv(cfg, Model(), os, signal, writeFails);
      if |book.pending| >= cfg.maxQueued {
        ipcFailures := ipcFailures + 1;
        return QueueLimit;
      }
      StartProcess(os);
      if processes.child.None? || !os(processes.child.value).writable || !IsHealthyNow(os) {
        ipcFailures := ipcFailures + 1;
        return Unavailable;
      }
      var id := book.nextId;
      book := book.(nextId := id + 1, finishes := book.finishes[id := []]);
      r := Accepted(id);
      if signal.AbortedSignal? {
        FinishPromise(id, Rejected(Aborted));
        return;
      }
      QueueRequest(id, Entry(signal.LiveSignal?, processes.child.value));
      if writeFails {
        ipcFailures := ipcFailures + 1;
        SettleRequest(id, Rejected(WriteFailed));
      } else {
        ipcRequests := ipcRequests + 1;
      }
    }

    /** The timeout of a request: the runtime runs it only while the timer is armed. */
    method OnTimeout(id: nat)
      requires Inv(cfg, Model()) && id in book.timers
      modifies this
      ensures Model() == Timeout(cfg, old(Model()), id) && Inv(cfg, Model())
    {
      hide Inv, RejectAll, Settle, ScheduleRestart;
      TimeoutInv(cfg, Model(), id);
      book := book.(timers := book.timers - {id});
      ipcFailures := ipcFailures + 1;
      vitals := vitals.(failures := vitals.failures + 1);
      if vitals.failures >= 2 {
        vitals := vitals.(health := Quarantined);
        RejectPending(Wedged, true);
        processes := processes.(child := None);
        PlanRestart();
      } else if id in book.pending {
        vitals := vitals.(health := Suspect);
        SettleRequest(id, Rejected(TimedOut));
      }
    }

    /** The abort listener of a request: the runtime runs it once, and only while it is registered. */
    method OnAbort(id: nat)
      requires Inv(cfg, Model()) && id in book.listeners
      modifies this
      ensures Model() == Abort(old(Model()), id) && Inv(cfg, Model())
    {
      hide Inv, Settle;
      AbortInv(cfg, Model(), id);
      book := book.(listeners := book.listeners - {id});
      ipcFailures := ipcFailures + 1;
      SettleRequest(id, Rejected(Aborted));
    }

    method HandleMessage(r: Reply)
      modifies this`book, this`vitals, this`ipcFailures
      ensures Model() == HandleReply(old(Model()), r)
    {
      hide Settle;
      if !r.Reply? || r.id.None? || r.id.value !in book.pending {
        return;
      }
      var id := r.id.value;
      if r.ok {
        vitals := vitals.(health := Healthy);
        vitals := vitals.(failures := 0);
        SettleRequest(id, Resolved(r.value));
      } else {
        ipcFailures := ipcFailures + 1;
        SettleRequest(id, Rejected(BadResponse));
      }
    }

    /** A chunk of output. `threw` says that a handler threw, which leaves the loop. */
    method OnData(chunk: string, decode: string -> Reply) returns (threw: bool)
      requires Inv(cfg, Model())
      modifies this
      ensures Model() == Data(old(Model()), chunk, decode) && Inv(cfg, Model())
      ensures threw <==> !NoneThrows(Lines(old(buffer) + chunk), decode)
    {
      hide Inv, Trim, Rest, Lines, NoneThrows;
      DataInv(cfg, Model(), chunk, decode);
      buffer := buffer + chunk;
      ghost var all := Model();
      threw := false;
      while true
        invariant Consume(Model(), decode) == Consume(all, decode)
        invariant NoneThrows(Lines(buffer), decode) <==> NoneThrows(Lines(all.buffer), decode)
        decreases |buffer|
      {
        var newline := IndexOfNewline(buffer);
        if newline == |buffer| {
          NoLineThrows(buffer, decode);
          break;
        }
        var line := Trim(buffer[..newline]);
        NextThrows(buffer, newline, decode);
        buffer := buffer[newline + 1..];
        if line != "" {
          var reply := decode(line);
          if reply.Null? {
            threw := true;
            break;
          }
          HandleMessage(reply);
        }
      }
    }

    method OnExit(process: nat)
      requires Inv(cfg, Model())
      modifies this
      ensures Model() == Exit(cfg, old(Model()), process) && Inv(cfg, Model())
    {
      hide Inv, RejectAll;
      ExitInv(cfg, Model(), process);
      if processes.child == Some(process) {
        processes := processes.(child := None);
      }
      RejectPending(ProcessExited, true);
      if !processes.stopping {
        PlanRestart();
      }
    }

    method OnError(process: nat)
      requires Inv(cfg, Model())
      modifies this
      ensures Model() == SpawnError(cfg, old(Model()), process) && Inv(cfg, Model())
    {
      hide Inv, RejectAll;
      ExitInv(cfg, Model(), process);
      if processes.child == Some(process) {
        processes := processes.(child := None);
      }
      RejectPending(SpawnFailed, true);
      PlanRestart();
    }

    /** A restart timer fires. */
    method OnRestartTimer(os: nat -> ProcessView)
      requires Inv(cfg, Model()) && processes.restartTimers > 0
      modifies this
      ensures Model() == RestartTimer(old(Model()), os) && Inv(cfg, Model())
    {
      hide Inv;
      RestartInv(cfg, Model(), os);
      processes := processes.(restartTimers := processes.restartTimers - 1);
      if processes.stopping {
        return;
      }
      if !IsHealthyNow(os) {
        processes := processes.(timerStarts := processes.timerStarts + 1);
        SpawnProcess();
      }
    }

    method StopProcess()
      requires Inv(cfg, Model())
      modifies this
      ensures Model() == Stop(old(Model())) && Inv(cfg, Model())
    {
      hide Inv, RejectAll;
      StopInv(cfg, Model());
      processes := processes.(stopping := true);
      var running := processes.child;
      processes := processes.(child := None);
      if running.Some? {
        RejectPending(Stopped, false);
      }
    }
  }
}
