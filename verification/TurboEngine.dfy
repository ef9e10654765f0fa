/** The multiplexer as an object: the calls, settlements and cancellations that reach it are its
    methods, and each is proved to make the step of `TurboEngineModel`. */
module TurboEngine {
  import opened TurboEngineModel
  import opened TurboEngineTheorems

  class FdxTurboEngine {
    const maxQueued: nat
    var queued: nat
    var inflight: map<string, nat>
    var computations: map<nat, Computation>
    var nextComputation: nat
    var calls: map<nat, Call>
    var nextCall: nat
    /** The calls whose abort listener is registered. */
    var listeners: set<nat>

    ghost function Model(): State
      reads this
    {
      State(queued, inflight, computations, nextComputation, calls, nextCall, listeners)
    }

    constructor (maxQueued: nat)
      ensures this.maxQueued == maxQueued && Model() == INITIAL && Inv(maxQueued, Model())
    {
      this.maxQueued := maxQueued;
      queued, inflight, computations, nextComputation := 0, map[], map[], 0;
      calls, nextCall, listeners := map[], 0, {};
      new;
      InitialInv(maxQueued);
    }

    method EnterQueue() returns (entered: bool)
      modifies this`queued
      ensures entered <==> old(queued) < maxQueued
      ensures queued == if entered then old(queued) + 1 else old(queued)
    {
      if queued >= maxQueued {
        return false;
      }
      queued := queued + 1;
      return true;
    }

    /** Look the key up, and start and register a computation if there is none. */
    method FindOrStart(key: string) returns (e: nat)
      modifies this`inflight, this`computations, this`nextComputation
      ensures (e, Model()) == Share(old(Model()), key)
    {
      if key in inflight {
        return inflight[key];
      }
      e := nextComputation;
      nextComputation := e + 1;
      computations := computations[e := Computation(key, {}, false, true)];
      inflight := inflight[key := e];
    }

    /** A request of any kind: refused when the queue is full. */
    method BeginCall(key: string, signal: Signal) returns (admitted: bool)
      requires Inv(maxQueued, Model())
      modifies this
      ensures admitted <==> old(queued) < maxQueued
      ensures Model() == Begin(maxQueued, old(Model()), key, signal) && Inv(maxQueued, Model())
    {
      hide Share, Inv;
      BeginInv(maxQueued, Model(), key, signal);
      ghost var before := Model();
      admitted := EnterQueue();
      if !admitted {
        return;
      }
      ShareQueued(before, key);
      var e := FindOrStart(key);
      var c := nextCall;
      nextCall := c + 1;
      if signal.AbortedSignal? {
        calls := calls[c := Call(key, e, Settled, [AbortedByCaller])];
        return;
      }
      calls := calls[c := Call(key, e, Waiting, [])];
      if signal.LiveSignal? {
        listeners := listeners + {c};
      }
      if e in computations {
        computations := computations[e := computations[e].(subscribers := computations[e].subscribers + {c})];
      }
    }

    /** The computation settles: every subscriber gets its result, one after the other. */
    method OnSettled(e: nat, r: Result)
      requires Inv(maxQueued, Model()) && Enabled(Model(), ComputationSettles(e, r))
      modifies this
      ensures Model() == Finish(old(Model()), e, r) && Inv(maxQueued, Model())
    {
      hide Inv, SettleCalls;
      FinishInv(maxQueued, Model(), e, r);
      assert computations[e].subscribers <= calls.Keys by { SubscribersAreCalls(maxQueued, Model(), e); }
      inflight := inflight - {computations[e].key};
      computations := computations[e := computations[e].(running := false)];
      var subscribers := computations[e].subscribers;
      ghost var before, armed := calls, listeners;
      var todo := subscribers;
      NoneSettled(before, r);
      assert subscribers - todo == {};
      while todo != {}
        invariant todo <= subscribers
        invariant listeners == armed - (subscribers - todo)
        invariant calls == SettleCalls(before, subscribers - todo, r)
        modifies this`calls, this`listeners
        decreases todo
      {
        var c :| c in todo;
        SettleOne(before, subscribers - todo, r, c);
        assert subscribers - (todo - {c}) == subscribers - todo + {c};
        assert c in calls by { SettleKeys(before, subscribers - todo, r); }
        listeners := listeners - {c};
        calls := calls[c := SettleCall(calls[c], r)];
        todo := todo - {c};
      }
      assert subscribers - {} == subscribers;
    }

    /** The abort listener of a call: the runtime runs it once, and only while it is registered. */
    method OnAbort(c: nat)
      requires Inv(maxQueued, Model()) && Enabled(Model(), SignalFires(c))
      modifies this
      ensures Model() == Abort(old(Model()), c) && Inv(maxQueued, Model())
    {
      hide Inv;
      AbortInv(maxQueued, Model(), c);
      var e := calls[c].computation;
      computations := computations[e := computations[e].(subscribers := computations[e].subscribers - {c})];
      listeners := listeners - {c};
      if computations[e].subscribers == {} {
        computations := computations[e := computations[e].(aborted := true)];
        inflight := inflight - {calls[c].key};
      }
      calls := calls[c := SettleCall(calls[c], AbortedByCaller)];
    }

    /** The `finally` of a call whose promise has settled. */
    method LeaveQueue(c: nat)
      requires Inv(maxQueued, Model()) && Enabled(Model(), CallLeaves(c))
      modifies this
      ensures queued == old(queued) - 1
      ensures Model() == Leave(old(Model()), c) && Inv(maxQueued, Model())
    {
      hide Inv;
      ghost var before := Model();
      queued := if queued >= 1 then queued - 1 else 0;
      calls := calls[c := calls[c].(phase := Left)];
      LeaveInv(maxQueued, before, c);
    }
  }

  lemma ShareQueued(s: State, key: string)
    ensures var (e, t) := Share(s, key);
            Share(s.(queued := s.queued + 1), key) == (e, t.(queued := t.queued + 1)) && t.queued == s.queued
  {
  }

  lemma SubscribersAreCalls(maxQueued: nat, s: State, e: nat)
    requires Inv(maxQueued, s) && e in s.computations && s.computations[e].running
    ensures s.computations[e].subscribers <= s.calls.Keys
  {
    assert OwnSubscribers(s, e);
  }

  lemma SettleKeys(calls: map<nat, Call>, done: set<nat>, r: Result)
    ensures SettleCalls(calls, done, r).Keys == calls.Keys
  {
  }

  lemma NoneSettled(calls: map<nat, Call>, r: Result)
    ensures SettleCalls(calls, {}, r) == calls
  {
  }

  lemma SettleOne(calls: map<nat, Call>, done: set<nat>, r: Result, c: nat)
    requires c in calls && c !in done
    ensures SettleCalls(calls, done, r)[c := SettleCall(SettleCalls(calls, done, r)[c], r)]
         == SettleCalls(calls, done + {c}, r)
  {
  }
}
