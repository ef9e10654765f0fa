/** What every run of the multiplexer keeps, and when there is one computation per key. */
module TurboEngineTheorems {
  import opened TurboEngineModel

  /** The calls let into the queue that have not left it. */
  ghost function Admitted(calls: map<nat, Call>): set<nat> {
    set c | c in calls && calls[c].phase != Left
  }

  /** A call has been settled once unless it is still waiting, and then not at all. */
  ghost predicate CallsInv(s: State) {
    && (forall c <- s.calls :: c < s.nextCall)
    && (forall c <- s.calls :: |s.calls[c].settlements| == if s.calls[c].phase == Waiting then 0 else 1)
    && (forall c <- s.listeners :: c in s.calls && s.calls[c].phase == Waiting)
  }

  /** Every waiting call is a subscriber of a running computation for its key, and a running
      computation has no other subscribers. */
  ghost predicate SubscriptionInv(s: State) {
    && (forall e <- s.computations :: e < s.nextComputation)
    && (forall c <- s.calls :: s.calls[c].phase == Waiting ==> IsSubscribed(s, c))
    && forall e <- s.computations :: s.computations[e].running ==> OwnSubscribers(s, e)
  }

  ghost predicate IsSubscribed(s: State, c: nat)
    requires c in s.calls
  {
    var e := s.calls[c].computation;
    && e in s.computations
    && s.computations[e].running
    && c in s.computations[e].subscribers
    && s.computations[e].key == s.calls[c].key
  }

  ghost predicate OwnSubscribers(s: State, e: nat)
    requires e in s.computations
  {
    forall c <- s.computations[e].subscribers ::
      c in s.calls && s.calls[c].computation == e && s.calls[c].phase == Waiting
  }

  /** Only a running, unaborted computation is registered; an aborted one has no subscriber. */
  ghost predicate RegistryInv(s: State) {
    && (forall key <- s.inflight ::
          && s.inflight[key] in s.computations
          && s.computations[s.inflight[key]].running
          && !s.computations[s.inflight[key]].aborted
          && s.computations[s.inflight[key]].key == key)
    && forall e <- s.computations ::
         s.computations[e].running && s.computations[e].aborted ==> s.computations[e].subscribers == {}
  }

  ghost predicate QueueInv(maxQueued: nat, s: State) {
    s.queued == |Admitted(s.calls)| && s.queued <= maxQueued
  }

  ghost predicate Inv(maxQueued: nat, s: State) {
    CallsInv(s) && SubscriptionInv(s) && RegistryInv(s) && QueueInv(maxQueued, s)
  }

  // ----- Every event keeps the invariant -----

  lemma AdmittedAdds(calls: map<nat, Call>, c: nat, call: Call)
    requires c !in calls && call.phase != Left
    ensures |Admitted(calls[c := call])| == |Admitted(calls)| + 1
  {
    assert Admitted(calls[c := call]) == Admitted(calls) + {c};
  }

  lemma ShareInv(maxQueued: nat, s: State, key: string)
    requires Inv(maxQueued, s)
    ensures var (e, t) := Share(s, key);
            && Inv(maxQueued, t)
            && Joinable(t, e, key)
            && t.queued == s.queued && t.calls == s.calls && t.nextCall == s.nextCall
  {
  }

  /** A computation a caller may attach to: running and not aborted. */
  ghost predicate Joinable(s: State, e: nat, key: string) {
    && e in s.computations
    && s.computations[e].running
    && !s.computations[e].aborted
    && s.computations[e].key == key
  }

  lemma RejectedInv(maxQueued: nat, t: State, e: nat, key: string)
    requires Inv(maxQueued, t) && t.queued < maxQueued
    ensures var c := t.nextCall;
            Inv(maxQueued, t.(queued := t.queued + 1, nextCall := c + 1,
                              calls := t.calls[c := Call(key, e, Settled, [AbortedByCaller])]))
  {
    AdmittedAdds(t.calls, t.nextCall, Call(key, e, Settled, [AbortedByCaller]));
  }

  ghost function Subscribed(t: State, e: nat, key: string, listens: bool): State {
    var c := t.nextCall;
    Subscribe(
      t.(queued := t.queued + 1, nextCall := c + 1,
         calls := t.calls[c := Call(key, e, Waiting, [])],
         listeners := if listens then t.listeners + {c} else t.listeners),
      e, c)
  }

  lemma SubscribedQueue(maxQueued: nat, t: State, e: nat, key: string, listens: bool)
    requires CallsInv(t) && QueueInv(maxQueued, t) && t.queued < maxQueued
    ensures CallsInv(Subscribed(t, e, key, listens)) && QueueInv(maxQueued, Subscribed(t, e, key, listens))
  {
    AdmittedAdds(t.calls, t.nextCall, Call(key, e, Waiting, []));
  }

  lemma SubscribedRegistry(t: State, e: nat, key: string, listens: bool)
    requires CallsInv(t) && SubscriptionInv(t) && RegistryInv(t) && Joinable(t, e, key)
    ensures SubscriptionInv(Subscribed(t, e, key, listens)) && RegistryInv(Subscribed(t, e, key, listens))
  {
    var u := Subscribed(t, e, key, listens);
    forall e' | e' in u.computations && u.computations[e'].running
      ensures OwnSubscribers(u, e')
    {
      assert OwnSubscribers(t, e');
    }
    forall c | c in u.calls && u.calls[c].phase == Waiting
      ensures IsSubscribed(u, c)
    {
      assert c != t.nextCall ==> IsSubscribed(t, c);
    }
  }

  lemma BeginInv(maxQueued: nat, s: State, key: string, signal: Signal)
    requires Inv(maxQueued, s)
    ensures Inv(maxQueued, Begin(maxQueued, s, key, signal))
  {
    hide CallsInv, SubscriptionInv, RegistryInv, Share, Joinable, Subscribe;
    if s.queued < maxQueued {
      var (e, t) := Share(s, key);
      ShareInv(maxQueued, s, key);
      if signal.AbortedSignal? {
        RejectedInv(maxQueued, t, e, key);
      } else {
        SubscribedQueue(maxQueued, t, e, key, signal.LiveSignal?);
        SubscribedRegistry(t, e, key, signal.LiveSignal?);
        assert Begin(maxQueued, s, key, signal) == Subscribed(t, e, key, signal.LiveSignal?);
      }
    }
  }

  lemma FinishInv(maxQueued: nat, s: State, e: nat, r: Result)
    requires Inv(maxQueued, s) && e in s.computations && s.computations[e].running
    ensures Inv(maxQueued, Finish(s, e, r))
  {
    var t := Finish(s, e, r);
    assert OwnSubscribers(s, e);
    assert Admitted(t.calls) == Admitted(s.calls);
    forall e' | e' in t.computations && t.computations[e'].running
      ensures OwnSubscribers(t, e')
    {
      assert OwnSubscribers(s, e');
    }
    forall c | c in t.calls && t.calls[c].phase == Waiting
      ensures IsSubscribed(t, c)
    {
      assert IsSubscribed(s, c);
    }
  }

  lemma AbortInv(maxQueued: nat, s: State, c: nat)
    requires Inv(maxQueued, s) && Enabled(s, SignalFires(c))
    ensures Inv(maxQueued, Abort(s, c))
  {
    var t := Abort(s, c);
    assert IsSubscribed(s, c);
    assert Admitted(t.calls) == Admitted(s.calls);
    forall e | e in t.computations && t.computations[e].running
      ensures OwnSubscribers(t, e)
    {
      assert OwnSubscribers(s, e);
    }
    forall c' | c' in t.calls && t.calls[c'].phase == Waiting
      ensures IsSubscribed(t, c')
    {
      assert IsSubscribed(s, c');
    }
  }

  /** The clamp of `leaveQueue` never acts: a call that leaves is counted in `queued`. */
  lemma LeaveInv(maxQueued: nat, s: State, c: nat)
    requires Inv(maxQueued, s) && Enabled(s, CallLeaves(c))
    ensures s.queued >= 1
    ensures Inv(maxQueued, Leave(s, c))
  {
    var t := Leave(s, c);
    assert c in Admitted(s.calls);
    assert Admitted(t.calls) == Admitted(s.calls) - {c};
    forall e | e in t.computations && t.computations[e].running
      ensures OwnSubscribers(t, e)
    {
      assert OwnSubscribers(s, e);
    }
    forall c' | c' in t.calls && t.calls[c'].phase == Waiting
      ensures IsSubscribed(t, c')
    {
      assert IsSubscribed(s, c');
    }
  }

  lemma StepInv(maxQueued: nat, s: State, e: Event)
    requires Inv(maxQueued, s)
    ensures Inv(maxQueued, Step(maxQueued, s, e))
  {
    hide Inv;
    if Enabled(s, e) {
      match e
      case CallBegins(key, signal) => BeginInv(maxQueued, s, key, signal);
      case ComputationSettles(comp, result) => FinishInv(maxQueued, s, comp, result);
      case SignalFires(c) => AbortInv(maxQueued, s, c);
      case CallLeaves(c) => LeaveInv(maxQueued, s, c);
    }
  }

  lemma {:induction false} RunInv(maxQueued: nat, s: State, events: seq<Event>)
    requires Inv(maxQueued, s)
    ensures Inv(maxQueued, Run(maxQueued, s, events))
    decreases events
  {
    if events != [] {
      StepInv(maxQueued, s, events[0]);
      RunInv(maxQueued, Step(maxQueued, s, events[0]), events[1..]);
    }
  }

  lemma InitialInv(maxQueued: nat)
    ensures Inv(maxQueued, INITIAL)
  {
    assert Admitted(INITIAL.calls) == {};
  }

  /** After any events, every admitted call is waiting on a running, unaborted computation for its
      key or has been settled exactly once; `queued` counts the calls that have not left. */
  lemma EveryRun(maxQueued: nat, events: seq<Event>)
    ensures var s := Run(maxQueued, INITIAL, events);
            && (forall c <- s.calls :: s.calls[c].phase == Waiting ==>
                 s.calls[c].settlements == [] && Joinable(s, s.calls[c].computation, s.calls[c].key))
            && (forall c <- s.calls :: s.calls[c].phase != Waiting ==> |s.calls[c].settlements| == 1)
            && (forall key <- s.inflight :: Joinable(s, s.inflight[key], key))
            && s.queued == |Admitted(s.calls)| <= maxQueued
  {
    InitialInv(maxQueued);
    RunInv(maxQueued, INITIAL, events);
    var s := Run(maxQueued, INITIAL, events);
    assert forall c <- s.calls :: s.calls[c].phase == Waiting ==> IsSubscribed(s, c);
  }

  /** A waiting call is settled, with the result, by its computation, and by its own signal if it has one. */
  lemma SettledByComputation(maxQueued: nat, s: State, c: nat, r: Result)
    requires Inv(maxQueued, s) && c in s.calls && s.calls[c].phase == Waiting
    ensures var e := ComputationSettles(s.calls[c].computation, r);
            && Enabled(s, e)
            && Step(maxQueued, s, e).calls[c] == s.calls[c].(phase := Settled, settlements := [r])
    ensures c in s.listeners ==>
              Step(maxQueued, s, SignalFires(c)).calls[c]
              == s.calls[c].(phase := Settled, settlements := [AbortedByCaller])
  {
    assert IsSubscribed(s, c);
  }

  lemma ShareFrame(maxQueued: nat, s: State, key: string)
    requires Inv(maxQueued, s)
    ensures var (e, t) := Share(s, key);
            && t.calls == s.calls && t.nextCall == s.nextCall
            && s.computations.Keys <= t.computations.Keys <= s.computations.Keys + {e}
            && (forall d <- s.computations :: t.computations[d] == s.computations[d])
            && (forall k <- s.inflight :: k in t.inflight && t.inflight[k] == s.inflight[k])
            && Joinable(t, e, key)
            && (e in s.computations ==> Joinable(s, e, key))
            && Registered(t, e)
  {
  }

  /** What a new call leaves of the old state. */
  lemma BeginFrame(maxQueued: nat, s: State, key: string, signal: Signal)
    requires Inv(maxQueued, s)
    ensures var t := Begin(maxQueued, s, key, signal);
            && (forall c <- s.calls :: c in t.calls && t.calls[c] == s.calls[c])
            && (forall k <- s.inflight :: k in t.inflight && t.inflight[k] == s.inflight[k])
            && (forall e <- s.computations :: e in t.computations && Continues(s, t, e))
            && (forall e <- t.computations :: e in s.computations || (!t.computations[e].aborted && Registered(t, e)))
  {
    hide Share;
    if s.queued < maxQueued {
      ShareFrame(maxQueued, s, key);
    } else {
      assert Begin(maxQueued, s, key, signal) == s;
    }
  }

  /** A computation goes on as it was; only a joinable one can have gained a subscriber. */
  ghost predicate Continues(s: State, t: State, e: nat)
    requires e in s.computations && e in t.computations
  {
    var before, after := s.computations[e], t.computations[e];
    && after == before.(subscribers := after.subscribers)
    && (!Joinable(s, e, before.key) ==> after == before)
  }

  /** An event settles no call but those of its computation or its signal. */
  lemma OthersUntouched(maxQueued: nat, s: State, e: Event, c: nat)
    requires Inv(maxQueued, s) && c in s.calls && s.calls[c].phase == Waiting
    requires e.ComputationSettles? ==> e.computation != s.calls[c].computation
    requires e.SignalFires? ==> e.call != c
    ensures c in Step(maxQueued, s, e).calls && Step(maxQueued, s, e).calls[c] == s.calls[c]
  {
    match e
    case CallBegins(key, signal) => BeginFrame(maxQueued, s, key, signal);
    case ComputationSettles(comp, result) =>
      if Enabled(s, e) {
        assert OwnSubscribers(s, comp);
        assert c !in s.computations[comp].subscribers;
      }
    case _ =>
  }

  /** A computation's controller is aborted by an event exactly when that event is the
      cancellation of its only subscriber. */
  lemma AbortedIff(maxQueued: nat, s: State, e: Event, comp: nat)
    requires Inv(maxQueued, s) && comp in s.computations && !s.computations[comp].aborted
    ensures comp in Step(maxQueued, s, e).computations
    ensures Step(maxQueued, s, e).computations[comp].aborted <==> LastCancellation(s, e, comp)
  {
    match e
    case CallBegins(key, signal) => BeginFrame(maxQueued, s, key, signal);
    case SignalFires(c) =>
      if Enabled(s, e) {
        assert IsSubscribed(s, c);
        var subscribers := s.computations[s.calls[c].computation].subscribers;
        assert subscribers - {c} == {} <==> subscribers == {c};
      }
    case _ =>
  }

  ghost predicate LastCancellation(s: State, e: Event, comp: nat) {
    && e.SignalFires? && Enabled(s, e)
    && s.calls[e.call].computation == comp
    && s.computations[comp].subscribers == {e.call}
  }

  /** Nobody attaches to an aborted or finished computation again. */
  lemma NobodyAttaches(maxQueued: nat, s: State, e: Event, comp: nat)
    requires Inv(maxQueued, s) && comp in s.computations
    requires s.computations[comp].aborted || !s.computations[comp].running
    ensures comp in Step(maxQueued, s, e).computations
    ensures Step(maxQueued, s, e).computations[comp].subscribers <= s.computations[comp].subscribers
  {
    match e
    case CallBegins(key, signal) => BeginFrame(maxQueued, s, key, signal);
    case _ =>
  }

  // ----- One computation per key -----

  /** Every running computation that has not been aborted is the one registered for its key. */
  ghost predicate SingleFlight(s: State) {
    forall e <- s.computations :: s.computations[e].running && !s.computations[e].aborted ==> Registered(s, e)
  }

  ghost predicate Registered(s: State, e: nat)
    requires e in s.computations
  {
    s.computations[e].key in s.inflight && s.inflight[s.computations[e].key] == e
  }

  /** The one event that loses single flight: an aborted computation settles after its key has been
      registered for a new one, and deletes the new registration. */
  ghost predicate LateSettlement(s: State, e: Event) {
    && e.ComputationSettles? && Enabled(s, e)
    && s.computations[e.computation].aborted
    && s.computations[e.computation].key in s.inflight
  }

  /** Single flight is kept by every event but that one. */
  lemma StepSingleFlightIff(maxQueued: nat, s: State, e: Event)
    requires Inv(maxQueued, s) && SingleFlight(s)
    ensures SingleFlight(Step(maxQueued, s, e)) <==> !LateSettlement(s, e)
  {
    match e
    case CallBegins(key, signal) => BeginSingleFlight(maxQueued, s, key, signal);
    case ComputationSettles(comp, result) => if Enabled(s, e) { FinishSingleFlight(maxQueued, s, comp, result); }
    case SignalFires(c) => if Enabled(s, e) { AbortSingleFlight(maxQueued, s, c); }
    case CallLeaves(c) =>
      var t := Step(maxQueued, s, e);
      assert forall d <- t.computations :: Registered(s, d) ==> Registered(t, d);
  }

  ghost predicate SingleFlightThroughout(maxQueued: nat, s: State, events: seq<Event>)
    decreases events
  {
    SingleFlight(s) && (events != [] ==> SingleFlightThroughout(maxQueued, Step(maxQueued, s, events[0]), events[1..]))
  }

  ghost predicate NoLateSettlement(maxQueued: nat, s: State, events: seq<Event>)
    decreases events
  {
    events != [] ==>
      !LateSettlement(s, events[0]) && NoLateSettlement(maxQueued, Step(maxQueued, s, events[0]), events[1..])
  }

  /** A run is in single flight throughout if and only if no such event is in it. */
  lemma {:induction false} SingleFlightThroughoutIff(maxQueued: nat, s: State, events: seq<Event>)
    requires Inv(maxQueued, s) && SingleFlight(s)
    ensures SingleFlightThroughout(maxQueued, s, events) <==> NoLateSettlement(maxQueued, s, events)
    decreases events
  {
    if events != [] {
      StepInv(maxQueued, s, events[0]);
      StepSingleFlightIff(maxQueued, s, events[0]);
      hide Inv, Step, SingleFlight, LateSettlement;
      if SingleFlight(Step(maxQueued, s, events[0])) {
        SingleFlightThroughoutIff(maxQueued, Step(maxQueued, s, events[0]), events[1..]);
      }
    }
  }

  lemma BeginSingleFlight(maxQueued: nat, s: State, key: string, signal: Signal)
    requires Inv(maxQueued, s) && SingleFlight(s)
    ensures SingleFlight(Begin(maxQueued, s, key, signal))
  {
    hide Begin, Inv;
    var t := Begin(maxQueued, s, key, signal);
    BeginFrame(maxQueued, s, key, signal);
    forall d | d in t.computations && t.computations[d].running && !t.computations[d].aborted
      ensures Registered(t, d)
    {
      assert d in s.computations ==> Continues(s, t, d) && Registered(s, d);
    }
  }

  lemma FinishSingleFlight(maxQueued: nat, s: State, e: nat, r: Result)
    requires Inv(maxQueued, s) && SingleFlight(s) && e in s.computations && s.computations[e].running
    ensures SingleFlight(Finish(s, e, r)) <==> !(s.computations[e].aborted && s.computations[e].key in s.inflight)
  {
    var t, key := Finish(s, e, r), s.computations[e].key;
    if s.computations[e].aborted && key in s.inflight {
      assert !Registered(t, s.inflight[key]);
    } else {
      forall d | d in t.computations && t.computations[d].running && !t.computations[d].aborted
        ensures Registered(t, d)
      {
        assert Registered(s, d);
      }
    }
  }

  lemma AbortSingleFlight(maxQueued: nat, s: State, c: nat)
    requires Inv(maxQueued, s) && SingleFlight(s) && Enabled(s, SignalFires(c))
    ensures SingleFlight(Abort(s, c))
  {
    var t := Abort(s, c);
    assert IsSubscribed(s, c);
    forall d | d in t.computations && t.computations[d].running && !t.computations[d].aborted
      ensures Registered(t, d)
    {
      assert Registered(s, d);
    }
  }

  /** Under single flight all waiting callers of a key share one computation, and its settlement
      gives every one of them the same result. */
  lemma OneResultPerKey(maxQueued: nat, s: State, key: string, e: nat, r: Result)
    requires Inv(maxQueued, s) && SingleFlight(s)
    requires key in s.inflight && s.inflight[key] == e
    ensures forall c <- s.calls :: s.calls[c].phase == Waiting && s.calls[c].key == key ==>
              && s.calls[c].computation == e
              && Step(maxQueued, s, ComputationSettles(e, r)).calls[c].settlements == [r]
  {
    forall c | c in s.calls && s.calls[c].phase == Waiting && s.calls[c].key == key
      ensures s.calls[c].computation == e
      ensures Step(maxQueued, s, ComputationSettles(e, r)).calls[c].settlements == [r]
    {
      assert IsSubscribed(s, c);
      assert Registered(s, s.calls[c].computation);
    }
  }

  // ----- Every call is let in, shared and let out -----

  /** A call that finds room is counted and recorded, and no other is touched: it waits, heard by its signal if it
      has one, or is settled at once if that has fired already. One that finds none is refused without a trace. */
  lemma CallIsRecorded(maxQueued: nat, s: State, key: string, signal: Signal)
    requires Inv(maxQueued, s)
    ensures s.nextCall !in s.calls
    ensures var t := Step(maxQueued, s, CallBegins(key, signal));
            var c := s.nextCall;
            if s.queued == maxQueued then t == s
            else
              && t.queued == s.queued + 1 && t.nextCall == c + 1
              && c in t.calls && t.calls == s.calls[c :=
                   if signal.AbortedSignal? then Call(key, t.calls[c].computation, Settled, [AbortedByCaller])
                   else Call(key, t.calls[c].computation, Waiting, [])]
              && t.listeners == if signal.LiveSignal? then s.listeners + {c} else s.listeners
  {
    assert s.nextCall !in s.calls && s.queued <= maxQueued;
    hide Inv;
  }

  /** It joins the computation that its key is registered for, or starts one, and exactly one, if there is none; it
      subscribes unless its signal has fired already. */
  lemma CallJoins(maxQueued: nat, s: State, key: string, signal: Signal)
    requires Inv(maxQueued, s) && s.queued < maxQueued
    ensures var t := Step(maxQueued, s, CallBegins(key, signal));
            var c := s.nextCall;
            var subscribes := if signal.AbortedSignal? then {} else {c};
            && c in t.calls && key in t.inflight && t.calls[c].computation == t.inflight[key]
            && (if key in s.inflight
                then
                  var e := s.inflight[key];
                  && t.inflight == s.inflight && t.nextComputation == s.nextComputation
                  && t.computations == s.computations[e :=
                       s.computations[e].(subscribers := s.computations[e].subscribers + subscribes)]
                else
                  var e := s.nextComputation;
                  && e !in s.computations && t.inflight == s.inflight[key := e] && t.nextComputation == e + 1
                  && t.computations == s.computations[e := Computation(key, subscribes, false, true)])
  {
    hide QueueInv;
    if key in s.inflight {
      assert s.inflight[key] in s.computations;
      var e := s.inflight[key];
      assert s.computations[e].(subscribers := s.computations[e].subscribers + {}) == s.computations[e];
      assert s.computations[e := s.computations[e]] == s.computations;
    } else {
      assert s.nextComputation !in s.computations;
      assert {} + {s.nextCall} == {s.nextCall};
    }
  }

  /** Any number of calls for a key that is in flight share its computation, and none is started. */
  lemma {:induction false} CallersShare(maxQueued: nat, s: State, key: string, n: nat)
    requires Inv(maxQueued, s) && key in s.inflight && s.queued + n <= maxQueued
    ensures var t := Run(maxQueued, s, seq(n, i => CallBegins(key, NoSignal)));
            && t.queued == s.queued + n && t.nextCall == s.nextCall + n
            && t.inflight == s.inflight && t.computations.Keys == s.computations.Keys
            && (forall d <- s.calls :: d in t.calls && t.calls[d] == s.calls[d])
            && forall c :: s.nextCall <= c < s.nextCall + n ==>
                 c in t.calls && t.calls[c] == Call(key, s.inflight[key], Waiting, [])
    decreases n
  {
    hide Inv, Step;
    if n > 0 {
      var t := Step(maxQueued, s, CallBegins(key, NoSignal));
      StepInv(maxQueued, s, CallBegins(key, NoSignal));
      CallIsRecorded(maxQueued, s, key, NoSignal);
      CallJoins(maxQueued, s, key, NoSignal);
      RegisteredIsKnown(maxQueued, s, key);
      assert t.calls[s.nextCall] == Call(key, s.inflight[key], Waiting, []);
      assert seq(n, i => CallBegins(key, NoSignal))[1..] == seq(n - 1, i => CallBegins(key, NoSignal));
      CallersShare(maxQueued, t, key, n - 1);
    }
  }

  lemma RegisteredIsKnown(maxQueued: nat, s: State, key: string)
    requires Inv(maxQueued, s) && key in s.inflight
    ensures s.inflight[key] in s.computations
  {
  }

  /** The `finally` of a settled call makes room for one more. */
  lemma SettledCallLeaves(maxQueued: nat, s: State, c: nat)
    requires Inv(maxQueued, s) && c in s.calls && s.calls[c].phase == Settled
    ensures s.queued > 0
    ensures Step(maxQueued, s, CallLeaves(c))
         == s.(queued := s.queued - 1, calls := s.calls[c := s.calls[c].(phase := Left)])
  {
    LeaveInv(maxQueued, s, c);
  }

  ghost function WaitingCalls(s: State): set<nat> {
    set c | c in s.calls && s.calls[c].phase == Waiting
  }

  /** Only computations that settle and calls that leave. */
  ghost predicate Drains(events: seq<Event>) {
    forall e <- events :: e.ComputationSettles? || e.CallLeaves?
  }


  lemma SettlingLessens(maxQueued: nat, s: State, c: nat, r: Result)
    requires Inv(maxQueued, s) && c in WaitingCalls(s)
    ensures var t := Step(maxQueued, s, ComputationSettles(s.calls[c].computation, r));
            |WaitingCalls(t)| < |WaitingCalls(s)| && t.queued == s.queued && t.calls.Keys == s.calls.Keys
  {
    SettledByComputation(maxQueued, s, c, r);
    var t := Step(maxQueued, s, ComputationSettles(s.calls[c].computation, r));
    assert WaitingCalls(t) <= WaitingCalls(s) - {c};
    FewerOf(WaitingCalls(t), WaitingCalls(s), c);
  }

  lemma FewerOf(a: set<nat>, b: set<nat>, c: nat)
    requires a <= b - {c} && c in b
    ensures |a| < |b|
  {
    assert b == (b - {c}) + {c} && b - {c} == a + (b - {c} - a);
  }

  /** No call is stuck: from every state that can be reached, computations that settle and calls that leave empty the
      queue, with every call settled exactly once. */
  lemma {:induction false} QueueEmpties(maxQueued: nat, s: State, r: Result) returns (events: seq<Event>)
    requires Inv(maxQueued, s)
    ensures var t := Run(maxQueued, s, events);
            && Drains(events) && t.queued == 0 && t.calls.Keys == s.calls.Keys
            && forall c <- t.calls :: t.calls[c].phase == Left && |t.calls[c].settlements| == 1
    decreases |WaitingCalls(s)|, s.queued
  {
    if c :| c in WaitingCalls(s) {
      var e := ComputationSettles(s.calls[c].computation, r);
      SettlingLessens(maxQueued, s, c, r);
      events := QueueEmptiesAfter(maxQueued, s, e, r);
    } else if c :| c in s.calls && s.calls[c].phase == Settled {
      SettledCallLeaves(maxQueued, s, c);
      assert WaitingCalls(Step(maxQueued, s, CallLeaves(c))) == WaitingCalls(s);
      events := QueueEmptiesAfter(maxQueued, s, CallLeaves(c), r);
    } else {
      events := [];
      assert forall c <- s.calls :: c !in WaitingCalls(s);
      assert Admitted(s.calls) == {};
    }
  }

  lemma {:induction false} QueueEmptiesAfter(maxQueued: nat, s: State, e: Event, r: Result) returns (events: seq<Event>)
    requires Inv(maxQueued, s) && (e.ComputationSettles? || e.CallLeaves?)
    requires var t := Step(maxQueued, s, e);
             && t.calls.Keys == s.calls.Keys
             && (|| |WaitingCalls(t)| < |WaitingCalls(s)|
                 || (|WaitingCalls(t)| == |WaitingCalls(s)| && t.queued < s.queued))
    ensures var t := Run(maxQueued, s, events);
            && Drains(events) && t.queued == 0 && t.calls.Keys == s.calls.Keys
            && forall c <- t.calls :: t.calls[c].phase == Left && |t.calls[c].settlements| == 1
    decreases |WaitingCalls(s)|, s.queued, 0
  {
    StepInv(maxQueued, s, e);
    hide Inv, Step;
    var rest := QueueEmpties(maxQueued, Step(maxQueued, s, e), r);
    events := [e] + rest;
    assert events[1..] == rest;
  }

  ghost predicate NoCancellation(events: seq<Event>) {
    forall e <- events :: !e.SignalFires?
  }

  ghost predicate NoneAborted(s: State) {
    forall e <- s.computations :: !s.computations[e].aborted
  }

  lemma NoneAbortedStep(maxQueued: nat, s: State, e: Event)
    requires Inv(maxQueued, s) && NoneAborted(s) && !e.SignalFires?
    ensures NoneAborted(Step(maxQueued, s, e))
  {
    hide Begin;
    match e
    case CallBegins(key, signal) => BeginFrame(maxQueued, s, key, signal);
    case _ =>
  }

  /** Two running computations for the same key. */
  ghost predicate SameKeyRunning(s: State, d: nat, e: nat) {
    && d in s.computations && e in s.computations
    && s.computations[d].running && s.computations[e].running
    && s.computations[d].key == s.computations[e].key
  }

  /** In a run without cancellations at most one computation per key is running. */
  lemma {:induction false} SingleFlightWithoutCancellation(
      maxQueued: nat, s: State, events: seq<Event>, d: nat, e: nat)
    requires Inv(maxQueued, s) && SingleFlight(s) && NoneAborted(s) && NoCancellation(events)
    ensures SingleFlight(Run(maxQueued, s, events))
    ensures SameKeyRunning(Run(maxQueued, s, events), d, e) ==> d == e
    decreases events
  {
    if events == [] {
      assert SameKeyRunning(s, d, e) ==> Registered(s, d) && Registered(s, e);
    } else {
      assert events[0] in events && forall x <- events[1..] :: x in events;
      StepInv(maxQueued, s, events[0]);
      StepSingleFlightIff(maxQueued, s, events[0]);
      NoneAbortedStep(maxQueued, s, events[0]);
      hide Inv, Step;
      SingleFlightWithoutCancellation(maxQueued, Step(maxQueued, s, events[0]), events[1..], d, e);
    }
  }

  /** With cancellations two unaborted computations for one key can run at once. */
  lemma CancellationLosesSingleFlight(maxQueued: nat, key: string)
    requires maxQueued >= 3
    ensures var s := Run(maxQueued, INITIAL, [
              CallBegins(key, LiveSignal), SignalFires(0), CallBegins(key, NoSignal),
              ComputationSettles(0, Failed("aborted")), CallBegins(key, NoSignal)]);
            Joinable(s, 1, key) && Joinable(s, 2, key)
  {
    var e1, e2, e3 := CallBegins(key, LiveSignal), SignalFires(0), CallBegins(key, NoSignal);
    var e4 := ComputationSettles(0, Failed("aborted"));
    var s1 := Step(maxQueued, INITIAL, e1);
    assert s1.calls[0] == Call(key, 0, Waiting, []) && s1.listeners == {0};
    assert s1.inflight == map[key := 0] && s1.computations[0] == Computation(key, {0}, false, true);
    var s2 := Step(maxQueued, s1, e2);
    assert s2.inflight == map[] && s2.computations[0] == Computation(key, {}, true, true);
    assert s2.queued == 1 && s2.nextComputation == 1;
    var s3 := Step(maxQueued, s2, e3);
    assert s3.inflight == map[key := 1] && s3.nextComputation == 2;
    assert s3.computations[1].running && !s3.computations[1].aborted && s3.computations[1].key == key;
    assert s3.computations[0] == s2.computations[0] && s3.queued == 2;
    var s4 := Step(maxQueued, s3, e4);
    assert s4.inflight == map[] && s4.computations[1] == s3.computations[1];
    FiveEvents(maxQueued, INITIAL, e1, e2, e3, e4, e3);
  }

  lemma FiveEvents(maxQueued: nat, s: State, e1: Event, e2: Event, e3: Event, e4: Event, e5: Event)
    ensures Run(maxQueued, s, [e1, e2, e3, e4, e5])
         == Step(maxQueued, Step(maxQueued, Step(maxQueued, Step(maxQueued, Step(maxQueued, s, e1), e2), e3), e4), e5)
  {
    hide Step;
    var s1 := Step(maxQueued, s, e1);
    var s2 := Step(maxQueued, s1, e2);
    var s3 := Step(maxQueued, s2, e3);
    var s4 := Step(maxQueued, s3, e4);
    assert [e1, e2, e3, e4, e5][1..] == [e2, e3, e4, e5] && [e2, e3, e4, e5][1..] == [e3, e4, e5];
    assert [e3, e4, e5][1..] == [e4, e5] && [e4, e5][1..] == [e5] && [e5][1..] == [];
    assert Run(maxQueued, s4, [e5]) == Step(maxQueued, s4, e5);
    assert Run(maxQueued, s3, [e4, e5]) == Run(maxQueued, s4, [e5]);
    assert Run(maxQueued, s2, [e3, e4, e5]) == Run(maxQueued, s3, [e4, e5]);
    assert Run(maxQueued, s1, [e2, e3, e4, e5]) == Run(maxQueued, s2, [e3, e4, e5]);
  }
}
