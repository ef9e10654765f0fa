/** The request multiplexer and bounded queue of the FDX turbo engine as a state machine
    over any number of callers and computations. */
module TurboEngineModel {
  datatype Result = Value(text: string) | Failed(reason: string) | AbortedByCaller

  /** A waiting call has not been settled; a settled one has not yet run its `finally`. */
  datatype Phase = Waiting | Settled | Left

  datatype Signal = NoSignal | LiveSignal | AbortedSignal

  /** A call that was let into the queue, with every attempt to settle it. */
  datatype Call = Call(key: string, computation: nat, phase: Phase, settlements: seq<Result>)

  /** A shared computation: its subscribers, and whether its controller has been aborted. */
  datatype Computation = Computation(key: string, subscribers: set<nat>, aborted: bool, running: bool)

  datatype State = State(
    queued: nat,
    inflight: map<string, nat>,
    computations: map<nat, Computation>,
    nextComputation: nat,
    calls: map<nat, Call>,
    nextCall: nat,
    listeners: set<nat>)

  const INITIAL := State(0, map[], map[], 0, map[], 0, {})

  /** The computation a call for `key` shares: the registered one, or a new one. */
  function Share(s: State, key: string): (nat, State) {
    if key in s.inflight then (s.inflight[key], s)
    else
      var e := s.nextComputation;
      (e, s.(computations := s.computations[e := Computation(key, {}, false, true)],
             nextComputation := e + 1,
             inflight := s.inflight[key := e]))
  }

  function Subscribe(s: State, e: nat, c: nat): State {
    if e in s.computations
    then s.(computations := s.computations[e := s.computations[e].(subscribers := s.computations[e].subscribers + {c})])
    else s
  }

  /** A call: refused when the queue is full, otherwise multiplexed. A call whose signal has
      already fired is rejected, but the computation it started goes on without it. */
  function Begin(maxQueued: nat, s: State, key: string, signal: Signal): State {
    if s.queued >= maxQueued then s
    else
      var (e, t) := Share(s, key);
      var c := t.nextCall;
      var u := t.(queued := t.queued + 1, nextCall := c + 1);
      if signal.AbortedSignal?
      then u.(calls := u.calls[c := Call(key, e, Settled, [AbortedByCaller])])
      else Subscribe(
        u.(calls := u.calls[c := Call(key, e, Waiting, [])],
           listeners := if signal.LiveSignal? then u.listeners + {c} else u.listeners),
        e, c)
  }

  function SettleCall(c: Call, r: Result): Call {
    c.(phase := if c.phase == Waiting then Settled else c.phase, settlements := c.settlements + [r])
  }

  function SettleCalls(calls: map<nat, Call>, cs: set<nat>, r: Result): map<nat, Call> {
    map c | c in calls :: if c in cs then SettleCall(calls[c], r) else calls[c]
  }

  /** A computation settles: its key is deleted whichever computation it names by now,
      and every subscriber gets the result. */
  function Finish(s: State, e: nat, r: Result): State
    requires e in s.computations
  {
    var comp := s.computations[e];
    s.(inflight := s.inflight - {comp.key},
       computations := s.computations[e := comp.(running := false)],
       calls := SettleCalls(s.calls, comp.subscribers, r),
       listeners := s.listeners - comp.subscribers)
  }

  /** The abort listener of a call: the last subscriber to go aborts the computation. */
  function Abort(s: State, c: nat): State
    requires c in s.calls && s.calls[c].computation in s.computations
  {
    var e := s.calls[c].computation;
    var subscribers := s.computations[e].subscribers - {c};
    var last := subscribers == {};
    s.(computations := s.computations[e := s.computations[e].(
         subscribers := subscribers,
         aborted := last || s.computations[e].aborted)],
       inflight := if last then s.inflight - {s.calls[c].key} else s.inflight,
       listeners := s.listeners - {c},
       calls := s.calls[c := SettleCall(s.calls[c], AbortedByCaller)])
  }

  /** `leaveQueue`: the `finally` of a settled call. */
  function Leave(s: State, c: nat): State
    requires c in s.calls
  {
    s.(queued := if s.queued >= 1 then s.queued - 1 else 0, calls := s.calls[c := s.calls[c].(phase := Left)])
  }

  datatype Event =
    | CallBegins(key: string, signal: Signal)
    | ComputationSettles(computation: nat, result: Result)
    | SignalFires(call: nat)
    | CallLeaves(call: nat)

  predicate Enabled(s: State, e: Event) {
    match e
    case CallBegins(_, _) => true
    case ComputationSettles(comp, _) => comp in s.computations && s.computations[comp].running
    case SignalFires(c) => c in s.listeners && c in s.calls && s.calls[c].computation in s.computations
    case CallLeaves(c) => c in s.calls && s.calls[c].phase == Settled
  }

  /** One event. What cannot happen in a state changes nothing. */
  function Step(maxQueued: nat, s: State, e: Event): State {
    if !Enabled(s, e) then s
    else
      match e
      case CallBegins(key, signal) => Begin(maxQueued, s, key, signal)
      case ComputationSettles(comp, result) => Finish(s, comp, result)
      case SignalFires(c) => Abort(s, c)
      case CallLeaves(c) => Leave(s, c)
  }

  function Run(maxQueued: nat, s: State, events: seq<Event>): State
    decreases events
  {
    if events == [] then s else Run(maxQueued, Step(maxQueued, s, events[0]), events[1..])
  }
}
