/** How a verification ends: which reasons it finds, what becomes of the run it was made for, and what of a result for a
    run that has changed. */
module LiveVerificationOutcomes {
  import opened Options
  import opened LiveVerificationModel
  import opened LiveVerificationTheorems

  // ----- What an evaluation finds -----

  /** Every reason is recorded exactly if it holds, and the evidence is that of the required items. */
  lemma FindingsIff(r: Record, c: Content)
    ensures var e := Evaluate(r, c);
            var incomplete := !((exists item <- c.workItems :: item.isRequired)
                                && forall item <- c.workItems :: item.isRequired ==> item.isSatisfied);
            && e.id == r.id && e.stale == r.stale && e.validSha == r.validSha
            && (RequiredWorkIncomplete in e.reasons <==> incomplete)
            && (RequiredChildActive in e.reasons <==> c.activeRequired > 0)
            && (RequiredChildFailed in e.reasons <==> c.failedRequired > 0)
            && (CancellationUnresolved in e.reasons <==> c.cancelRequested > 0)
            && (DeferredUnresolved in e.reasons <==> c.deferredReplacement)
            && (NoDurableEvidence in e.reasons <==> e.evidenceIds == {})
            && (ChecksIncomplete in e.reasons <==> incomplete || c.activeRequired > 0)
            && (ChecksFailed in e.reasons <==>
                  || incomplete || c.activeRequired > 0 || c.failedRequired > 0 || c.cancelRequested > 0
                  || c.deferredReplacement)
            && StateChanged !in e.reasons
            && (forall id :: id in e.evidenceIds <==>
                  exists item <- c.workItems :: item.isRequired && id in item.evidenceIds)
  {
    hide Findings, RequiredEvidence;
    FindingIff(c);
    EvidenceIff(c);
  }

  /** Each reason for itself. */
  lemma FindingIff(c: Content)
    ensures forall x :: x in Findings(c) <==>
              match x
              case NoDurableEvidence => RequiredEvidence(c) == {}
              case ChecksIncomplete => Fails(c, RequiredWorkIncomplete) || c.activeRequired > 0
              case ChecksFailed => exists y :: Fails(c, y)
              case _ => Fails(c, x)
  {
    hide FailureReasons, RequiredEvidence;
    var reasons := FailureReasons(c);
    var found := set x <- reasons;
    forall x
      ensures x in found <==> Fails(c, x)
    {
      ReasonIff(c, x);
    }
    if reasons != [] {
      assert reasons[0] in found;
    }
    if y :| Fails(c, y) {
      assert y in found;
    }
  }

  lemma EvidenceIff(c: Content)
    ensures forall id :: id in RequiredEvidence(c) <==>
              exists item <- c.workItems :: item.isRequired && id in item.evidenceIds
  {
  }

  /** What one of the five failing checks looks at. */
  ghost predicate Fails(c: Content, x: Reason) {
    match x
    case RequiredWorkIncomplete =>
      !((exists item <- c.workItems :: item.isRequired)
        && forall item <- c.workItems :: item.isRequired ==> item.isSatisfied)
    case RequiredChildActive => c.activeRequired > 0
    case RequiredChildFailed => c.failedRequired > 0
    case CancellationUnresolved => c.cancelRequested > 0
    case DeferredUnresolved => c.deferredReplacement
    case _ => false
  }

  lemma ReasonIff(c: Content, x: Reason)
    ensures x in FailureReasons(c) <==> Fails(c, x)
  {
    var a := if RequiredSatisfied(c) then [] else [RequiredWorkIncomplete];
    var b := if c.activeRequired > 0 then [RequiredChildActive] else [];
    var d := if c.failedRequired > 0 then [RequiredChildFailed] else [];
    var e := if c.cancelRequested > 0 then [CancellationUnresolved] else [];
    var f := if c.deferredReplacement then [DeferredUnresolved] else [];
    assert FailureReasons(c) == a + b + d + e + f;
    hide FailureReasons;
    assert x in a + b + d + e + f <==> x in a || x in b || x in d || x in e || x in f;
  }

  // ----- A verification that nothing disturbs -----

  ghost function IdOf(fp: Content -> string, c: Content): Identity {
    Identity(c.aggregateVersion, fp(c))
  }

  /** Settled already by an earlier verification of the same state. */
  ghost predicate IsSettled(s: State, id: Identity) {
    id in s.records && (s.records[id].stale || s.records[id].status in {Passed, NotPassed})
  }

  /** The result for a verifying run: the one that is settled already, or that of an evaluation. */
  ghost function Verdict(fp: Content -> string, s: State, run: RunState): Record {
    var id := IdOf(fp, run.content);
    if IsSettled(s, id) then s.records[id]
    else
      Evaluate(if id in s.records then s.records[id] else Record(id, Pending, false, run.validSha, {}, {}), run.content)
  }

  ghost function Whole(v: nat): seq<Event> {
    [Starts(v)] + Continued(v, 5)
  }

  ghost function Continued(v: nat, n: nat): seq<Event> {
    seq(n, i => Continues(v))
  }

  lemma RunStarts(fp: Content -> string, s: State, e: Event, events: seq<Event>)
    ensures Run(fp, s, [e] + events) == Run(fp, Step(fp, s, e), events)
  {
    hide Step;
    assert ([e] + events)[1..] == events;
  }

  lemma RunContinues(fp: Content -> string, s: State, v: nat, n: nat)
    requires v in s.stages
    ensures Run(fp, s, Continued(v, 0)) == s
    ensures n > 0 ==> Run(fp, s, Continued(v, n)) == Run(fp, Continue(fp, s, v), Continued(v, n - 1))
  {
    hide Continue;
    if n > 0 {
      assert Continued(v, n)[1..] == Continued(v, n - 1);
    }
  }

  lemma {:induction false} DoneStays(fp: Content -> string, s: State, v: nat, n: nat)
    requires v in s.stages && s.stages[v].Done?
    ensures Run(fp, s, Continued(v, n)) == s
  {
    RunContinues(fp, s, v, n);
    if n > 0 {
      DoneStays(fp, s, v, n - 1);
    }
  }

  /** Nothing but the records and the stage of one verification has changed. */
  ghost predicate At(s: State, t: State, v: nat, stage: Stage, records: map<Identity, Record>) {
    t == s.(records := records, stages := s.stages[v := stage])
  }

  lemma Advances(
      fp: Content -> string, s: State, t: State, v: nat, stage: Stage, records: map<Identity, Record>,
      next: Stage, after: map<Identity, Record>)
    requires At(s, t, v, stage, records)
    requires Continue(fp, t, v) == t.(records := after, stages := t.stages[v := next])
    ensures At(s, Continue(fp, t, v), v, next, after)
  {
    hide Continue;
    assert t.stages[v := next] == s.stages[v := next];
  }

  /** A verification of a verifying run comes, undisturbed, to apply its result, which is stored. */
  lemma ComesToApply(fp: Content -> string, s: State, v: nat) returns (n: nat, t: State)
    requires v !in s.stages && s.run.Some? && s.run.value.content.phase == Verifying
    ensures 1 <= n <= 5 && Run(fp, s, Whole(v)) == Run(fp, t, Continued(v, n))
    ensures var r := Verdict(fp, s, s.run.value);
            At(s, t, v, Applying(r), s.records[IdOf(fp, s.run.value.content) := r])
  {
    hide Evaluate, Run, Apply;
    var run := s.run.value;
    var id, c := IdOf(fp, run.content), run.content;
    var requesting := Requesting(id, run.validSha);
    RunStarts(fp, s, Starts(v), Continued(v, 5));
    t := Step(fp, s, Starts(v));
    assert At(s, t, v, requesting, s.records);
    RunContinues(fp, t, v, 5);
    var records := Create(s.records, id, run.validSha);
    Advances(fp, s, t, v, requesting, s.records, Rechecking(id), records);
    t := Continue(fp, t, v);
    RunContinues(fp, t, v, 4);
    Advances(fp, s, t, v, Rechecking(id), records, Evaluating(id, c), records);
    t := Continue(fp, t, v);
    RunContinues(fp, t, v, 3);
    var r := Verdict(fp, s, run);
    if IsSettled(s, id) {
      Advances(fp, s, t, v, Evaluating(id, c), records, Applying(r), records);
      t, n := Continue(fp, t, v), 2;
      assert s.records[id := r] == records;
    } else {
      Advances(fp, s, t, v, Evaluating(id, c), records, Updating(id, c), records);
      t := Continue(fp, t, v);
      RunContinues(fp, t, v, 2);
      Advances(fp, s, t, v, Updating(id, c), records, Applying(r), records[id := r]);
      t, n := Continue(fp, t, v), 1;
      assert records[id := r] == s.records[id := r];
    }
  }

  /** The run is still in the state that the verification was made for. */
  ghost predicate Current(fp: Content -> string, s: State, id: Identity) {
    && s.run.Some? && s.run.value.content.phase == Verifying
    && s.run.value.content.aggregateVersion == id.version && fp(s.run.value.content) == id.fingerprint
  }

  /** A run in the state that a result was made for, once the result is applied: to recover if it is not a pass, and
      otherwise completed, unless the run is stalled or the verification has gone stale or names no commit or
      version. */
  ghost predicate Applied(run: RunState, r: Record, s: State, t: State) {
    var c := run.content;
    var next := c.aggregateVersion + 1;
    && (r.status != Passed ==>
          && t.run == Some(run.(content := c.(phase := Recovering, aggregateVersion := next)))
          && t.attempts == s.attempts && t.completions == s.completions)
    && (r.status == Passed ==>
          && t.attempts == s.attempts + [Attempt(c, r)]
          && if !run.stalled && !r.stale && r.validSha && c.aggregateVersion >= 1
             then
               && t.run == Some(run.(content := c.(phase := Completed, aggregateVersion := next)))
               && t.completions == s.completions + 1
             else t.run == s.run && t.completions == s.completions)
  }

  lemma CurrentResultIsApplied(fp: Content -> string, s: State, v: nat, r: Record)
    requires v in s.stages && s.stages[v] == Applying(r) && Current(fp, s, r.id)
    requires r.id in s.records && s.records[r.id] == r
    requires r.status == Passed ==> Good(s.run.value.content) && r.evidenceIds != {} && (!r.stale ==> r.reasons == {})
    ensures var t := Continue(fp, s, v);
            t.records == s.records && t.stages == s.stages[v := Done] && Applied(s.run.value, r, s, t)
  {
  }

  /** Undisturbed, a verification of a verifying run ends with its verdict stored. If that is not a pass the run goes
      on to recover. If it is, completing the run is attempted on it, and the run is completed unless it is stalled or
      the stored verification has gone stale or names no commit or version. */
  lemma UndisturbedVerification(fp: Content -> string, s: State, v: nat)
    requires Faithful(fp) && Inv(fp, s)
    requires v !in s.stages && s.run.Some? && s.run.value.content.phase == Verifying
    ensures var r, t := Verdict(fp, s, s.run.value), Run(fp, s, Whole(v));
            var id := IdOf(fp, s.run.value.content);
            && t.stages == s.stages[v := Done] && t.records == s.records[id := r]
            && (!IsSettled(s, id) ==> r.status == if Good(s.run.value.content) then Passed else NotPassed)
            && Applied(s.run.value, r, s, t)
  {
    var r := Verdict(fp, s, s.run.value);
    VerdictIsVouched(fp, s, s.run.value);
    var n, t := ComesToApply(fp, s, v);
    RunContinues(fp, t, v, n);
    AtApplying(fp, s, t, v, r);
    DoneStays(fp, Continue(fp, t, v), v, n - 1);
    hide *;
  }

  lemma AtApplying(fp: Content -> string, s: State, t: State, v: nat, r: Record)
    requires s.run.Some? && s.run.value.content.phase == Verifying && r.id == IdOf(fp, s.run.value.content)
    requires At(s, t, v, Applying(r), s.records[r.id := r])
    requires r.status == Passed ==> Good(s.run.value.content) && r.evidenceIds != {} && (!r.stale ==> r.reasons == {})
    ensures var u := Continue(fp, t, v);
            && u.stages == s.stages[v := Done] && u.records == s.records[r.id := r]
            && Applied(s.run.value, r, s, u)
  {
    hide Good, Continue;
    CurrentResultIsApplied(fp, t, v, r);
    assert t.stages[v := Done] == s.stages[v := Done];
  }

  lemma VerdictIsVouched(fp: Content -> string, s: State, run: RunState)
    requires Faithful(fp) && Inv(fp, s) && run.content.phase == Verifying
    ensures var c, r := run.content, Verdict(fp, s, run);
            && r.id == IdOf(fp, c)
            && (!IsSettled(s, r.id) ==> r.status == if Good(c) then Passed else NotPassed)
            && (r.status == Passed ==> Good(c) && r.evidenceIds != {} && (!r.stale ==> r.reasons == {}))
  {
    var c := run.content;
    var id := IdOf(fp, c);
    if IsSettled(s, id) {
      assert Vouched(fp, s.records[id]);
      if s.records[id].status == Passed {
        var d :| Seen(fp, id, d) && Good(d);
        assert d == c;
      }
    } else {
      PassesIffGood(if id in s.records then s.records[id] else Record(id, Pending, false, run.validSha, {}, {}), c);
    }
  }

  // ----- A run that has changed in the meantime -----

  /** The records once one of them is marked stale. */
  ghost predicate Marks(before: map<Identity, Record>, after: map<Identity, Record>, id: Identity) {
    && after.Keys == before.Keys
    && (forall other <- before :: other != id ==> after[other] == before[other])
    && (id in before ==>
          && after[id].stale
          && after[id] == before[id].(stale := true, reasons := after[id].reasons)
          && after[id].reasons == before[id].reasons + if before[id].stale then {} else {StateChanged})
  }

  /** A result for a state that the run has left is not applied: it is marked stale, unless the run has ended in a
      state with the same fingerprint. */
  lemma OutdatedResultIsDropped(fp: Content -> string, s: State, v: nat, r: Record)
    requires v in s.stages && s.stages[v] == Applying(r) && !Current(fp, s, r.id)
    ensures var t := Run(fp, s, Continued(v, 2));
            && t == s.(stages := s.stages[v := Done], records := t.records)
            && (if s.run.Some? && fp(s.run.value.content) == r.id.fingerprint
                   && (s.run.value.content.phase in {Completed, Failed, Cancelled})
                then t.records == s.records
                else Marks(s.records, t.records, r.id))
  {
    RunContinues(fp, s, v, 2);
    var u := Continue(fp, s, v);
    RunContinues(fp, u, v, 1);
    RunContinues(fp, Continue(fp, u, v), v, 0);
    assert u.stages[v := Done] == s.stages[v := Done];
    hide Run;
  }

  /** Nor is one evaluated, if the run has changed before that. */
  lemma OutdatedIsNotEvaluated(fp: Content -> string, s: State, v: nat, id: Identity)
    requires v in s.stages && s.stages[v] == Rechecking(id) && !Current(fp, s, id)
    ensures var t := Run(fp, s, Continued(v, 2));
            t == s.(stages := s.stages[v := Done], records := t.records) && Marks(s.records, t.records, id)
  {
    RunContinues(fp, s, v, 2);
    var u := Continue(fp, s, v);
    RunContinues(fp, u, v, 1);
    RunContinues(fp, Continue(fp, u, v), v, 0);
    assert u.stages[v := Done] == s.stages[v := Done];
    hide Run;
  }

  /** Without a run that is verifying there is nothing to do, and a verification starts only once. */
  lemma NothingToVerify(fp: Content -> string, s: State, v: nat)
    ensures v !in s.stages && !(s.run.Some? && s.run.value.content.phase == Verifying) ==>
              Step(fp, s, Starts(v)) == s.(stages := s.stages[v := Done])
    ensures v in s.stages ==> Step(fp, s, Starts(v)) == s
  {
  }

  /** A request that is not stored any more ends its verification. */
  lemma MissingRequestEnds(fp: Content -> string, s: State, v: nat, id: Identity, c: Content)
    requires v in s.stages && s.stages[v] in {Evaluating(id, c), Updating(id, c)} && id !in s.records
    ensures Step(fp, s, Continues(v)) == s.(stages := s.stages[v := Done])
  {
  }

  /** The completion policy by itself, whatever led to it: it lets a run be completed if and only if the run is
      verifying in a good state and not stalled, and the verification is stored for this very state, passed with
      evidence and without a reason, and not stale. */
  lemma PolicyIff(fp: Content -> string, run: RunState, records: map<Identity, Record>, id: Identity)
    ensures var c := run.content;
            !Blocked(fp, run, records, id) <==>
              && c.phase == Verifying && !run.stalled
              && (exists item <- c.workItems :: item.isRequired)
              && (forall item <- c.workItems :: item.isRequired ==> item.isSatisfied)
              && c.activeRequired == 0 && c.failedRequired == 0 && c.cancelRequested == 0 && !c.deferredReplacement
              && id in records
              && var r := records[id];
                 && r.id == IdOf(fp, c) && c.aggregateVersion >= 1
                 && r.status == Passed && !r.stale && r.validSha && r.evidenceIds != {} && r.reasons == {}
  {
  }

  /** The rest of the program may change a run in any way, except that an ended one stays in its phase. */
  lemma ChangeIff(fp: Content -> string, s: State, run: Option<RunState>)
    ensures var ended := s.run.Some? && s.run.value.content.phase in {Completed, Failed, Cancelled};
            Step(fp, s, Changes(run)) ==
              if ended ==> run.Some? && run.value.content.phase == s.run.value.content.phase
              then s.(run := run) else s
  {
  }

  // ----- A completed run -----

  ghost predicate IsCompleted(run: Option<RunState>) {
    run.Some? && run.value.content.phase == Completed
  }

  /** The rest of the program completes the run by itself. */
  ghost predicate Meddles(s: State, e: Event) {
    e.Changes? && IsCompleted(e.run) && !IsCompleted(s.run)
  }

  ghost predicate NobodyMeddles(fp: Content -> string, s: State, events: seq<Event>)
    decreases |events|
  {
    events != [] ==> !Meddles(s, events[0]) && NobodyMeddles(fp, Step(fp, s, events[0]), events[1..])
  }

  /** A completed run was completed by the last attempt. */
  ghost predicate CompletedByAttempt(s: State) {
    IsCompleted(s.run) ==> s.completions == 1 && s.attempts != []
  }

  lemma StepCompleted(fp: Content -> string, s: State, e: Event)
    requires Inv(fp, s) && CompletedByAttempt(s) && !Meddles(s, e)
    ensures CompletedByAttempt(Step(fp, s, e))
    ensures IsCompleted(s.run) ==> Step(fp, s, e).attempts == s.attempts
  {
    hide RecordsInv, StagesInv, Blocked;
  }

  lemma {:induction false} RunCompleted(fp: Content -> string, s: State, events: seq<Event>)
    requires Inv(fp, s) && CompletedByAttempt(s) && NobodyMeddles(fp, s, events)
    ensures CompletedByAttempt(Run(fp, s, events))
    decreases |events|
  {
    hide Inv, Step, CompletedByAttempt;
    if events != [] {
      StepInv(fp, s, events[0]);
      StepCompleted(fp, s, events[0]);
      RunCompleted(fp, Step(fp, s, events[0]), events[1..]);
    }
  }

  /** Unless the rest of the program completes it by itself, a run is completed only by the last attempt, and so
      with all required work satisfied and nothing pending. */
  lemma CompletedMeansGood(fp: Content -> string, events: seq<Event>)
    requires Faithful(fp) && NobodyMeddles(fp, INITIAL, events)
    ensures var s := Run(fp, INITIAL, events);
            IsCompleted(s.run) ==> s.completions == 1 && s.attempts != [] && Good(s.attempts[|s.attempts| - 1].content)
  {
    RunCompleted(fp, INITIAL, events);
    EveryAttemptIsGood(fp, events);
    var s := Run(fp, INITIAL, events);
    if IsCompleted(s.run) {
      assert s.attempts[|s.attempts| - 1] in s.attempts;
    }
  }
}
