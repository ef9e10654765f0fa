/** Completion is attempted only on a state that passed verification, whatever interleaves. */
module LiveVerificationTheorems {
  import opened Options
  import opened LiveVerificationModel

  /** The fingerprint tells contents apart. */
  ghost predicate Faithful(fp: Content -> string) {
    forall c, d :: fp(c) == fp(d) ==> c == d
  }

  /** What a passed verification promises of the state it was made for. */
  ghost predicate Good(c: Content) {
    && c.phase == Verifying
    && (exists item <- c.workItems :: item.isRequired)
    && (forall item <- c.workItems :: item.isRequired ==> item.isSatisfied)
    && (exists item <- c.workItems :: item.isRequired && item.evidenceIds != {})
    && c.activeRequired == 0
    && c.failedRequired == 0
    && c.cancelRequested == 0
    && !c.deferredReplacement
  }

  /** Evaluation passes exactly the good states. */
  lemma PassesIffGood(r: Record, c: Content)
    requires c.phase == Verifying
    ensures Evaluate(r, c).status == Passed <==> Good(c)
    ensures Evaluate(r, c).status == Passed ==> Evaluate(r, c).reasons == {} && Evaluate(r, c).evidenceIds != {}
  {
    var reasons := FailureReasons(c);
    if reasons != [] {
      assert reasons[0] in (set x <- reasons);
      assert ChecksFailed in Findings(c);
    }
    if RequiredEvidence(c) == {} {
      assert NoDurableEvidence in Findings(c);
      assert forall item <- c.workItems, id :: item.isRequired && id in item.evidenceIds ==> id in RequiredEvidence(c);
    } else {
      var id :| id in RequiredEvidence(c);
    }
  }

  /** The content was seen with this identity, ready for verification. */
  ghost predicate Seen(fp: Content -> string, id: Identity, c: Content) {
    c.aggregateVersion == id.version && fp(c) == id.fingerprint && c.phase == Verifying
  }

  /** A passed result vouches for a good state of its identity. */
  ghost predicate Vouched(fp: Content -> string, r: Record) {
    r.status == Passed ==>
      && r.evidenceIds != {}
      && exists c :: Seen(fp, r.id, c) && Good(c)
  }

  ghost predicate RecordsInv(fp: Content -> string, s: State) {
    forall id <- s.records ::
      && s.records[id].id == id
      && Vouched(fp, s.records[id])
      && (s.records[id].status == Passed && !s.records[id].stale ==> s.records[id].reasons == {})
  }

  ghost predicate StageInv(fp: Content -> string, s: State, st: Stage) {
    match st
    case Rechecking(id) => id in s.records
    case Evaluating(id, c) => id in s.records && Seen(fp, id, c)
    case Updating(id, c) => id in s.records && Seen(fp, id, c)
    case Applying(r) => Vouched(fp, r) && r.id in s.records
    case _ => true
  }

  ghost predicate StagesInv(fp: Content -> string, s: State) {
    forall v <- s.stages :: StageInv(fp, s, s.stages[v])
  }

  /** An attempt was made on a passed result whose version and fingerprint are those of the run. */
  ghost predicate Sound(fp: Content -> string, a: Attempt) {
    && a.result.status == Passed
    && Seen(fp, a.result.id, a.content)
    && Vouched(fp, a.result)
  }

  ghost predicate Inv(fp: Content -> string, s: State) {
    && RecordsInv(fp, s)
    && StagesInv(fp, s)
    && (forall a <- s.attempts :: Sound(fp, a))
    && s.completions <= 1
    && (s.completions == 1 ==> s.run.Some? && s.run.value.content.phase == Completed)
  }

  const INITIAL := State(None, map[], map[], [], 0)

  // ----- Every event keeps the invariant -----

  lemma CreateInv(fp: Content -> string, s: State, v: nat, id: Identity, validSha: bool)
    requires Inv(fp, s) && v in s.stages && s.stages[v] == Requesting(id, validSha)
    ensures Inv(fp, Continue(fp, s, v))
  {
    var t := Continue(fp, s, v);
    assert s.records.Keys <= t.records.Keys;
  }

  lemma UpdateInv(fp: Content -> string, s: State, v: nat, id: Identity, c: Content)
    requires Inv(fp, s) && v in s.stages && s.stages[v] == Updating(id, c)
    ensures Inv(fp, Continue(fp, s, v))
  {
    assert StageInv(fp, s, s.stages[v]);
    PassesIffGood(s.records[id], c);
    var r := Evaluate(s.records[id], c);
    assert Vouched(fp, r);
    var t := Continue(fp, s, v);
    assert t.records == s.records[id := r] && t.stages == s.stages[v := Applying(r)];
    assert t.records.Keys == s.records.Keys;
  }

  lemma ApplyInv(fp: Content -> string, s: State, v: nat, r: Record)
    requires Inv(fp, s) && v in s.stages && s.stages[v] == Applying(r)
    ensures Inv(fp, Continue(fp, s, v))
  {
    assert StageInv(fp, s, s.stages[v]);
  }

  lemma MarkStaleInv(fp: Content -> string, s: State, v: nat, id: Identity)
    requires Inv(fp, s) && v in s.stages && s.stages[v] == MarkingStale(id)
    ensures Inv(fp, Continue(fp, s, v))
  {
    var t := Continue(fp, s, v);
    assert t.records.Keys == s.records.Keys;
    if id in s.records {
      assert Vouched(fp, s.records[id]);
      assert t.records[id] == s.records[id].(stale := true, reasons := t.records[id].reasons);
    }
  }

  lemma ContinueInv(fp: Content -> string, s: State, v: nat)
    requires Inv(fp, s) && v in s.stages
    ensures Inv(fp, Continue(fp, s, v))
  {
    match s.stages[v]
    case Requesting(id, validSha) => CreateInv(fp, s, v, id, validSha);
    case Updating(id, c) => UpdateInv(fp, s, v, id, c);
    case Applying(r) => ApplyInv(fp, s, v, r);
    case MarkingStale(id) => MarkStaleInv(fp, s, v, id);
    case _ => assert StageInv(fp, s, s.stages[v]);
  }

  lemma StepInv(fp: Content -> string, s: State, e: Event)
    requires Inv(fp, s)
    ensures Inv(fp, Step(fp, s, e))
  {
    match e
    case Continues(v) => if v in s.stages { ContinueInv(fp, s, v); }
    case _ =>
  }

  lemma {:induction false} RunInv(fp: Content -> string, s: State, events: seq<Event>)
    requires Inv(fp, s)
    ensures Inv(fp, Run(fp, s, events))
    decreases events
  {
    if events != [] {
      StepInv(fp, s, events[0]);
      RunInv(fp, Step(fp, s, events[0]), events[1..]);
    }
  }

  // ----- The guarantees -----

  /** With a faithful fingerprint, every attempt to complete the run finds all required work satisfied,
      no required child active or failed, and no cancellation or deferred replacement pending. */
  lemma EveryAttemptIsGood(fp: Content -> string, events: seq<Event>)
    requires Faithful(fp)
    ensures forall a <- Run(fp, INITIAL, events).attempts ::
              && a.result.status == Passed
              && a.result.id == Identity(a.content.aggregateVersion, fp(a.content))
              && Good(a.content)
  {
    RunInv(fp, INITIAL, events);
    forall a | a in Run(fp, INITIAL, events).attempts
      ensures a.result.status == Passed
      ensures a.result.id == Identity(a.content.aggregateVersion, fp(a.content)) && Good(a.content)
    {
      assert Sound(fp, a);
      var c :| Seen(fp, a.result.id, c) && Good(c);
    }
  }

  /** The run is completed at most once, and stays completed. */
  lemma CompletedOnce(fp: Content -> string, events: seq<Event>)
    ensures var s := Run(fp, INITIAL, events);
            && s.completions <= 1
            && (s.completions == 1 ==> s.run.Some? && s.run.value.content.phase == Completed)
  {
    RunInv(fp, INITIAL, events);
  }

  /** Does this event attempt to complete the run? */
  ghost predicate Attempts(fp: Content -> string, s: State, e: Event) {
    |Step(fp, s, e).attempts| == |s.attempts| + 1
  }

  /** A passed result that is about to be applied is still stored as passed. */
  ghost predicate StoredInv(s: State) {
    forall v <- s.stages :: s.stages[v].Applying? && s.stages[v].result.status == Passed ==>
      s.stages[v].result.id in s.records && s.records[s.stages[v].result.id].status == Passed
  }

  /** Two verifications of one identity cannot disagree: both evaluate the same content. */
  lemma StepStored(fp: Content -> string, s: State, e: Event)
    requires Faithful(fp) && Inv(fp, s) && StoredInv(s)
    ensures StoredInv(Step(fp, s, e))
  {
    if e.Continues? && e.v in s.stages {
      match s.stages[e.v]
      case Requesting(id, validSha) => KeepsStored(fp, s, e.v);
      case Updating(id, c) => UpdateStored(fp, s, e.v, id, c);
      case MarkingStale(id) => KeepsStored(fp, s, e.v);
      case _ =>
    }
  }

  /** Creating a record or marking it stale changes no stored status. */
  lemma KeepsStored(fp: Content -> string, s: State, v: nat)
    requires StoredInv(s) && v in s.stages && (s.stages[v].Requesting? || s.stages[v].MarkingStale?)
    ensures StoredInv(Continue(fp, s, v))
  {
    var t := Continue(fp, s, v);
    assert forall id <- s.records :: id in t.records && t.records[id].status == s.records[id].status;
  }

  lemma UpdateStored(fp: Content -> string, s: State, v: nat, id: Identity, c: Content)
    requires Faithful(fp) && Inv(fp, s) && StoredInv(s) && v in s.stages && s.stages[v] == Updating(id, c)
    ensures StoredInv(Continue(fp, s, v))
  {
    var t := Continue(fp, s, v);
    assert StageInv(fp, s, s.stages[v]);
    forall u | u in t.stages && t.stages[u].Applying? && t.stages[u].result.status == Passed
      ensures t.stages[u].result.id in t.records && t.records[t.stages[u].result.id].status == Passed
    {
      var r := t.stages[u].result;
      if u != v && r.id == id {
        assert StageInv(fp, s, s.stages[u]) && Vouched(fp, r);
        var d :| Seen(fp, id, d) && Good(d);
        assert c == d;
        PassesIffGood(s.records[id], c);
      }
    }
  }

  lemma {:induction false} RunStored(fp: Content -> string, s: State, events: seq<Event>)
    requires Faithful(fp) && Inv(fp, s) && StoredInv(s)
    ensures StoredInv(Run(fp, s, events))
    decreases events
  {
    if events != [] {
      StepInv(fp, s, events[0]);
      StepStored(fp, s, events[0]);
      RunStored(fp, Step(fp, s, events[0]), events[1..]);
    }
  }

  /** The checks that the completion policy repeats never stop an attempt: it completes the run unless the run
      is stalled, or the stored verification has gone stale or names no commit or no version. */
  lemma AttemptCompletesIff(fp: Content -> string, events: seq<Event>, v: nat)
    requires Faithful(fp) && Attempts(fp, Run(fp, INITIAL, events), Continues(v))
    ensures var s := Run(fp, INITIAL, events);
            && v in s.stages && s.stages[v].Applying? && s.run.Some? && s.stages[v].result.id in s.records
            && var r := s.records[s.stages[v].result.id];
               (Step(fp, s, Continues(v)).completions == s.completions + 1
                <==> !s.run.value.stalled && !r.stale && r.validSha && r.id.version >= 1)
  {
    var s := Run(fp, INITIAL, events);
    RunInv(fp, INITIAL, events);
    RunStored(fp, INITIAL, events);
    assert StageInv(fp, s, s.stages[v]);
    var c :| Seen(fp, s.stages[v].result.id, c) && Good(c);
    assert c == s.run.value.content;
  }
}
