/** `runLiveVerification` as an object: each method is the code between two of its awaits, and is proved to
    make the step of `LiveVerificationModel`. */
module LiveVerification {
  import opened Options
  import opened LiveVerificationModel
  import opened LiveVerificationTheorems

  /** The reasons are pushed one after the other. */
  method PushFailureReasons(snapshot: Content) returns (reasons: seq<Reason>)
    ensures reasons == FailureReasons(snapshot)
  {
    reasons := [];
    var satisfied := RequiredSatisfied(snapshot);
    if !satisfied {
      reasons := reasons + [RequiredWorkIncomplete];
    }
    if snapshot.activeRequired > 0 {
      reasons := reasons + [RequiredChildActive];
    }
    if snapshot.failedRequired > 0 {
      reasons := reasons + [RequiredChildFailed];
    }
    if snapshot.cancelRequested > 0 {
      reasons := reasons + [CancellationUnresolved];
    }
    if snapshot.deferredReplacement {
      reasons := reasons + [DeferredUnresolved];
    }
  }

  class LiveVerifications {
    const fp: Content -> string
    var run: Option<RunState>
    var records: map<Identity, Record>
    var stages: map<nat, Stage>
    var attempts: seq<Attempt>
    var completions: nat

    ghost function Model(): State
      reads this
    {
      State(run, records, stages, attempts, completions)
    }

    constructor (fp: Content -> string)
      ensures this.fp == fp && Model() == INITIAL && Inv(fp, Model())
    {
      this.fp := fp;
      run, records, stages, attempts, completions := None, map[], map[], [], 0;
    }

    /** Anything else that happens to the run. */
    method Change(after: Option<RunState>)
      requires Inv(fp, Model()) && MayChange(run, after)
      modifies this`run
      ensures Model() == Step(fp, old(Model()), Changes(after)) && Inv(fp, Model())
    {
      StepInv(fp, Model(), Changes(after));
      run := after;
    }

    method BeginVerification(v: nat)
      requires Inv(fp, Model()) && v !in stages
      modifies this`stages
      ensures Model() == Step(fp, old(Model()), Starts(v)) && Inv(fp, Model())
    {
      hide Inv;
      StepInv(fp, Model(), Starts(v));
      if run.None? || run.value.content.phase != Verifying {
        stages := stages[v := Done];
      } else {
        var id := Identity(run.value.content.aggregateVersion, fp(run.value.content));
        stages := stages[v := Requesting(id, run.value.validSha)];
      }
    }

    method RequestVerification(v: nat)
      requires Inv(fp, Model()) && v in stages && stages[v].Requesting?
      modifies this
      ensures Model() == Step(fp, old(Model()), Continues(v)) && Inv(fp, Model())
    {
      hide Inv;
      StepInv(fp, Model(), Continues(v));
      var id, validSha := stages[v].id, stages[v].validSha;
      if id !in records {
        records := records[id := Record(id, Pending, false, validSha, {}, {})];
      }
      stages := stages[v := Rechecking(id)];
    }

    method RecheckState(v: nat)
      requires Inv(fp, Model()) && v in stages && stages[v].Rechecking?
      modifies this`stages
      ensures Model() == Step(fp, old(Model()), Continues(v)) && Inv(fp, Model())
    {
      hide Inv;
      StepInv(fp, Model(), Continues(v));
      var id := stages[v].id;
      if run.None? {
        stages := stages[v := MarkingStale(id)];
        return;
      }
      var snapshot := run.value.content;
      if snapshot.aggregateVersion != id.version || fp(snapshot) != id.fingerprint || snapshot.phase != Verifying {
        stages := stages[v := MarkingStale(id)];
      } else {
        stages := stages[v := Evaluating(id, snapshot)];
      }
    }

    method ReadVerification(v: nat)
      requires Inv(fp, Model()) && v in stages && stages[v].Evaluating?
      modifies this`stages
      ensures Model() == Step(fp, old(Model()), Continues(v)) && Inv(fp, Model())
    {
      hide Inv;
      StepInv(fp, Model(), Continues(v));
      var id, snapshot := stages[v].id, stages[v].snapshot;
      if id !in records {
        stages := stages[v := Done];
      } else if records[id].stale || records[id].status != Pending {
        stages := stages[v := Applying(records[id])];
      } else {
        stages := stages[v := Updating(id, snapshot)];
      }
    }

    method UpdateVerification(v: nat)
      requires Inv(fp, Model()) && v in stages && stages[v].Updating?
      modifies this
      ensures Model() == Step(fp, old(Model()), Continues(v)) && Inv(fp, Model())
    {
      hide Inv;
      StepInv(fp, Model(), Continues(v));
      var id, snapshot := stages[v].id, stages[v].snapshot;
      if id !in records {
        stages := stages[v := Done];
        return;
      }
      var pushed := PushFailureReasons(snapshot);
      var evidence := RequiredEvidence(snapshot);
      var reasons := set r <- pushed;
      if evidence == {} {
        reasons := reasons + {NoDurableEvidence};
      }
      if !(RequiredSatisfied(snapshot) && snapshot.activeRequired == 0) {
        reasons := reasons + {ChecksIncomplete};
      }
      if pushed != [] {
        reasons := reasons + {ChecksFailed};
      }
      assert reasons == Findings(snapshot);
      var status := if reasons == {} then Passed else NotPassed;
      var updated := records[id].(status := status, evidenceIds := evidence, reasons := reasons);
      records := records[id := updated];
      stages := stages[v := Applying(updated)];
    }

    method ApplyResult(v: nat)
      requires Inv(fp, Model()) && v in stages && stages[v].Applying?
      modifies this
      ensures Model() == Step(fp, old(Model()), Continues(v)) && Inv(fp, Model())
    {
      hide Inv;
      StepInv(fp, Model(), Continues(v));
      var r := stages[v].result;
      if run.None? || fp(run.value.content) != r.id.fingerprint {
        stages := stages[v := MarkingStale(r.id)];
        return;
      }
      var snapshot := run.value.content;
      if Terminal(snapshot.phase) {
        stages := stages[v := Done];
      } else if snapshot.phase != Verifying || snapshot.aggregateVersion != r.id.version {
        stages := stages[v := MarkingStale(r.id)];
      } else if r.status != Passed {
        run := Some(Advance(run.value, Recovering));
        stages := stages[v := Done];
      } else {
        EvaluateAndComplete(r);
        stages := stages[v := Done];
      }
    }

    /** The completion policy, in its transaction. */
    method EvaluateAndComplete(r: Record)
      requires run.Some?
      modifies this`run, this`attempts, this`completions
      ensures attempts == old(attempts) + [Attempt(old(run).value.content, r)]
      ensures Blocked(fp, old(run).value, records, r.id) ==> run == old(run) && completions == old(completions)
      ensures !Blocked(fp, old(run).value, records, r.id) ==>
                run == Some(Advance(old(run).value, Completed)) && completions == old(completions) + 1
    {
      attempts := attempts + [Attempt(run.value.content, r)];
      if Blocked(fp, run.value, records, r.id) {
        return;
      }
      run := Some(Advance(run.value, Completed));
      completions := completions + 1;
    }

    method MarkVerificationStale(v: nat)
      requires Inv(fp, Model()) && v in stages && stages[v].MarkingStale?
      modifies this
      ensures Model() == Step(fp, old(Model()), Continues(v)) && Inv(fp, Model())
    {
      hide Inv;
      StepInv(fp, Model(), Continues(v));
      var id := stages[v].id;
      if id in records && !records[id].stale {
        records := records[id := records[id].(stale := true, reasons := records[id].reasons + {StateChanged})];
      }
      stages := stages[v := Done];
    }
  }
}
