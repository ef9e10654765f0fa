/** What the daemon answers to every request, in terms of a plain map; what a daemon reads back from any file; and what
    a failed write leaves behind. */
module KeyValueAnswers {
  import opened Options
  import opened KeyValueModel
  import opened KeyValueTheorems

  // ----- Answers -----

  /** Why a request is turned away before its method is looked at, if it is. */
  ghost function Malformed(workspaceIds: string -> Option<string>, r: Request): Option<Error> {
    if !(r.id.Some? && Units(r.id.value) <= 200 && r.method_.Some? && r.workspace.Some?) then Some(InvalidRequest)
    else if workspaceIds(r.workspace.value) == None then Some(WorkspaceEscape)
    else if r.key == NoKey || (r.key.Text? && Units(r.key.text) <= 500 && '\0' !in r.key.text) then None
    else Some(InvalidKey)
  }

  /** The key of a request: its workspace, and its own key unless that is missing or empty. */
  ghost function Address(workspaceIds: string -> Option<string>, r: Request): string
    requires Understood(workspaceIds, r)
  {
    var id := workspaceIds(r.workspace.value).value;
    match r.key
    case Text(key) => if |key| == 0 then id else id + ":" + key
    case _ => id
  }

  /** The size test of the state file. */
  ghost predicate Fits(limits: Limits, values: Values) {
    TextBytes(values) <= limits.maxEntries * limits.maxValueBytes
  }

  lemma {:induction false} KeysSize(values: Values)
    requires Distinct(values)
    ensures |Keys(values)| == |values|
  {
    if values != [] {
      var rest := values[1..];
      assert forall i :: 0 <= i < |rest| ==> rest[i] == values[i + 1];
      assert !Has(rest, values[0].key);
      KeysSize(rest);
    }
  }

  lemma KeysAreEntries(values: Values)
    requires Distinct(values)
    ensures |AsMap(values)| == |values|
  {
    KeysSize(values);
    assert AsMap(values).Keys == Keys(values);
    assert |AsMap(values)| == |AsMap(values).Keys|;
    hide *;
  }

  /** A request that is turned away, or whose method is not for this daemon, gets its error and changes nothing. */
  lemma RefusalIff(limits: Limits, workspaceIds: string -> Option<string>, s: State, r: Request, io: Io)
    ensures var (t, reply) := Execute(limits, workspaceIds, s, r, io);
            var why := Malformed(workspaceIds, r);
            && (why.Some? ==> t == s && reply == Err(why.value))
            && (why == None ==>
                  var m := r.method_.value;
                  && (m in {"search", "outline", "impact"} ==> t == s && reply == Err(CodeIndexUnavailable))
                  && (m !in {"search", "outline", "impact", "health", "get", "put", "invalidate"} ==>
                        t == s && reply == Err(MethodNotAllowed)))
  {
  }

  /** A request that only reads is answered from the map. */
  lemma ReadAnswer(limits: Limits, workspaceIds: string -> Option<string>, s: State, r: Request, io: Io)
    requires Inv(limits, s) && Malformed(workspaceIds, r) == None && r.method_.value in {"get", "health"}
    ensures var (t, reply) := Execute(limits, workspaceIds, s, r, io);
            var m, key := AsMap(s.values), Address(workspaceIds, r);
            && t == s
            && reply == Ok(if r.method_.value == "health" then Health(|m|)
                           else Value(if key in m then Some(m[key]) else None))
  {
    var key := Address(workspaceIds, r);
    KeysAreEntries(s.values);
    MapGet(s.values, key);
    assert KeyOf(workspaceIds(r.workspace.value).value, r.key) == key;
    hide Inv, AsMap, Keys, Get, Units, Persist, Without, Set, Bytes, Has, KeyOf;
  }

  /** A put is refused for a value that is not JSON or is too large, for a new key in a full map, or for a file that
      would get too large; any other put whose write succeeds is carried out. */
  lemma PutAnswerIff(limits: Limits, workspaceIds: string -> Option<string>, s: State, r: Request)
    requires Inv(limits, s) && Malformed(workspaceIds, r) == None && r.method_.value == "put"
    ensures var (t, reply) := Execute(limits, workspaceIds, s, r, Succeeds);
            var m, key := AsMap(s.values), Address(workspaceIds, r);
            if r.value == None then t == s && reply == Err(NotJson)
            else if Bytes(r.value.value) > limits.maxValueBytes then t == s && reply == Err(ValueLimit)
            else if key !in m && |m| >= limits.maxEntries then t == s && reply == Err(CacheLimit)
            else if !Fits(limits, Set(s.values, key, r.value.value)) then t == s && reply == Err(CacheLimit)
            else
              && reply == Ok(Done) && AsMap(t.values) == m[key := r.value.value]
              && t.disk == Disk(Some(Written(t.values)), None)
  {
    hide Bytes, Units, TextBytes, AsMap, Keys;
    var key := Address(workspaceIds, r);
    KeysAreEntries(s.values);
    MapGet(s.values, key);
    GetIffHas(s.values, key);
    if r.value.Some? {
      SetIsUpdate(s.values, key, r.value.value);
      SetProperties(s.values, key, r.value.value);
    }
  }

  /** An invalidation is refused only for a file that would still be too large; otherwise, if its write succeeds, the
      keys that begin with its own are gone and no others. */
  lemma InvalidateAnswerIff(limits: Limits, workspaceIds: string -> Option<string>, s: State, r: Request)
    requires Inv(limits, s) && Malformed(workspaceIds, r) == None && r.method_.value == "invalidate"
    ensures var (t, reply) := Execute(limits, workspaceIds, s, r, Succeeds);
            var m, key := AsMap(s.values), Address(workspaceIds, r);
            if !Fits(limits, Without(s.values, key)) then t == s && reply == Err(CacheLimit)
            else
              && reply == Ok(Done) && AsMap(t.values) == (map k | k in m && !(key <= k) :: m[k])
              && t.disk == Disk(Some(Written(t.values)), None)
  {
    hide Units, TextBytes, AsMap, Keys;
    var key := Address(workspaceIds, r);
    WithoutIsRestriction(limits, s.values, key);
    WithoutProperties(limits, s.values, key);
  }

  /** Two workspaces with identities of one length never share a key, nor do two keys of one workspace. */
  lemma AddressIff(workspaceIds: string -> Option<string>, r: Request, q: Request)
    requires Understood(workspaceIds, r) && Understood(workspaceIds, q)
    requires |workspaceIds(r.workspace.value).value| == |workspaceIds(q.workspace.value).value|
    ensures KeyOf(workspaceIds(r.workspace.value).value, r.key) == KeyOf(workspaceIds(q.workspace.value).value, q.key)
       <==> && workspaceIds(r.workspace.value) == workspaceIds(q.workspace.value)
            && (if r.key.Text? then r.key.text else "") == (if q.key.Text? then q.key.text else "")
  {
    var a, b := workspaceIds(r.workspace.value).value, workspaceIds(q.workspace.value).value;
    var k, l := KeyOf(a, r.key), KeyOf(b, q.key);
    assert k[..|a|] == a && l[..|b|] == b;
    if r.key.Text? && r.key.text != "" {
      assert k[|a| + 1..] == r.key.text;
    }
    if q.key.Text? && q.key.text != "" {
      assert l[|b| + 1..] == q.key.text;
    }
  }

  // ----- Failed writes -----

  /** A write that fails leaves the state file, and only the temporary file shows how far it came. */
  lemma FailedWriteLeaves(limits: Limits, workspaceIds: string -> Option<string>, s: State, r: Request, io: Io)
    requires Inv(limits, s) && PlanOf(limits, workspaceIds, s.values, r).Write? && !io.Succeeds?
    ensures var (t, reply) := Execute(limits, workspaceIds, s, r, io);
            var next := PlanOf(limits, workspaceIds, s.values, r).next;
            && t.values == s.values && t.disk.file == s.disk.file
            && reply == Err(if Fits(limits, next) then IoFailure else CacheLimit)
            && t.disk.temporary ==
                 if Fits(limits, next) && io == WriteFails then Some(Torn)
                 else if Fits(limits, next) && io == RenameFails then Some(Written(next))
                 else s.disk.temporary
  {
    PlanIsEffect(limits, workspaceIds, s, r);
  }

  /** The same but for the temporary file. */
  ghost predicate Alike(s: State, t: State) {
    s.values == t.values && s.disk.file == t.disk.file
  }

  lemma StepsAlike(limits: Limits, workspaceIds: string -> Option<string>, s: State, t: State, e: Event)
    requires Alike(s, t)
    ensures Alike(Step(limits, workspaceIds, s, e), Step(limits, workspaceIds, t, e))
    ensures e.Handle? ==>
              Execute(limits, workspaceIds, s, e.request, e.io).1 == Execute(limits, workspaceIds, t, e.request, e.io).1
  {
    hide Load, PlanOf, TextBytes, LastEntries;
  }

  /** What is in the temporary file never matters. */
  lemma {:induction false} TemporaryIsIgnored(
      limits: Limits, workspaceIds: string -> Option<string>, s: State, t: State, events: seq<Event>)
    requires Alike(s, t)
    ensures Alike(Run(limits, workspaceIds, s, events), Run(limits, workspaceIds, t, events))
    decreases |events|
  {
    hide Alike, Step;
    if events != [] {
      var n := |events| - 1;
      TemporaryIsIgnored(limits, workspaceIds, s, t, events[..n]);
      StepsAlike(
        limits, workspaceIds, Run(limits, workspaceIds, s, events[..n]), Run(limits, workspaceIds, t, events[..n]),
        events[n]);
    }
  }

  // ----- Reading any file -----

  /** The last entry for a key that is small enough. */
  ghost predicate IsLastFitting(limits: Limits, entries: Values, key: string, i: int) {
    && 0 <= i < |entries| && entries[i].key == key && Units(entries[i].value) <= limits.maxValueBytes
    && forall j :: i < j < |entries| ==> entries[j].key != key || Units(entries[j].value) > limits.maxValueBytes
  }

  /** A daemon that starts on a file, whoever wrote it, holds for each key the last of its values that is small
      enough, and nothing else. */
  lemma {:induction false} LoadHolds(limits: Limits, entries: Values, key: string)
    ensures (exists i :: IsLastFitting(limits, entries, key, i)) <==> Get(Load(limits, entries), key).Some?
    ensures forall i :: IsLastFitting(limits, entries, key, i) ==>
              Get(Load(limits, entries), key) == Some(entries[i].value)
    decreases |entries|
  {
    hide Units;
    if entries != [] {
      var n := |entries| - 1;
      var e := entries[n];
      LoadHolds(limits, entries[..n], key);
      var before := Load(limits, entries[..n]);
      SetProperties(before, e.key, e.value);
      if e.key == key && Units(e.value) <= limits.maxValueBytes {
        assert IsLastFitting(limits, entries, key, n);
      } else {
        assert forall i :: IsLastFitting(limits, entries, key, i) <==> IsLastFitting(limits, entries[..n], key, i);
      }
    }
  }

  /** So after a restart; a missing or torn file is an empty one. */
  lemma RestartHolds(limits: Limits, workspaceIds: string -> Option<string>, s: State, key: string)
    ensures var t := Step(limits, workspaceIds, s, Restart);
            && t.disk == s.disk
            && (if s.disk.file.Some? && s.disk.file.value.Written?
                then
                  var entries := s.disk.file.value.entries;
                  && ((exists i :: IsLastFitting(limits, entries, key, i)) <==> Get(t.values, key).Some?)
                  && (forall i :: IsLastFitting(limits, entries, key, i) ==>
                        Get(t.values, key) == Some(entries[i].value))
                else t.values == [])
  {
    hide IsLastFitting;
    if s.disk.file.Some? && s.disk.file.value.Written? {
      LoadHolds(limits, s.disk.file.value.entries, key);
    }
  }

  /** What is written is the end of the list, as much of it as may be kept; a limit of none keeps all of it. */
  lemma LastEntriesAre(values: Values, n: nat)
    ensures n == 0 ==> LastEntries(values, n) == values
    ensures n > 0 ==> |LastEntries(values, n)| == if |values| < n then |values| else n
    ensures LastEntries(values, n) == values[|values| - |LastEntries(values, n)|..]
  {
  }
}
