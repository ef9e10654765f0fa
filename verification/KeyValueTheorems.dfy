/** What the key/value daemon keeps over every run: its file and its memory agree, what it has acknowledged
    survives, and workspaces do not see each other. */
module KeyValueTheorems {
  import opened Options
  import opened KeyValueModel

  // ----- An independent account: a plain map -----

  function AsMap(values: Values): map<string, string> {
    map k | k in Keys(values) :: Get(values, k).value
  }

  function Keys(values: Values): (r: set<string>)
    ensures forall k :: k in r <==> Has(values, k)
    ensures forall k <- r :: Get(values, k).Some?
  {
    if values == [] then {}
    else
      assert forall k :: Has(values, k) <==> values[0].key == k || Has(values[1..], k) by {
        assert forall i :: 0 < i < |values| ==> values[1..][i - 1] == values[i];
      }
      {values[0].key} + Keys(values[1..])
  }

  /** What a request that is carried out does to the map. */
  function Effect(workspaceIds: string -> Option<string>, m: map<string, string>, r: Request): map<string, string>
    requires r.workspace.Some? && workspaceIds(r.workspace.value).Some?
  {
    var key := KeyOf(workspaceIds(r.workspace.value).value, r.key);
    if r.method_ == Some("put") && r.value.Some? then m[key := r.value.value]
    else if r.method_ == Some("invalidate") then map k | k in m && !(key <= k) :: m[k]
    else m
  }

  predicate Understood(workspaceIds: string -> Option<string>, r: Request) {
    r.workspace.Some? && workspaceIds(r.workspace.value).Some?
  }

  predicate Acknowledged(limits: Limits, workspaceIds: string -> Option<string>, s: State, e: Event) {
    e.Handle? && Execute(limits, workspaceIds, s, e.request, e.io).1.Ok?
  }

  /** A process that dies after the rename has carried its request out without saying so. */
  predicate Landed(limits: Limits, workspaceIds: string -> Option<string>, s: State, e: Event) {
    e.Dies? && e.at == AfterRename && Execute(limits, workspaceIds, s, e.request, Succeeds).1.Ok?
  }

  // ----- The invariant -----

  ghost predicate Distinct(values: Values) {
    forall i, j :: 0 <= i < j < |values| ==> values[i].key != values[j].key
  }

  ghost predicate Fit(limits: Limits, values: Values) {
    forall e <- values :: Units(e.value) <= limits.maxValueBytes
  }

  ghost predicate Inv(limits: Limits, s: State) {
    && Distinct(s.values)
    && Fit(limits, s.values)
    && |s.values| <= limits.maxEntries
    && Loaded(limits, s.disk) == s.values
  }

  lemma InitialInv(limits: Limits, temporary: Option<File>)
    ensures Inv(limits, Restarted(limits, Disk(None, temporary)))
  {
  }

  lemma {:induction false} UnitsWithinBytes(s: string)
    ensures Units(s) <= Bytes(s)
  {
    if s != [] {
      UnitsWithinBytes(s[1..]);
    }
  }

  // ----- Map operations -----

  lemma {:induction false} SetProperties(values: Values, key: string, value: string)
    ensures forall k :: Has(Set(values, key, value), k) <==> k == key || Has(values, k)
    ensures forall k :: Get(Set(values, key, value), k) == if k == key then Some(value) else Get(values, k)
    ensures Has(values, key) ==> |Set(values, key, value)| == |values|
    ensures !Has(values, key) ==> Set(values, key, value) == values + [Entry(key, value)]
  {
    if values == [] {
      assert Set(values, key, value)[0].key == key;
    } else {
      HasFirst(values);
      HasFirst(Set(values, key, value));
      if values[0].key != key {
        SetProperties(values[1..], key, value);
        assert values == [values[0]] + values[1..];
      }
    }
  }

  lemma HasFirst(values: Values)
    requires values != []
    ensures forall k :: Has(values, k) <==> values[0].key == k || Has(values[1..], k)
  {
    assert forall i :: 0 < i < |values| ==> values[1..][i - 1] == values[i];
  }

  lemma {:induction false} SetFits(limits: Limits, values: Values, key: string, value: string)
    requires Fit(limits, values) && Units(value) <= limits.maxValueBytes
    ensures Fit(limits, Set(values, key, value))
  {
    if values != [] && values[0].key != key {
      assert forall e <- values[1..] :: e in values;
      SetFits(limits, values[1..], key, value);
    }
  }

  lemma DistinctFirst(values: Values)
    requires values != []
    ensures Distinct(values) <==> !Has(values[1..], values[0].key) && Distinct(values[1..])
  {
    var rest := values[1..];
    assert forall i :: 0 <= i < |rest| ==> rest[i] == values[i + 1];
    assert forall i :: 0 < i < |values| ==> values[i] == rest[i - 1];
  }

  lemma {:induction false} SetIsDistinct(values: Values, key: string, value: string)
    requires Distinct(values)
    ensures Distinct(Set(values, key, value))
  {
    if values != [] {
      hide Distinct, Has;
      DistinctFirst(values);
      var t := Set(values, key, value);
      DistinctFirst(t);
      if values[0].key == key {
        assert t[1..] == values[1..];
      } else {
        assert t[1..] == Set(values[1..], key, value);
        SetIsDistinct(values[1..], key, value);
        SetProperties(values[1..], key, value);
      }
    }
  }

  lemma {:induction false} WithoutProperties(limits: Limits, values: Values, prefix: string)
    requires Distinct(values) && Fit(limits, values)
    ensures var w := Without(values, prefix);
            && Distinct(w) && Fit(limits, w) && |w| <= |values|
            && forall k ::
                 && (Has(w, k) <==> Has(values, k) && !(prefix <= k))
                 && (Has(w, k) ==> Get(w, k) == Get(values, k))
  {
    if values != [] {
      var rest := values[1..];
      WithoutProperties(limits, rest, prefix);
      HasFirst(values);
      assert !Has(rest, values[0].key) by {
        assert forall i :: 0 <= i < |rest| ==> rest[i] == values[i + 1];
      }
      if !(prefix <= values[0].key) {
        HasFirst(Without(values, prefix));
      }
    }
  }

  // ----- Every step -----

  /** Loading what was written gives it back, in order. */
  lemma {:induction false} LoadIsIdentity(limits: Limits, entries: Values)
    requires Distinct(entries) && Fit(limits, entries)
    ensures Load(limits, entries) == entries
    decreases |entries|
  {
    if entries != [] {
      var n := |entries| - 1;
      LoadIsIdentity(limits, entries[..n]);
      SetProperties(entries[..n], entries[n].key, entries[n].value);
      assert entries == entries[..n] + [entries[n]];
    }
  }

  lemma SetIsUpdate(values: Values, key: string, value: string)
    ensures AsMap(Set(values, key, value)) == AsMap(values)[key := value]
  {
    SetProperties(values, key, value);
  }

  lemma WithoutIsRestriction(limits: Limits, values: Values, prefix: string)
    requires Distinct(values) && Fit(limits, values)
    ensures AsMap(Without(values, prefix)) == map k | k in AsMap(values) && !(prefix <= k) :: AsMap(values)[k]
  {
    WithoutProperties(limits, values, prefix);
  }

  /** A planned write keeps the map well formed, and is the request's effect on the plain map. */
  lemma PlanIsEffect(limits: Limits, workspaceIds: string -> Option<string>, s: State, r: Request)
    requires Inv(limits, s) && PlanOf(limits, workspaceIds, s.values, r).Write?
    ensures Understood(workspaceIds, r)
    ensures var next := PlanOf(limits, workspaceIds, s.values, r).next;
            && Distinct(next) && Fit(limits, next) && |next| <= limits.maxEntries
            && AsMap(next) == Effect(workspaceIds, AsMap(s.values), r)
  {
    hide AsMap, Distinct, Fit, Units, Bytes, Loaded;
    var key := KeyOf(workspaceIds(r.workspace.value).value, r.key);
    if r.method_.value == "put" {
      var value := r.value.value;
      UnitsWithinBytes(value);
      SetProperties(s.values, key, value);
      SetFits(limits, s.values, key, value);
      SetIsDistinct(s.values, key, value);
      SetIsUpdate(s.values, key, value);
    } else {
      WithoutProperties(limits, s.values, key);
      WithoutIsRestriction(limits, s.values, key);
    }
  }

  lemma WriteLands(limits: Limits, disk: Disk, next: Values, io: Io)
    requires Distinct(next) && Fit(limits, next) && |next| <= limits.maxEntries
    ensures var p := Persist(limits, disk, next, io);
            && (p.Ok? ==> io.Succeeds? && Loaded(limits, p.value) == next)
            && (p.Err? ==> Loaded(limits, p.error.1) == Loaded(limits, disk))
  {
    LoadIsIdentity(limits, next);
  }

  /** Every event leaves memory and file in agreement, changes the map by exactly the effects that were carried out,
      and acknowledges no request without carrying it out. */
  lemma StepSound(limits: Limits, workspaceIds: string -> Option<string>, s: State, e: Event)
    requires Inv(limits, s)
    ensures Inv(limits, Step(limits, workspaceIds, s, e))
    ensures var t := Step(limits, workspaceIds, s, e);
            if Acknowledged(limits, workspaceIds, s, e) || Landed(limits, workspaceIds, s, e)
            then
              && Understood(workspaceIds, e.request)
              && AsMap(t.values) == Effect(workspaceIds, AsMap(s.values), e.request)
            else t.values == s.values
  {
    hide Distinct, Fit, AsMap;
    if !e.Restart? && PlanOf(limits, workspaceIds, s.values, e.request).Write? {
      PlanIsEffect(limits, workspaceIds, s, e.request);
      var next := PlanOf(limits, workspaceIds, s.values, e.request).next;
      forall io: Io
        ensures var p := Persist(limits, s.disk, next, io);
                && (p.Ok? ==> io.Succeeds? && Loaded(limits, p.value) == next)
                && (p.Err? ==> Loaded(limits, p.error.1) == Loaded(limits, s.disk))
      {
        WriteLands(limits, s.disk, next, io);
      }
    }
  }

  // ----- Every run -----

  /** The plain map, driven by the requests that were acknowledged or had reached the disk. */
  function Account(
      limits: Limits, workspaceIds: string -> Option<string>, s: State, events: seq<Event>): map<string, string>
    decreases |events|
  {
    if events == [] then AsMap(s.values)
    else
      var before := Account(limits, workspaceIds, s, events[..|events| - 1]);
      var at := Run(limits, workspaceIds, s, events[..|events| - 1]);
      var e := events[|events| - 1];
      var happened := Acknowledged(limits, workspaceIds, at, e) || Landed(limits, workspaceIds, at, e);
      if happened && Understood(workspaceIds, e.request)
      then Effect(workspaceIds, before, e.request)
      else before
  }

  /** Over any sequence of requests, failing writes, deaths and restarts: memory is what the file holds, and both
      are exactly the acknowledged and landed requests applied in order. Past the empty map, it has passed the size
      test. */
  lemma {:induction false} EveryRun(
      limits: Limits, workspaceIds: string -> Option<string>, s: State, events: seq<Event>)
    requires Inv(limits, s)
    ensures var t := Run(limits, workspaceIds, s, events);
            && Inv(limits, t) && (Within(limits, s.values) ==> Within(limits, t.values))
            && AsMap(t.values) == Account(limits, workspaceIds, s, events)
            && AsMap(Loaded(limits, t.disk)) == Account(limits, workspaceIds, s, events)
    decreases |events|
  {
    hide Inv, Within, AsMap, Effect, Step, Acknowledged, Landed, Loaded;
    if events != [] {
      var n := |events| - 1;
      var at := Run(limits, workspaceIds, s, events[..n]);
      EveryRun(limits, workspaceIds, s, events[..n]);
      StepSound(limits, workspaceIds, at, events[n]);
      if Within(limits, s.values) {
        StepWithin(limits, workspaceIds, at, events[n]);
      }
    }
    LoadedIsMemory(limits, Run(limits, workspaceIds, s, events));
  }

  lemma LoadedIsMemory(limits: Limits, s: State)
    ensures Inv(limits, s) ==> Loaded(limits, s.disk) == s.values
  {
  }

  /** A step that carries out nothing that overwrites a key leaves what it holds. */
  lemma StepLeavesKey(limits: Limits, workspaceIds: string -> Option<string>, s: State, e: Event, put: Request)
    requires Inv(limits, s) && Understood(workspaceIds, put)
    requires !e.Restart? ==> !Overwrites(workspaceIds, e.request, put)
    ensures var key := KeyOf(workspaceIds(put.workspace.value).value, put.key);
            Get(Step(limits, workspaceIds, s, e).values, key) == Get(s.values, key)
  {
    hide Inv, Effect, Step, AsMap, Get, Overwrites;
    var key := KeyOf(workspaceIds(put.workspace.value).value, put.key);
    var t := Step(limits, workspaceIds, s, e);
    StepSound(limits, workspaceIds, s, e);
    MapGet(s.values, key);
    MapGet(t.values, key);
    if !e.Restart? && Understood(workspaceIds, e.request) {
      EffectAt(workspaceIds, AsMap(s.values), e.request, put);
    }
  }

  /** An acknowledged put is in the map. */
  lemma PutIsHeld(limits: Limits, workspaceIds: string -> Option<string>, s: State, put: Request, io: Io)
    requires Inv(limits, s) && Acknowledged(limits, workspaceIds, s, Handle(put, io)) && put.method_ == Some("put")
    ensures Understood(workspaceIds, put)
    ensures var key := KeyOf(workspaceIds(put.workspace.value).value, put.key);
            put.value.Some? && Get(Step(limits, workspaceIds, s, Handle(put, io)).values, key) == put.value
  {
    var t := Step(limits, workspaceIds, s, Handle(put, io));
    assert put.value.Some?;
    StepSound(limits, workspaceIds, s, Handle(put, io));
    hide Inv, Effect, Step, AsMap, Get, Acknowledged, Landed;
    EffectAt(workspaceIds, AsMap(s.values), put, put);
    MapGet(t.values, KeyOf(workspaceIds(put.workspace.value).value, put.key));
  }

  /** An acknowledged put is what a get of its key answers after any crash, as long as no later request touches the
      key. */
  lemma {:induction false} AcknowledgedPutSurvives(
      limits: Limits, workspaceIds: string -> Option<string>, s: State,
      put: Request, io: Io, later: seq<Event>, get: Request)
    requires Inv(limits, s) && Acknowledged(limits, workspaceIds, s, Handle(put, io)) && put.method_ == Some("put")
    requires PlanOf(limits, workspaceIds, s.values, get).Read? && get.method_ == Some("get")
    requires get.workspace == put.workspace && get.key == put.key
    requires Understood(workspaceIds, put)
    requires forall e <- later :: !e.Restart? ==> !Overwrites(workspaceIds, e.request, put)
    ensures var t := Run(limits, workspaceIds, Step(limits, workspaceIds, s, Handle(put, io)), later);
            && Inv(limits, t)
            && Execute(limits, workspaceIds, t, get, Succeeds) == (t, Ok(Value(put.value)))
    decreases |later|
  {
    var first := Step(limits, workspaceIds, s, Handle(put, io));
    var t := Run(limits, workspaceIds, first, later);
    KeyIsHeld(limits, workspaceIds, s, put, io, later);
    hide Inv, Step, Run, Get, Acknowledged, Overwrites;
  }

  lemma {:induction false} KeyIsHeld(
      limits: Limits, workspaceIds: string -> Option<string>, s: State, put: Request, io: Io, later: seq<Event>)
    requires Inv(limits, s) && Acknowledged(limits, workspaceIds, s, Handle(put, io)) && put.method_ == Some("put")
    requires Understood(workspaceIds, put)
    requires forall e <- later :: !e.Restart? ==> !Overwrites(workspaceIds, e.request, put)
    ensures var t := Run(limits, workspaceIds, Step(limits, workspaceIds, s, Handle(put, io)), later);
            && Inv(limits, t)
            && Get(t.values, KeyOf(workspaceIds(put.workspace.value).value, put.key)) == put.value
    decreases |later|
  {
    hide Inv, Step, Get, Acknowledged, Overwrites;
    var first := Step(limits, workspaceIds, s, Handle(put, io));
    StepSound(limits, workspaceIds, s, Handle(put, io));
    if later == [] {
      PutIsHeld(limits, workspaceIds, s, put, io);
    } else {
      var n := |later| - 1;
      KeyIsHeld(limits, workspaceIds, s, put, io, later[..n]);
      var at := Run(limits, workspaceIds, first, later[..n]);
      StepSound(limits, workspaceIds, at, later[n]);
      StepLeavesKey(limits, workspaceIds, at, later[n], put);
    }
  }

  /** A request that could change what is kept under the key of another. */
  predicate Overwrites(workspaceIds: string -> Option<string>, r: Request, put: Request)
    requires Understood(workspaceIds, put)
  {
    Understood(workspaceIds, r) &&
    var key := KeyOf(workspaceIds(put.workspace.value).value, put.key);
    var other := KeyOf(workspaceIds(r.workspace.value).value, r.key);
    (r.method_ == Some("put") && other == key) || (r.method_ == Some("invalidate") && other <= key)
  }

  lemma EffectAt(workspaceIds: string -> Option<string>, m: map<string, string>, r: Request, put: Request)
    requires Understood(workspaceIds, r) && Understood(workspaceIds, put)
    ensures var key := KeyOf(workspaceIds(put.workspace.value).value, put.key);
            var m' := Effect(workspaceIds, m, r);
            && (!Overwrites(workspaceIds, r, put) ==> (key in m' <==> key in m) && (key in m ==> m'[key] == m[key]))
            && (r == put && put.method_ == Some("put") && put.value.Some? ==> key in m' && Some(m'[key]) == put.value)
  {
  }

  lemma MapGet(values: Values, key: string)
    ensures key in AsMap(values) <==> Get(values, key).Some?
    ensures key in AsMap(values) ==> Get(values, key) == Some(AsMap(values)[key])
  {
    GetIffHas(values, key);
  }

  lemma {:induction false} GetIffHas(values: Values, key: string)
    ensures Get(values, key).Some? <==> Has(values, key)
  {
    if values != [] {
      HasFirst(values);
      GetIffHas(values[1..], key);
    }
  }

  // ----- Workspaces -----

  /** With identities of one length, what a request does leaves the entries of every other workspace alone. */
  lemma WorkspacesAreIsolated(
      limits: Limits, workspaceIds: string -> Option<string>, s: State, e: Event, other: string, key: string)
    requires Inv(limits, s) && other <= key
    requires !e.Restart? && Understood(workspaceIds, e.request) ==>
               var id := workspaceIds(e.request.workspace.value).value; |id| == |other| && id != other
    ensures Get(Step(limits, workspaceIds, s, e).values, key) == Get(s.values, key)
  {
    hide Inv, Step;
    var t := Step(limits, workspaceIds, s, e);
    StepSound(limits, workspaceIds, s, e);
    MapGet(s.values, key);
    MapGet(t.values, key);
    if !e.Restart? && Understood(workspaceIds, e.request) {
      var id := workspaceIds(e.request.workspace.value).value;
      assert id <= KeyOf(id, e.request.key);
      assert key[..|other|] == other;
      assert !(KeyOf(id, e.request.key) <= key);
    }
  }

  // ----- Invalidation always fits -----

  lemma {:induction false} ListBytesFirst(values: Values)
    requires values != []
    ensures ListBytes(values) == EntryBytes(values[0]) + (if |values| == 1 then 0 else 1 + ListBytes(values[1..]))
    decreases |values|
  {
    var n := |values| - 1;
    if n > 0 {
      ListBytesFirst(values[..n]);
      assert values[1..][..n - 1] == values[..n][1..];
    }
  }

  lemma {:induction false} WithoutIsShorter(values: Values, prefix: string)
    ensures ListBytes(Without(values, prefix)) <= ListBytes(values)
    ensures |Without(values, prefix)| <= |values|
  {
    if values != [] {
      WithoutIsShorter(values[1..], prefix);
      ListBytesFirst(values);
      if !(prefix <= values[0].key) {
        var w := Without(values, prefix);
        ListBytesFirst(w);
        assert w[1..] == Without(values[1..], prefix);
      }
    }
  }

  /** Past the empty map, what is in memory has passed the size test of the file. */
  predicate Within(limits: Limits, values: Values) {
    values == [] || TextBytes(values) <= limits.maxEntries * limits.maxValueBytes
  }

  lemma StepWithin(limits: Limits, workspaceIds: string -> Option<string>, s: State, e: Event)
    requires Inv(limits, s) && Within(limits, s.values)
    ensures Within(limits, Step(limits, workspaceIds, s, e).values)
  {
    hide Inv, TextBytes, Effect, AsMap, Loaded;
    StepSound(limits, workspaceIds, s, e);
    LoadedIsMemory(limits, s);
    var plan := if e.Restart? then Refused(InvalidRequest) else PlanOf(limits, workspaceIds, s.values, e.request);
    if plan.Write? {
      PlanIsEffect(limits, workspaceIds, s, e.request);
      WriteLands(limits, s.disk, plan.next, Succeeds);
    }
  }

  lemma InvalidateFits(limits: Limits, workspaceIds: string -> Option<string>, s: State, r: Request)
    requires Inv(limits, s) && Within(limits, s.values) && r.method_ == Some("invalidate")
    requires PlanOf(limits, workspaceIds, s.values, r).Write?
    ensures Execute(limits, workspaceIds, s, r, Succeeds).1 == Ok(Done)
       <==> limits.maxEntries * limits.maxValueBytes >= 2
  {
    var key := KeyOf(workspaceIds(r.workspace.value).value, r.key);
    WithoutIsShorter(s.values, key);
  }

  /** After any events, an invalidation that reaches the disk is refused for size exactly if even an empty list is:
      the limit is below two bytes. */
  lemma InvalidateFitsIff(
      limits: Limits, workspaceIds: string -> Option<string>, temporary: Option<File>, events: seq<Event>, r: Request)
    requires r.method_ == Some("invalidate")
    ensures var s := Run(limits, workspaceIds, Restarted(limits, Disk(None, temporary)), events);
            PlanOf(limits, workspaceIds, s.values, r).Write? ==>
              (Execute(limits, workspaceIds, s, r, Succeeds).1 == Ok(Done)
               <==> limits.maxEntries * limits.maxValueBytes >= 2)
  {
    hide Inv, AsMap, Effect, Step, Run, Execute, PlanOf;
    InitialInv(limits, temporary);
    EveryRun(limits, workspaceIds, Restarted(limits, Disk(None, temporary)), events);
    var s := Run(limits, workspaceIds, Restarted(limits, Disk(None, temporary)), events);
    if PlanOf(limits, workspaceIds, s.values, r).Write? {
      InvalidateFits(limits, workspaceIds, s, r);
    }
  }
}
