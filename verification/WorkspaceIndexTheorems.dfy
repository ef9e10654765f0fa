/** When the snapshots of the workspace index are what a from-scratch scan would give. */
module WorkspaceIndexTheorems {
  import opened Options
  import opened WorkspaceFiles
  import opened WorkspaceIndexModel

  lemma ScanIsUnique(cfg: Config, extract: string -> Info, root: Node, a: Snapshot, b: Snapshot)
    requires IsScan(cfg, extract, root, a) && IsScan(cfg, extract, root, b)
    ensures a == b
  {
    assert forall p :: p in a <==> p in b;
  }

  // ----- Full refresh -----

  predicate HasStamp(r: Indexed, f: Node) {
    f.File? && r.size == f.size && r.mtime == f.mtime
  }

  /** A record of an old snapshot that the disk's stamps make look current is current. */
  ghost predicate Coherent(cfg: Config, extract: string -> Info, root: Node, previous: Snapshot) {
    forall p <- previous :: Indexable(cfg, root, p) && HasStamp(previous[p], Lookup(root, p).value) ==>
      previous[p] == IndexFile(extract, p, Lookup(root, p).value)
  }

  lemma {:induction false} RefreshedHolds(extract: string -> Info, previous: Snapshot, found: seq<Found>, p: Path)
    requires AllFiles(found)
    ensures p in Refreshed(extract, previous, found) <==> exists f <- found :: f.path == p
    ensures p in Refreshed(extract, previous, found) ==>
              exists f <- found ::
                f.path == p && Refreshed(extract, previous, found)[p] == Remember(extract, previous, f)
  {
    if found != [] {
      var front, f := found[..|found| - 1], found[|found| - 1];
      RefreshedHolds(extract, previous, front, p);
      assert found == front + [f];
    }
  }

  /** The memoised refresh is the from-scratch scan, if the limit is not reached and the old
      records with current stamps are current. */
  lemma RefreshIsScan(cfg: Config, extract: string -> Info, root: Node, previous: Snapshot)
    requires root.Dir? && WellFormed(root)
    requires cfg.stateFile.Some? ==> cfg.stateFile.value != []
    requires |VisitAll(cfg, [], root, 0)| <= cfg.maxFiles
    requires Coherent(cfg, extract, root, previous)
    ensures IsScan(cfg, extract, root, RefreshedFrom(cfg, extract, previous, root))
  {
    hide Visit, VisitAll;
    VisitKeepsFiles(cfg, [], root, []);
    DiscoversIndexable(cfg, root, []);
    var found := Visit(cfg, [], root, []);
    var m := Refreshed(extract, previous, found);
    forall p
      ensures p in m <==> Indexable(cfg, root, p)
      ensures p in m ==> m[p] == IndexFile(extract, p, Lookup(root, p).value)
    {
      DiscoversIndexable(cfg, root, p);
      RefreshedHolds(extract, previous, found, p);
    }
  }

  // ----- Histories -----

  predicate SameStamp(f: Node, g: Node) {
    f.File? && g.File? && f.size == g.size && f.mtime == g.mtime
  }

  /** `seen` holds of every version of a file that has ever been at a path. Two versions of one path
      with the same size and modification time have the same text. */
  ghost predicate Honest(seen: (Path, Node) -> bool) {
    forall p, f: Node, g: Node :: seen(p, f) && seen(p, g) && SameStamp(f, g) ==> f.text == g.text
  }

  ghost predicate Shows(seen: (Path, Node) -> bool, disk: Node) {
    forall p :: LStat(disk, p).Some? && LStat(disk, p).value.File? ==> seen(p, LStat(disk, p).value)
  }

  ghost predicate IsVersion(extract: string -> Info, seen: (Path, Node) -> bool, p: Path, r: Indexed, f: Node) {
    f.File? && seen(p, f) && r == IndexFile(extract, p, f)
  }

  /** Every record indexes some version of its file. */
  ghost predicate Derived(extract: string -> Info, seen: (Path, Node) -> bool, m: Snapshot) {
    forall p <- m :: exists f :: IsVersion(extract, seen, p, m[p], f)
  }

  lemma {:induction false} LookupIsLStat(n: Node, p: Path)
    requires Lookup(n, p).Some?
    ensures LStat(n, p) == Lookup(n, p)
    decreases p
  {
    if p != [] {
      LookupIsLStat(Child(n, p[0]).value, p[1..]);
    }
  }

  lemma DerivedIsCoherent(cfg: Config, extract: string -> Info, seen: (Path, Node) -> bool, disk: Node, m: Snapshot)
    requires Honest(seen) && Shows(seen, disk) && Derived(extract, seen, m)
    ensures Coherent(cfg, extract, disk, m)
  {
    forall p | p in m && Indexable(cfg, disk, p) && HasStamp(m[p], Lookup(disk, p).value)
      ensures m[p] == IndexFile(extract, p, Lookup(disk, p).value)
    {
      LookupIsLStat(disk, p);
      var f :| IsVersion(extract, seen, p, m[p], f);
      assert SameStamp(f, Lookup(disk, p).value);
    }
  }

  /** A workspace with its disk and the snapshot the index holds of it. */
  datatype World = World(disk: Node, snapshot: Snapshot)

  datatype Event =
    | DiskBecomes(disk: Node)
    | FullRefresh
    | ChangedRefresh(changed: seq<Path>)
    | Invalidate(changed: seq<Path>)

  /** The disks the index can be asked to walk: directories with fewer files than the limit, whose
      files are among the versions seen. */
  ghost predicate Walkable(cfg: Config, seen: (Path, Node) -> bool, disk: Node) {
    disk.Dir? && WellFormed(disk) && |VisitAll(cfg, [], disk, 0)| <= cfg.maxFiles && Shows(seen, disk)
  }

  ghost predicate Valid(cfg: Config, extract: string -> Info, seen: (Path, Node) -> bool, w: World) {
    Walkable(cfg, seen, w.disk) && Derived(extract, seen, w.snapshot)
  }

  ghost predicate Possible(cfg: Config, seen: (Path, Node) -> bool, e: Event) {
    e.DiskBecomes? ==> Walkable(cfg, seen, e.disk)
  }

  ghost function Step(cfg: Config, extract: string -> Info, workspace: Path, w: World, e: Event): World
    requires w.disk.Dir?
  {
    match e
    case DiskBecomes(disk) => w.(disk := disk)
    case FullRefresh =>
      w.(snapshot := RefreshedFrom(cfg, extract, w.snapshot, w.disk))
    case ChangedRefresh(changed) =>
      var r := RefreshedChanged(cfg, extract, workspace, Some(w.disk), w.snapshot, changed);
      if r.Ok? then w.(snapshot := r.value) else w
    case Invalidate(changed) => w.(snapshot := Invalidated(w.snapshot, changed))
  }

  lemma {:induction false} ReindexedDerived(
      cfg: Config, extract: string -> Info, workspace: Path, seen: (Path, Node) -> bool, disk: Node,
      keep: Snapshot, changed: seq<Path>)
    requires Shows(seen, disk) && Derived(extract, seen, keep)
    requires forall raw <- changed :: !Escapes(workspace, raw)
    ensures Derived(extract, seen, Reindexed(cfg, extract, workspace, Some(disk), keep, changed))
    decreases |changed|
  {
    if changed != [] {
      var n := |changed| - 1;
      ReindexedDerived(cfg, extract, workspace, seen, disk, keep, changed[..n]);
      var p := Relative(workspace, changed[n]);
      if IsSmallFile(cfg, LStat(disk, p)) {
        var f := LStat(disk, p).value;
        assert IsVersion(extract, seen, p, IndexFile(extract, p, f), f);
      }
    }
  }

  lemma ScanDerived(cfg: Config, extract: string -> Info, seen: (Path, Node) -> bool, disk: Node, m: Snapshot)
    requires Shows(seen, disk) && IsScan(cfg, extract, disk, m)
    ensures Derived(extract, seen, m)
  {
    forall p | p in m
      ensures exists f :: IsVersion(extract, seen, p, m[p], f)
    {
      LookupIsLStat(disk, p);
      assert IsVersion(extract, seen, p, m[p], Lookup(disk, p).value);
    }
  }

  lemma StepValid(cfg: Config, extract: string -> Info, workspace: Path, seen: (Path, Node) -> bool, w: World, e: Event)
    requires Honest(seen) && Valid(cfg, extract, seen, w) && Possible(cfg, seen, e)
    requires cfg.stateFile.Some? ==> cfg.stateFile.value != []
    ensures Valid(cfg, extract, seen, Step(cfg, extract, workspace, w, e))
    ensures e.FullRefresh? ==> IsScan(cfg, extract, w.disk, Step(cfg, extract, workspace, w, e).snapshot)
  {
    hide Shows, Visit, VisitAll, IsScan;
    match e
    case DiskBecomes(disk) =>
    case FullRefresh =>
      DerivedIsCoherent(cfg, extract, seen, w.disk, w.snapshot);
      RefreshIsScan(cfg, extract, w.disk, w.snapshot);
      ScanDerived(cfg, extract, seen, w.disk, Step(cfg, extract, workspace, w, e).snapshot);
    case ChangedRefresh(changed) =>
      if RefreshedChanged(cfg, extract, workspace, Some(w.disk), w.snapshot, changed).Ok? {
        ReindexedDerived(cfg, extract, workspace, seen, w.disk, Untouched(w.snapshot, changed), changed);
      }
    case Invalidate(changed) =>
  }

  ghost function Run(
      cfg: Config, extract: string -> Info, workspace: Path, seen: (Path, Node) -> bool, w: World, events: seq<Event>)
      : (t: World)
    requires Honest(seen) && Valid(cfg, extract, seen, w) && forall e <- events :: Possible(cfg, seen, e)
    requires cfg.stateFile.Some? ==> cfg.stateFile.value != []
    ensures Valid(cfg, extract, seen, t)
    decreases |events|
  {
    if events == [] then w
    else
      StepValid(cfg, extract, workspace, seen, w, events[0]);
      assert forall e <- events[1..] :: e in events;
      Run(cfg, extract, workspace, seen, Step(cfg, extract, workspace, w, events[0]), events[1..])
  }

  /** Whatever the disk and the index have been through, a full refresh gives the from-scratch scan of the disk
      as it is, although it reads only the files whose stamps have changed. */
  lemma RefreshAfterAnyHistory(
      cfg: Config, extract: string -> Info, workspace: Path, seen: (Path, Node) -> bool, w: World, events: seq<Event>)
    requires Honest(seen) && Valid(cfg, extract, seen, w) && forall e <- events :: Possible(cfg, seen, e)
    requires cfg.stateFile.Some? ==> cfg.stateFile.value != []
    ensures var t := Run(cfg, extract, workspace, seen, w, events);
            IsScan(cfg, extract, t.disk, Step(cfg, extract, workspace, t, FullRefresh).snapshot)
  {
    StepValid(cfg, extract, workspace, seen, Run(cfg, extract, workspace, seen, w, events), FullRefresh);
  }

  lemma FreshIsFixed(
      cfg: Config, extract: string -> Info, workspace: Path, seen: (Path, Node) -> bool, disk: Node, m: Snapshot)
    requires Honest(seen) && Walkable(cfg, seen, disk) && IsScan(cfg, extract, disk, m)
    requires cfg.stateFile.Some? ==> cfg.stateFile.value != []
    ensures Valid(cfg, extract, seen, World(disk, m))
    ensures Step(cfg, extract, workspace, World(disk, m), FullRefresh).snapshot == m
  {
    ScanDerived(cfg, extract, seen, disk, m);
    StepValid(cfg, extract, workspace, seen, World(disk, m), FullRefresh);
    ScanIsUnique(cfg, extract, disk, m, Step(cfg, extract, workspace, World(disk, m), FullRefresh).snapshot);
  }
}
