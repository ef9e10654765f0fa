/** When an incremental refresh is what a from-scratch scan would give, for changed paths spelled in any way. */
module WorkspaceChanges {
  import opened Options
  import opened WorkspaceFiles
  import opened WorkspaceIndexModel
  import opened WorkspaceIndexTheorems

  /** A changed path leads to this place. */
  predicate Named(workspace: Path, changed: seq<Path>, p: Path)
    requires Inside(workspace, changed)
  {
    exists raw <- changed :: Relative(workspace, raw) == p
  }

  predicate Inside(workspace: Path, changed: seq<Path>) {
    forall raw <- changed :: !Escapes(workspace, raw)
  }

  /** The path is read again. */
  predicate Reread(cfg: Config, workspace: Path, disk: Node, changed: seq<Path>, p: Path)
    requires Inside(workspace, changed)
  {
    Named(workspace, changed, p) && IsSmallFile(cfg, LStat(disk, p))
  }

  /** What the incremental refresh holds for a path. */
  lemma {:induction false} ReindexedHolds(
      cfg: Config, extract: string -> Info, workspace: Path, disk: Node, keep: Snapshot, changed: seq<Path>, p: Path)
    requires Inside(workspace, changed)
    ensures var m := Reindexed(cfg, extract, workspace, Some(disk), keep, changed);
            if Reread(cfg, workspace, disk, changed, p)
            then p in m && m[p] == IndexFile(extract, p, LStat(disk, p).value)
            else (p in m <==> p in keep) && (p in m ==> m[p] == keep[p])
    decreases |changed|
  {
    if changed != [] {
      hide Resolve, LStat, Escapes;
      var n := |changed| - 1;
      ReindexedHolds(cfg, extract, workspace, disk, keep, changed[..n], p);
      assert changed == changed[..n] + [changed[n]];
      assert Named(workspace, changed, p) <==>
             Named(workspace, changed[..n], p) || Relative(workspace, changed[n]) == p;
    }
  }

  ghost predicate HoldsAt(cfg: Config, extract: string -> Info, disk: Node, m: Snapshot, p: Path) {
    && (p in m <==> Indexable(cfg, disk, p))
    && (p in m ==> m[p] == IndexFile(extract, p, Lookup(disk, p).value))
  }

  lemma ScanEverywhere(cfg: Config, extract: string -> Info, disk: Node, m: Snapshot)
    ensures IsScan(cfg, extract, disk, m) <==> forall p :: HoldsAt(cfg, extract, disk, m, p)
  {
    if forall p :: HoldsAt(cfg, extract, disk, m, p) {
      forall p
        ensures p in m <==> Indexable(cfg, disk, p)
        ensures p in m ==> m[p] == IndexFile(extract, p, Lookup(disk, p).value)
      {
        assert HoldsAt(cfg, extract, disk, m, p);
      }
    }
  }

  lemma IndexableIsLStat(cfg: Config, disk: Node, p: Path)
    ensures Indexable(cfg, disk, p) ==> LStat(disk, p) == Lookup(disk, p) && IsSmallFile(cfg, LStat(disk, p))
  {
    if Indexable(cfg, disk, p) {
      LookupIsLStat(disk, p);
    }
  }

  /** A small file that is read again must be one the walk would index; a place that is dropped must not be one; and
      anywhere else the snapshot must be right already. */
  ghost predicate RightAt(
      cfg: Config, extract: string -> Info, workspace: Path, disk: Node, current: Snapshot, changed: seq<Path>, p: Path)
    requires Inside(workspace, changed)
  {
    if Reread(cfg, workspace, disk, changed, p) then Indexable(cfg, disk, p)
    else if Touches(changed, p) then !Indexable(cfg, disk, p)
    else HoldsAt(cfg, extract, disk, current, p)
  }

  /** A changed path that leaves the workspace fails the call. Otherwise the incremental refresh is the from-scratch
      scan if and only if that is right at every place. */
  lemma RefreshChangedIsScanIff(
      cfg: Config, extract: string -> Info, workspace: Path, disk: Node, current: Snapshot, changed: seq<Path>)
    ensures var r := RefreshedChanged(cfg, extract, workspace, Some(disk), current, changed);
            if !Inside(workspace, changed) then r == Err(WorkspaceEscape)
            else
              && r.Ok?
              && (IsScan(cfg, extract, disk, r.value) <==>
                    forall p :: RightAt(cfg, extract, workspace, disk, current, changed, p))
  {
    if Inside(workspace, changed) {
      var keep := Untouched(current, changed);
      var m := Reindexed(cfg, extract, workspace, Some(disk), keep, changed);
      forall p
        ensures HoldsAt(cfg, extract, disk, m, p) <==> RightAt(cfg, extract, workspace, disk, current, changed, p)
      {
        hide Indexable, LStat;
        ReindexedHolds(cfg, extract, workspace, disk, keep, changed, p);
        IndexableIsLStat(cfg, disk, p);
      }
      ScanEverywhere(cfg, extract, disk, m);
    }
  }

  // ----- Canonical paths -----

  ghost predicate Canonical(raw: Path) {
    raw != [] && forall name <- raw :: name != "" && name != "." && name != ".."
  }

  lemma {:induction false} CanonicalWalks(at: Path, raw: Path)
    requires forall name <- raw :: name != "" && name != "." && name != ".."
    ensures Walk(at, raw) == at + raw
    decreases raw
  {
    if raw != [] {
      assert raw[0] in raw && forall name <- raw[1..] :: name in raw;
      CanonicalWalks(at + [raw[0]], raw[1..]);
      assert raw == [raw[0]] + raw[1..];
    }
  }

  lemma CanonicalIsItself(workspace: Path, raw: Path)
    requires Canonical(raw)
    ensures Normal(raw) == raw && !Escapes(workspace, raw) && Relative(workspace, raw) == raw
  {
    CanonicalWalks(workspace, raw);
    assert raw[0] in raw;
  }

  /** A changed path that is a regular file is one the walk would index. */
  ghost predicate ChangedAreIndexable(cfg: Config, disk: Node, changed: seq<Path>) {
    forall p <- changed :: IsSmallFile(cfg, LStat(disk, p)) ==> Indexable(cfg, disk, p)
  }

  /** Every indexable file under a changed path is itself a changed path. */
  ghost predicate NothingBelow(cfg: Config, disk: Node, changed: seq<Path>) {
    forall p :: Indexable(cfg, disk, p) && Touches(changed, p) ==> p in changed
  }

  /** Away from the changed paths, the snapshot is already what a scan would give. */
  ghost predicate CurrentElsewhere(
      cfg: Config, extract: string -> Info, disk: Node, current: Snapshot, changed: seq<Path>)
  {
    forall p :: !Touches(changed, p) ==> HoldsAt(cfg, extract, disk, current, p)
  }

  /** The three, at one path. */
  ghost predicate CanonicalAt(
      cfg: Config, extract: string -> Info, disk: Node, current: Snapshot, changed: seq<Path>, p: Path)
  {
    && (p in changed && IsSmallFile(cfg, LStat(disk, p)) ==> Indexable(cfg, disk, p))
    && (Touches(changed, p) && Indexable(cfg, disk, p) ==> p in changed)
    && (!Touches(changed, p) ==> HoldsAt(cfg, extract, disk, current, p))
  }

  lemma CanonicalRightAt(
      cfg: Config, extract: string -> Info, workspace: Path, disk: Node, current: Snapshot, changed: seq<Path>, p: Path)
    requires Inside(workspace, changed)
    requires forall raw <- changed :: Normal(raw) == raw && Relative(workspace, raw) == raw
    ensures RightAt(cfg, extract, workspace, disk, current, changed, p)
       <==> CanonicalAt(cfg, extract, disk, current, changed, p)
  {
    IndexableIsLStat(cfg, disk, p);
    hide Indexable, LStat, HoldsAt, Resolve, Escapes;
    assert Named(workspace, changed, p) <==> p in changed;
    assert p in changed ==> Normal(p) <= p;
  }

  lemma CanonicalEverywhere(cfg: Config, extract: string -> Info, disk: Node, current: Snapshot, changed: seq<Path>)
    ensures (forall p :: CanonicalAt(cfg, extract, disk, current, changed, p))
       <==> && ChangedAreIndexable(cfg, disk, changed)
            && NothingBelow(cfg, disk, changed)
            && CurrentElsewhere(cfg, extract, disk, current, changed)
  {
    hide Indexable, LStat, HoldsAt;
    if forall p :: CanonicalAt(cfg, extract, disk, current, changed, p) {
      forall p
        ensures p in changed && IsSmallFile(cfg, LStat(disk, p)) ==> Indexable(cfg, disk, p)
        ensures Touches(changed, p) && Indexable(cfg, disk, p) ==> p in changed
        ensures !Touches(changed, p) ==> HoldsAt(cfg, extract, disk, current, p)
      {
        assert CanonicalAt(cfg, extract, disk, current, changed, p);
      }
    }
  }

  /** For canonical changed paths, that is: those that are small files are indexable, none is above an indexable
      file that is not listed, and they cover every difference. */
  lemma CanonicalChangedIsScanIff(
      cfg: Config, extract: string -> Info, workspace: Path, disk: Node, current: Snapshot, changed: seq<Path>)
    requires forall raw <- changed :: Canonical(raw)
    ensures var r := RefreshedChanged(cfg, extract, workspace, Some(disk), current, changed);
            && r.Ok?
            && (IsScan(cfg, extract, disk, r.value) <==>
                && ChangedAreIndexable(cfg, disk, changed)
                && NothingBelow(cfg, disk, changed)
                && CurrentElsewhere(cfg, extract, disk, current, changed))
  {
    forall raw | raw in changed
      ensures Normal(raw) == raw && !Escapes(workspace, raw) && Relative(workspace, raw) == raw
    {
      CanonicalIsItself(workspace, raw);
    }
    RefreshChangedIsScanIff(cfg, extract, workspace, disk, current, changed);
    hide RefreshedChanged, IsScan, RightAt, CanonicalAt, ChangedAreIndexable, NothingBelow, CurrentElsewhere;
    forall p
      ensures RightAt(cfg, extract, workspace, disk, current, changed, p)
       <==> CanonicalAt(cfg, extract, disk, current, changed, p)
    {
      CanonicalRightAt(cfg, extract, workspace, disk, current, changed, p);
    }
    CanonicalEverywhere(cfg, extract, disk, current, changed);
  }

  // ----- An edit, and then a refresh of what it touched -----

  /** The changed paths of an edit are enough: what they lead to and is a small file is indexable, an indexable file
      that they touch is one they lead to, and nothing else has changed. */
  ghost predicate CoversEdit(cfg: Config, workspace: Path, before: Node, disk: Node, changed: seq<Path>)
    requires Inside(workspace, changed)
  {
    && (forall p :: Reread(cfg, workspace, disk, changed, p) ==> Indexable(cfg, disk, p))
    && (forall p :: Touches(changed, p) && Indexable(cfg, disk, p) ==> Named(workspace, changed, p))
    && (forall p :: !Touches(changed, p) && !Reread(cfg, workspace, disk, changed, p) ==>
          SameFile(cfg, before, disk, p))
  }

  ghost predicate SameFile(cfg: Config, before: Node, disk: Node, p: Path) {
    && (Indexable(cfg, before, p) <==> Indexable(cfg, disk, p))
    && (Indexable(cfg, disk, p) ==> Lookup(before, p) == Lookup(disk, p))
  }

  /** An edit followed by an incremental refresh of paths that cover it: a fresh snapshot stays fresh, and equals
      what the memoised full refresh would have given. */
  lemma EditThenRefreshChanged(
      cfg: Config, extract: string -> Info, workspace: Path, seen: (Path, Node) -> bool,
      before: Node, disk: Node, current: Snapshot, changed: seq<Path>)
    requires Honest(seen) && Walkable(cfg, seen, disk)
    requires cfg.stateFile.Some? ==> cfg.stateFile.value != []
    requires IsScan(cfg, extract, before, current)
    requires Inside(workspace, changed) && CoversEdit(cfg, workspace, before, disk, changed)
    ensures var r := RefreshedChanged(cfg, extract, workspace, Some(disk), current, changed);
            && r.Ok?
            && IsScan(cfg, extract, disk, r.value)
            && Valid(cfg, extract, seen, World(disk, r.value))
            && Step(cfg, extract, workspace, World(disk, r.value), FullRefresh).snapshot == r.value
  {
    forall p
      ensures RightAt(cfg, extract, workspace, disk, current, changed, p)
    {
      EditIsRightAt(cfg, extract, workspace, before, disk, current, changed, p);
    }
    hide CoversEdit, RightAt, IsScan, RefreshedChanged, Walkable, Honest;
    RefreshChangedIsScanIff(cfg, extract, workspace, disk, current, changed);
    var m := RefreshedChanged(cfg, extract, workspace, Some(disk), current, changed).value;
    FreshIsFixed(cfg, extract, workspace, seen, disk, m);
  }

  lemma EditIsRightAt(
      cfg: Config, extract: string -> Info, workspace: Path, before: Node, disk: Node,
      current: Snapshot, changed: seq<Path>, p: Path)
    requires IsScan(cfg, extract, before, current)
    requires Inside(workspace, changed) && CoversEdit(cfg, workspace, before, disk, changed)
    ensures RightAt(cfg, extract, workspace, disk, current, changed, p)
  {
    hide Indexable, LStat;
    IndexableIsLStat(cfg, disk, p);
    if !Touches(changed, p) && !Reread(cfg, workspace, disk, changed, p) {
      assert SameFile(cfg, before, disk, p);
    }
  }

  // ----- Where it goes wrong -----

  const LIMITS := Config(10, 100, None)

  const SMALL := File(1, 1, "x")

  function Folder(name: string, file: string): Node {
    Dir([Entry(name, Dir([Entry(file, SMALL)]))])
  }

  lemma InFolder(name: string, file: string, p: Path)
    ensures Lookup(Folder(name, file), p) ==
      if p == [] then Some(Folder(name, file))
      else if p == [name] then Some(Dir([Entry(file, SMALL)]))
      else if p == [name, file] then Some(SMALL)
      else None
  {
    var inner := Dir([Entry(file, SMALL)]);
    InOne(name, inner);
    InOne(file, SMALL);
    if p != [] {
      assert p == [p[0]] + p[1..];
      if p[0] == name {
        assert Lookup(Folder(name, file), p) == Lookup(inner, p[1..]);
        if p[1..] != [] {
          assert p[1..] == [p[1]] + p[2..] && p[1..][1..] == p[2..];
          if p[1] == file {
            assert Lookup(inner, p[1..]) == Lookup(SMALL, p[2..]);
          }
        }
      }
    }
  }

  lemma InOne(name: string, n: Node)
    ensures forall other :: ChildFrom([Entry(name, n)], other) == if other == name then Some(n) else None
  {
    assert [Entry(name, n)][1..] == [];
  }

  /** A changed path that names a file the walk ignores is indexed all the same: a fresh snapshot goes wrong. */
  lemma IgnoredFileIsIndexed(extract: string -> Info, workspace: Path)
    ensures var disk := Folder(".git", "config");
            var r := RefreshedChanged(LIMITS, extract, workspace, Some(disk), map[], [[".git", "config"]]);
            IsScan(LIMITS, extract, disk, map[]) && r.Ok? && !IsScan(LIMITS, extract, disk, r.value)
  {
    var disk, raw := Folder(".git", "config"), [".git", "config"];
    forall p
      ensures !Indexable(LIMITS, disk, p)
    {
      InFolder(".git", "config", p);
      assert raw[0] in raw && Ignored(raw[0]);
    }
    InFolder(".git", "config", raw);
    LookupIsLStat(disk, raw);
    assert Canonical(raw);
    CanonicalChangedIsScanIff(LIMITS, extract, workspace, disk, map[], [raw]);
    assert raw in [raw] && IsSmallFile(LIMITS, LStat(disk, raw));
    assert !ChangedAreIndexable(LIMITS, disk, [raw]);
  }

  /** A changed path that names a directory drops the files below it, and does not read them again. */
  lemma DirectoryIsDropped(extract: string -> Info, workspace: Path)
    ensures var disk := Folder("src", "a.ts");
            var p := ["src", "a.ts"];
            var current := map[p := IndexFile(extract, p, SMALL)];
            var r := RefreshedChanged(LIMITS, extract, workspace, Some(disk), current, [["src"]]);
            IsScan(LIMITS, extract, disk, current) && r.Ok? && !IsScan(LIMITS, extract, disk, r.value)
  {
    var disk, p := Folder("src", "a.ts"), ["src", "a.ts"];
    var current := map[p := IndexFile(extract, p, SMALL)];
    FolderIsScanned(extract, "src", "a.ts");
    assert Canonical(["src"]);
    CanonicalChangedIsScanIff(LIMITS, extract, workspace, disk, current, [["src"]]);
    CanonicalIsItself(workspace, ["src"]);
    assert Normal(["src"]) <= p && ["src"] in [["src"]];
    assert Touches([["src"]], p) && p !in [["src"]];
    assert Indexable(LIMITS, disk, p);
    assert !NothingBelow(LIMITS, disk, [["src"]]);
  }

  lemma FolderIsScanned(extract: string -> Info, name: string, file: string)
    requires !Ignored(name) && !Ignored(file)
    ensures var p := [name, file];
            && Indexable(LIMITS, Folder(name, file), p)
            && IsScan(LIMITS, extract, Folder(name, file), map[p := IndexFile(extract, p, SMALL)])
  {
    var disk, p := Folder(name, file), [name, file];
    InFolder(name, file, p);
    forall q
      ensures Indexable(LIMITS, disk, q) <==> q == p
    {
      InFolder(name, file, q);
      assert !Hidden(LIMITS, p);
    }
  }

  /** A deleted file that is named by its absolute path keeps its record: only paths spelled from the workspace drop
      records. */
  lemma AbsolutePathKeepsStale(cfg: Config, extract: string -> Info, workspace: Path, file: string, r: Indexed)
    requires workspace != [] && forall name <- workspace + [file] :: name != "" && name != "." && name != ".."
    ensures var current := map[[file] := r];
            var disk := Dir([]);
            RefreshedChanged(cfg, extract, workspace, Some(disk), current, [[""] + workspace + [file]]) == Ok(current)
    ensures !IsScan(cfg, extract, Dir([]), map[[file] := r])
  {
    var raw, current, disk := [""] + workspace + [file], map[[file] := r], Dir([]);
    assert raw[1..] == workspace + [file];
    assert Walk([], raw) == Walk([], raw[1..]);
    CanonicalWalks([], workspace + [file]);
    assert Resolve(workspace, raw) == workspace + [file];
    assert Relative(workspace, raw) == [file];
    assert Normal(raw) == raw && !(raw <= [file]);
    assert LStat(disk, [file]) == None;
    assert [raw][..0] == [];
    var keep := Untouched(current, [raw]);
    assert Reindexed(cfg, extract, workspace, Some(disk), keep, [raw]) == keep;
    assert Untouched(current, [raw]) == current;
    assert [file] in current && !Indexable(cfg, disk, [file]);
  }
}
