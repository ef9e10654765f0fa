/** A workspace on disk, and the walk that discovers the files to index. */
module WorkspaceFiles {
  import opened Options

  /** A path below the workspace root, as its names. */
  type Path = seq<string>

  /** A directory is given by its listing, sorted as the walk sorts it. A symbolic link carries what it points at. */
  datatype Node =
    | File(size: nat, mtime: nat, text: string)
    | Dir(entries: seq<Entry>)
    | Symlink(target: Node)
    | Special

  datatype Entry = Entry(name: string, node: Node)

  /** `stateFile` is the index's own file, if it lies inside the workspace. */
  datatype Config = Config(maxFiles: nat, maxFileBytes: nat, stateFile: Option<Path>)

  predicate Ignored(name: string) {
    name == ".git" || name == ".flowdeck" || name == "node_modules" || name == "target" || name == "coverage"
  }

  /** No directory lists a name twice. */
  ghost predicate WellFormed(n: Node) {
    match n
    case Dir(entries) =>
      && (forall i, j :: 0 <= i < j < |entries| ==> entries[i].name != entries[j].name)
      && (forall i :: 0 <= i < |entries| ==> WellFormed(entries[i].node))
    case Symlink(target) => WellFormed(target)
    case _ => true
  }

  // ----- Looking a path up -----

  function Child(n: Node, name: string): Option<Node>
    requires n.Dir?
  {
    ChildFrom(n.entries, name)
  }

  function ChildFrom(entries: seq<Entry>, name: string): Option<Node> {
    if entries == [] then None
    else if entries[0].name == name then Some(entries[0].node)
    else ChildFrom(entries[1..], name)
  }

  /** The node at a path reached through directories alone. */
  function Lookup(n: Node, p: Path): Option<Node>
    decreases p
  {
    if p == [] then Some(n)
    else if n.Dir? && Child(n, p[0]).Some? then Lookup(Child(n, p[0]).value, p[1..])
    else None
  }

  function Follow(n: Node): Node {
    if n.Symlink? then Follow(n.target) else n
  }

  /** `lstat`: symbolic links on the way are followed, one at the end is not. */
  function LStat(n: Node, p: Path): Option<Node>
    decreases p
  {
    if p == [] then Some(n)
    else
      var d := Follow(n);
      if d.Dir? && Child(d, p[0]).Some? then LStat(Child(d, p[0]).value, p[1..]) else None
  }

  predicate Hidden(cfg: Config, p: Path) {
    || (exists name <- p :: Ignored(name))
    || (cfg.stateFile.Some? && cfg.stateFile.value <= p)
  }

  predicate IsSmallFile(cfg: Config, n: Option<Node>) {
    n.Some? && n.value.File? && n.value.size <= cfg.maxFileBytes
  }

  /** The files the index is meant to hold. */
  predicate Indexable(cfg: Config, root: Node, p: Path) {
    p != [] && !Hidden(cfg, p) && IsSmallFile(cfg, Lookup(root, p))
  }

  // ----- The walk -----

  datatype Found = Found(path: Path, file: Node)

  predicate Skips(cfg: Config, at: Path, name: string) {
    Ignored(name) || cfg.stateFile == Some(at + [name])
  }

  /** What a directory contributes from its k-th entry on, without a limit. */
  function VisitAll(cfg: Config, at: Path, n: Node, k: nat): seq<Found>
    requires n.Dir? && k <= |n.entries|
    decreases n, |n.entries| - k
  {
    if k == |n.entries| then []
    else VisitEntry(cfg, at, n, k) + VisitAll(cfg, at, n, k + 1)
  }

  function VisitEntry(cfg: Config, at: Path, n: Node, k: nat): seq<Found>
    requires n.Dir? && k < |n.entries|
    decreases n, |n.entries| - k, 0
  {
    var e := n.entries[k];
    if Skips(cfg, at, e.name) then []
    else if e.node.Dir? then VisitAll(cfg, at + [e.name], e.node, 0)
    else if IsSmallFile(cfg, Some(e.node)) then [Found(at + [e.name], e.node)]
    else []
  }

  /** `visit`, which enters a directory only while fewer than `maxFiles` files have been found. */
  function Visit(cfg: Config, at: Path, n: Node, found: seq<Found>): seq<Found>
    requires n.Dir?
    decreases n, |n.entries| + 1
  {
    if |found| >= cfg.maxFiles then found else VisitFrom(cfg, at, n, 0, found)
  }

  function VisitFrom(cfg: Config, at: Path, n: Node, k: nat, found: seq<Found>): seq<Found>
    requires n.Dir? && k <= |n.entries|
    decreases n, |n.entries| - k
  {
    if k == |n.entries| then found
    else
      var e := n.entries[k];
      VisitFrom(cfg, at, n, k + 1,
        if Skips(cfg, at, e.name) then found
        else if e.node.Dir? then Visit(cfg, at + [e.name], e.node, found)
        else if IsSmallFile(cfg, Some(e.node)) then found + [Found(at + [e.name], e.node)]
        else found)
  }

  /** `discover` as it runs: a recursive walk that pushes onto one list. */
  method DiscoverFrom(cfg: Config, at: Path, n: Node, found: seq<Found>) returns (all: seq<Found>)
    requires n.Dir?
    ensures all == Visit(cfg, at, n, found)
    decreases n
  {
    all := found;
    if |found| >= cfg.maxFiles {
      return;
    }
    for k := 0 to |n.entries|
      invariant VisitFrom(cfg, at, n, k, all) == VisitFrom(cfg, at, n, 0, found)
    {
      var e := n.entries[k];
      if Ignored(e.name) {
        continue;
      }
      if cfg.stateFile == Some(at + [e.name]) {
        continue;
      }
      if e.node.Symlink? {
        continue;
      }
      if e.node.Dir? {
        all := DiscoverFrom(cfg, at + [e.name], e.node, all);
        continue;
      }
      if !e.node.File? {
        continue;
      }
      if e.node.size <= cfg.maxFileBytes {
        all := all + [Found(at + [e.name], e.node)];
      }
    }
  }

  ghost predicate AllFiles(found: seq<Found>) {
    forall f <- found :: f.file.File?
  }

  lemma VisitKeepsFiles(cfg: Config, at: Path, n: Node, found: seq<Found>)
    requires n.Dir? && AllFiles(found)
    ensures AllFiles(Visit(cfg, at, n, found))
    decreases n, |n.entries| + 1
  {
    if |found| < cfg.maxFiles {
      VisitFromKeepsFiles(cfg, at, n, 0, found);
    }
  }

  /** Only regular files are found, whatever else the directories list. */
  lemma {:induction false} VisitFromKeepsFiles(cfg: Config, at: Path, n: Node, k: nat, found: seq<Found>)
    requires n.Dir? && k <= |n.entries| && AllFiles(found)
    ensures AllFiles(VisitFrom(cfg, at, n, k, found))
    decreases n, |n.entries| - k
  {
    if k < |n.entries| {
      var e := n.entries[k];
      if Skips(cfg, at, e.name) {
        VisitFromKeepsFiles(cfg, at, n, k + 1, found);
      } else if e.node.Dir? {
        VisitKeepsFiles(cfg, at + [e.name], e.node, found);
        VisitFromKeepsFiles(cfg, at, n, k + 1, Visit(cfg, at + [e.name], e.node, found));
      } else if IsSmallFile(cfg, Some(e.node)) {
        VisitFromKeepsFiles(cfg, at, n, k + 1, found + [Found(at + [e.name], e.node)]);
      } else {
        VisitFromKeepsFiles(cfg, at, n, k + 1, found);
      }
    }
  }

  // ----- The walk finds exactly the indexable files -----

  lemma VisitUnlimited(cfg: Config, at: Path, n: Node, found: seq<Found>)
    requires n.Dir? && |found| + |VisitAll(cfg, at, n, 0)| <= cfg.maxFiles
    ensures Visit(cfg, at, n, found) == found + VisitAll(cfg, at, n, 0)
    decreases n, |n.entries| + 1
  {
    if |found| >= cfg.maxFiles {
      assert found + VisitAll(cfg, at, n, 0) == found;
    } else {
      VisitFromUnlimited(cfg, at, n, 0, found);
    }
  }

  /** Below the file limit, the walk misses nothing. */
  lemma {:induction false} VisitFromUnlimited(cfg: Config, at: Path, n: Node, k: nat, found: seq<Found>)
    requires n.Dir? && k <= |n.entries|
    requires |found| + |VisitAll(cfg, at, n, k)| <= cfg.maxFiles
    ensures VisitFrom(cfg, at, n, k, found) == found + VisitAll(cfg, at, n, k)
    decreases n, |n.entries| - k
  {
    if k == |n.entries| {
      assert found + VisitAll(cfg, at, n, k) == found;
    } else {
      var e := n.entries[k];
      var here := VisitEntry(cfg, at, n, k);
      if !Skips(cfg, at, e.name) && e.node.Dir? {
        VisitUnlimited(cfg, at + [e.name], e.node, found);
      }
      assert here == [] ==> found + here == found;
      VisitFromUnlimited(cfg, at, n, k + 1, found + here);
      assert found + here + VisitAll(cfg, at, n, k + 1) == found + (here + VisitAll(cfg, at, n, k + 1));
    }
  }

  lemma {:induction false} ChildAt(entries: seq<Entry>, k: nat)
    requires k < |entries|
    requires forall i, j :: 0 <= i < j < |entries| ==> entries[i].name != entries[j].name
    ensures ChildFrom(entries, entries[k].name) == Some(entries[k].node)
  {
    if k > 0 {
      assert entries[1..][k - 1] == entries[k];
      ChildAt(entries[1..], k - 1);
    }
  }

  lemma {:induction false} ChildIndex(entries: seq<Entry>, name: string) returns (k: nat)
    requires ChildFrom(entries, name).Some?
    ensures k < |entries| && entries[k] == Entry(name, ChildFrom(entries, name).value)
  {
    if entries[0].name == name {
      k := 0;
    } else {
      k := ChildIndex(entries[1..], name);
      k := k + 1;
    }
  }

  /** A name below a directory that the walk is in: nothing on the way to it is skipped. */
  predicate Reaches(cfg: Config, at: Path, p: Path) {
    (forall name <- p :: !Ignored(name)) &&
    (cfg.stateFile.Some? ==> forall i :: 0 < i <= |p| ==> cfg.stateFile.value != at + p[..i])
  }

  /** Everything the walk finds is a small file it can reach. */
  lemma {:induction false} FoundIsReachable(cfg: Config, at: Path, n: Node, k: nat, f: Found)
    requires WellFormed(n) && n.Dir? && k <= |n.entries| && f in VisitAll(cfg, at, n, k)
    ensures |at| < |f.path| && at <= f.path
    ensures var p := f.path[|at|..];
            Reaches(cfg, at, p) && Lookup(n, p) == Some(f.file) && IsSmallFile(cfg, Some(f.file))
    decreases n, |n.entries| - k
  {
    var e := n.entries[k];
    if f in VisitEntry(cfg, at, n, k) {
      ChildAt(n.entries, k);
      if e.node.Dir? {
        FoundIsReachable(cfg, at + [e.name], e.node, 0, f);
        var p, q := f.path[|at|..], f.path[|at| + 1..];
        assert p == [e.name] + q && p[1..] == q;
        ReachesDeeper(cfg, at, e.name, q);
      } else {
        var p := f.path[|at|..];
        assert p == [e.name] && p[1..] == [] && p[..1] == p;
      }
    } else {
      FoundIsReachable(cfg, at, n, k + 1, f);
    }
  }

  lemma ReachesDeeper(cfg: Config, at: Path, name: string, q: Path)
    ensures Reaches(cfg, at, [name] + q) <==> !Skips(cfg, at, name) && Reaches(cfg, at + [name], q)
  {
    var p := [name] + q;
    assert forall i :: 0 < i <= |q| ==> at + [name] + q[..i] == at + p[..i + 1];
    assert p[..1] == [name];
    if Reaches(cfg, at, p) {
      assert forall x <- q :: x in p;
      forall i | 0 < i <= |q|
        ensures cfg.stateFile.Some? ==> cfg.stateFile.value != at + [name] + q[..i]
      {
        assert 0 < i + 1 <= |p|;
      }
    }
    if !Skips(cfg, at, name) && Reaches(cfg, at + [name], q) {
      forall i | 0 < i <= |p|
        ensures cfg.stateFile.Some? ==> cfg.stateFile.value != at + p[..i]
      {
        if i > 1 {
          assert at + [name] + q[..i - 1] == at + p[..i];
        }
      }
    }
  }

  lemma {:induction false} EntryIsVisited(cfg: Config, at: Path, n: Node, k: nat, j: nat, f: Found)
    requires n.Dir? && k <= j < |n.entries| && f in VisitEntry(cfg, at, n, j)
    ensures f in VisitAll(cfg, at, n, k)
    decreases j - k
  {
    if k < j {
      EntryIsVisited(cfg, at, n, k + 1, j, f);
    }
  }

  /** Every small file the walk can reach is found. */
  lemma {:induction false} ReachableIsFound(cfg: Config, at: Path, n: Node, p: Path)
    requires n.Dir? && p != [] && Reaches(cfg, at, p) && IsSmallFile(cfg, Lookup(n, p))
    ensures Found(at + p, Lookup(n, p).value) in VisitAll(cfg, at, n, 0)
    decreases p
  {
    var k := ChildIndex(n.entries, p[0]);
    var e := n.entries[k];
    var f := Found(at + p, Lookup(n, p).value);
    assert p == [p[0]] + p[1..];
    ReachesDeeper(cfg, at, p[0], p[1..]);
    assert Lookup(n, p) == Lookup(e.node, p[1..]);
    if p[1..] == [] {
      assert at + p == at + [e.name];
    } else {
      assert e.node.Dir?;
      ReachableIsFound(cfg, at + [e.name], e.node, p[1..]);
      assert at + [e.name] + p[1..] == at + p;
    }
    assert f in VisitEntry(cfg, at, n, k);
    EntryIsVisited(cfg, at, n, 0, k, f);
  }

  lemma ReachesIffShown(cfg: Config, p: Path)
    requires cfg.stateFile.Some? ==> cfg.stateFile.value != []
    ensures Reaches(cfg, [], p) <==> !Hidden(cfg, p)
  {
    assert forall i :: 0 < i <= |p| ==> [] + p[..i] == p[..i];
    if cfg.stateFile.Some? && cfg.stateFile.value <= p {
      assert p[..|cfg.stateFile.value|] == cfg.stateFile.value;
    }
  }

  /** Unless the limit cuts it short, the walk finds exactly the indexable files. */
  lemma DiscoversIndexable(cfg: Config, root: Node, p: Path)
    requires root.Dir? && WellFormed(root)
    requires cfg.stateFile.Some? ==> cfg.stateFile.value != []
    requires |VisitAll(cfg, [], root, 0)| <= cfg.maxFiles
    ensures Visit(cfg, [], root, []) == VisitAll(cfg, [], root, 0)
    ensures Indexable(cfg, root, p) <==> exists f <- Visit(cfg, [], root, []) :: f.path == p
    ensures Indexable(cfg, root, p) ==> Found(p, Lookup(root, p).value) in Visit(cfg, [], root, [])
    ensures forall f <- Visit(cfg, [], root, []) :: f.path == p ==> Some(f.file) == Lookup(root, p)
  {
    VisitUnlimited(cfg, [], root, []);
    assert [] + VisitAll(cfg, [], root, 0) == VisitAll(cfg, [], root, 0);
    ReachesIffShown(cfg, p);
    assert [] + p == p;
    if Indexable(cfg, root, p) {
      ReachableIsFound(cfg, [], root, p);
    }
    forall f | f in VisitAll(cfg, [], root, 0) && f.path == p
      ensures Indexable(cfg, root, p) && Some(f.file) == Lookup(root, p)
    {
      FoundIsReachable(cfg, [], root, 0, f);
      assert f.path[0..] == p;
    }
  }

  // ----- The limit -----

  /** What has been found after the k-th entry. */
  function Next(cfg: Config, at: Path, n: Node, k: nat, found: seq<Found>): seq<Found>
    requires n.Dir? && k < |n.entries|
  {
    var e := n.entries[k];
    if !Skips(cfg, at, e.name) && e.node.Dir? then Visit(cfg, at + [e.name], e.node, found)
    else found + VisitEntry(cfg, at, n, k)
  }

  lemma VisitFromUnfolds(cfg: Config, at: Path, n: Node, k: nat, found: seq<Found>)
    requires n.Dir? && k < |n.entries|
    ensures VisitFrom(cfg, at, n, k, found) == VisitFrom(cfg, at, n, k + 1, Next(cfg, at, n, k, found))
  {
    assert found + [] == found;
  }

  /** A walk that the limit may cut short adds to what it was given, and adds only what the whole walk finds. */
  lemma {:induction false} VisitFromAdds(cfg: Config, at: Path, n: Node, k: nat, found: seq<Found>)
    requires n.Dir? && k <= |n.entries|
    ensures found <= VisitFrom(cfg, at, n, k, found)
    ensures forall f <- VisitFrom(cfg, at, n, k, found)[|found|..] :: f in VisitAll(cfg, at, n, k)
    decreases n, |n.entries| - k
  {
    if k < |n.entries| {
      var e, all, next := n.entries[k], VisitFrom(cfg, at, n, k, found), Next(cfg, at, n, k, found);
      VisitFromUnfolds(cfg, at, n, k, found);
      if !Skips(cfg, at, e.name) && e.node.Dir? && |found| < cfg.maxFiles {
        VisitFromAdds(cfg, at + [e.name], e.node, 0, found);
      }
      assert found <= next && forall f <- next[|found|..] :: f in VisitEntry(cfg, at, n, k);
      VisitFromAdds(cfg, at, n, k + 1, next);
      hide VisitFrom, VisitEntry, Next;
      assert all[|found|..] == next[|found|..] + all[|next|..];
    }
  }

  /** It stops early only once it has found as many files as the limit says. */
  lemma {:induction false} VisitFromReaches(cfg: Config, at: Path, n: Node, k: nat, found: seq<Found>)
    requires n.Dir? && k <= |n.entries|
    ensures var all := VisitFrom(cfg, at, n, k, found);
            |all| >= cfg.maxFiles || |all| == |found| + |VisitAll(cfg, at, n, k)|
    decreases n, |n.entries| - k
  {
    if k < |n.entries| {
      var e, next := n.entries[k], Next(cfg, at, n, k, found);
      VisitFromUnfolds(cfg, at, n, k, found);
      if !Skips(cfg, at, e.name) && e.node.Dir? && |found| < cfg.maxFiles {
        VisitFromReaches(cfg, at + [e.name], e.node, 0, found);
      }
      assert |next| >= cfg.maxFiles || |next| == |found| + |VisitEntry(cfg, at, n, k)|;
      VisitFromAdds(cfg, at, n, k + 1, next);
      VisitFromReaches(cfg, at, n, k + 1, next);
      hide VisitFrom, VisitEntry, Next;
    }
  }

  /** Whatever the limit, the walk finds only indexable files, and it misses one only if it finds as many as the limit
      says; once there are so many no further directory is entered. */
  lemma LimitedWalk(cfg: Config, root: Node, found: seq<Found>)
    requires root.Dir? && WellFormed(root)
    requires cfg.stateFile.Some? ==> cfg.stateFile.value != []
    ensures forall f <- Visit(cfg, [], root, []) :: Indexable(cfg, root, f.path) && Lookup(root, f.path) == Some(f.file)
    ensures |Visit(cfg, [], root, [])| >= cfg.maxFiles || |Visit(cfg, [], root, [])| == |VisitAll(cfg, [], root, 0)|
    ensures |found| >= cfg.maxFiles ==> Visit(cfg, [], root, found) == found
  {
    if cfg.maxFiles > 0 {
      VisitFromAdds(cfg, [], root, 0, []);
      VisitFromReaches(cfg, [], root, 0, []);
    }
    forall f | f in Visit(cfg, [], root, [])
      ensures Indexable(cfg, root, f.path) && Lookup(root, f.path) == Some(f.file)
    {
      assert f in VisitFrom(cfg, [], root, 0, [])[0..];
      FoundIsReachable(cfg, [], root, 0, f);
      assert f.path[0..] == f.path;
      ReachesIffShown(cfg, f.path);
    }
  }

  // ----- What is indexed -----

  /** The names that hide everything below them, the index's own file, and the size decide what is indexed. */
  lemma IndexableIff(cfg: Config, root: Node, p: Path)
    ensures Indexable(cfg, root, p) <==>
              && |p| > 0
              && ".git" !in p && ".flowdeck" !in p && "node_modules" !in p && "target" !in p && "coverage" !in p
              && (cfg.stateFile.Some? ==> !(cfg.stateFile.value <= p))
              && Lookup(root, p).Some? && Lookup(root, p).value.File? && Lookup(root, p).value.size <= cfg.maxFileBytes
  {
  }

  /** Links on the way are followed, one at the end is not, and nothing lies below a file. */
  lemma LStatSteps(n: Node, name: string, rest: Path)
    ensures LStat(n, []) == Some(n)
    ensures var p := [name] + rest;
            && (n.Dir? && Child(n, name).Some? ==> LStat(n, p) == LStat(Child(n, name).value, rest))
            && (n.Symlink? ==> LStat(n, p) == LStat(n.target, p))
            && (n.File? || n.Special? || (n.Dir? && Child(n, name).None?) ==> LStat(n, p) == None)
  {
    assert ([name] + rest)[1..] == rest;
  }

  /** Trees in which no directory lists a name twice, and only those, are well formed. */
  lemma WellFormedIff(n: Node)
    ensures n.Dir? ==>
              (WellFormed(n) <==>
                 && (forall i, j :: 0 <= i < |n.entries| && 0 <= j < |n.entries| && i != j ==>
                       n.entries[i].name != n.entries[j].name)
                 && forall i :: 0 <= i < |n.entries| ==> WellFormed(n.entries[i].node))
    ensures n.Symlink? ==> (WellFormed(n) <==> WellFormed(n.target))
    ensures n.File? || n.Special? ==> WellFormed(n)
  {
  }
}
