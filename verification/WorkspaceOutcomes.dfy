/** What the calls of the workspace index do to the records of a workspace and what they answer, with changed paths in
    the spellings that callers use. */
module WorkspaceOutcomes {
  import opened Options
  import opened WorkspaceFiles
  import opened WorkspaceIndexModel
  import opened WorkspaceIndexTheorems
  import opened WorkspaceChanges
  import opened WorkspaceStores

  // ----- Spellings -----

  /** The path as it stands, or with one `./` before it. A path that itself begins with `.` counts only in the second
      spelling. */
  ghost predicate Spells(raw: Path, p: Path) {
    || (p != [] && raw == ["."] + p)
    || (raw == p && (|p| <= 1 || p[0] != "."))
  }

  lemma NormalIff(raw: Path, p: Path)
    ensures Normal(raw) == p <==> Spells(raw, p)
  {
    if |raw| > 1 && raw[0] == "." {
      assert raw == ["."] + raw[1..];
    }
    assert (["."] + p)[1..] == p;
  }

  /** A changed path touches a record if and only if it spells the record's path or one above it. */
  lemma TouchesIff(changed: seq<Path>, p: Path)
    ensures Touches(changed, p) <==> exists raw <- changed, n: nat {:trigger p[..n], raw in changed} ::
              n <= |p| && Spells(raw, p[..n])
  {
    if raw :| raw in changed && Normal(raw) <= p {
      NormalIff(raw, Normal(raw));
      assert p[..|Normal(raw)|] == Normal(raw);
    }
    if raw, n: nat :| raw in changed && n <= |p| && Spells(raw, p[..n]) {
      NormalIff(raw, p[..n]);
    }
  }

  /** Where a spelling leads: canonical names below the place it is resolved at or, after a leading `/`, below the root;
      `.` and an empty path to that place itself; `..` to the one above. */
  lemma ResolveIs(at: Path, p: Path)
    requires Canonical(p)
    ensures Resolve(at, p) == at + p && Resolve(at, ["."] + p) == at + p
    ensures Resolve(at, [""] + p) == p
    ensures Resolve(at, [""]) == at && Resolve(at, []) == at
    ensures at != [] ==> Resolve(at, [".."]) == at[..|at| - 1]
    ensures Resolve([], [".."]) == []
  {
    assert (["."] + p)[1..] == p && ([""] + p)[1..] == p;
    assert [""][1..] == [] && [".."][1..] == [];
    CanonicalIsItself(at, p);
    CanonicalWalks(at, p);
    CanonicalWalks([], p);
    assert [] + p == p;
  }

  // ----- Refreshes -----

  /** A full refresh keeps the record of an indexable file whose size and modification time it knows, and makes a new
      one of any other. */
  lemma RefreshRemembersIff(cfg: Config, extract: string -> Info, root: Node, previous: Snapshot, p: Path)
    requires root.Dir? && WellFormed(root) && |VisitAll(cfg, [], root, 0)| <= cfg.maxFiles
    requires cfg.stateFile.Some? ==> cfg.stateFile.value != []
    ensures var m := RefreshedFrom(cfg, extract, previous, root);
            && (p in m <==> Indexable(cfg, root, p))
            && (p in m ==>
                  var f := Lookup(root, p).value;
                  m[p] == if p in previous && (previous[p].size, previous[p].mtime) == (f.size, f.mtime)
                          then previous[p]
                          else Indexed(p, f.size, f.mtime, extract(f.text)))
  {
    hide Visit, VisitAll, Refreshed, Indexable;
    VisitKeepsFiles(cfg, [], root, []);
    DiscoversIndexable(cfg, root, p);
    IndexableIsFile(cfg, root, p);
    RefreshedHolds(extract, previous, Visit(cfg, [], root, []), p);
  }

  lemma IndexableIsFile(cfg: Config, root: Node, p: Path)
    ensures Indexable(cfg, root, p) ==> Lookup(root, p).Some? && Lookup(root, p).value.File?
  {
  }

  /** Which error a call throws: there is no directory to scan, no room for another workspace, a path that leads out
      of it, or no way to save. */
  lemma ErrorIff(cfg: Config, maxWorkspaces: nat, extract: string -> Info, s: Store, c: Call, now: nat, saves: bool)
    ensures var error := Called(cfg, maxWorkspaces, extract, s, c, now, saves).1;
            var known := IdOf(c) in s.snapshots;
            var scans := c.Refresh? || (c.RefreshChanged? && !known);
            && (error == Some(WorkspaceNotFound) <==> scans && !(c.w.disk.Some? && c.w.disk.value.Dir?))
            && (error == Some(WorkspaceLimit) <==>
                  scans && c.w.disk.Some? && c.w.disk.value.Dir? && !known && |s.snapshots| >= maxWorkspaces)
            && (error == Some(WorkspaceEscape) <==>
                  c.RefreshChanged? && known && exists raw <- c.changed :: !(c.w.path <= Resolve(c.w.path, raw)))
            && (error == Some(SaveFailed) <==> Commits(maxWorkspaces, s, c) && !saves)
  {
    hide RefreshedFrom, Reindexed, Untouched, Invalidated, Resolve;
  }

  /** A refresh that does not throw answers with what is resident then. */
  lemma AnswerIsResident(
      cfg: Config, maxWorkspaces: nat, extract: string -> Info,
      s: Store, w: Workspace, changed: seq<Path>, now: nat, saves: bool)
    ensures var o := RefreshOutcome(cfg, maxWorkspaces, extract, s, w, now, saves);
            o.reply.Ok? ==> w.id in o.store.snapshots && o.reply.value == o.store.snapshots[w.id]
    ensures var o := ChangedOutcome(cfg, maxWorkspaces, extract, s, w, changed, now, saves);
            o.reply.Ok? ==> w.id in o.store.snapshots && o.reply.value == o.store.snapshots[w.id]
  {
    hide RefreshedFrom, RefreshedChanged;
  }

  /** What an incremental refresh makes of each record: read again if a changed path leads to a small file there,
      otherwise dropped if one spells it or a place above it, and otherwise kept. */
  lemma RefreshChangedIff(
      cfg: Config, maxWorkspaces: nat, extract: string -> Info,
      s: Store, w: Workspace, changed: seq<Path>, now: nat, saves: bool, p: Path)
    requires w.id in s.snapshots && changed != [] && w.disk.Some?
    requires forall raw <- changed :: w.path <= Resolve(w.path, raw)
    ensures var t := ChangedOutcome(cfg, maxWorkspaces, extract, s, w, changed, now, saves).store;
            && w.id in t.snapshots && t.snapshots[w.id].updatedAt == now
            && var before, files := s.snapshots[w.id].files, t.snapshots[w.id].files;
               var f := LStat(w.disk.value, p);
               if (exists raw <- changed :: Resolve(w.path, raw) == w.path + p) && IsSmallFile(cfg, f)
               then p in files && files[p] == Indexed(p, f.value.size, f.value.mtime, extract(f.value.text))
               else if Touches(changed, p) then p !in files
               else (p in files <==> p in before) && (p in files ==> files[p] == before[p])
  {
    hide Resolve, LStat, Reindexed, Touches;
    var keep := Untouched(s.snapshots[w.id].files, changed);
    ReindexedHolds(cfg, extract, w.path, w.disk.value, keep, changed, p);
    forall raw | raw in changed
      ensures Relative(w.path, raw) == p <==> Resolve(w.path, raw) == w.path + p
    {
      assert Resolve(w.path, raw) == w.path + Relative(w.path, raw);
    }
  }

  // ----- Invalidations -----

  /** An invalidation takes out the records whose paths are spelled, and leaves every other as it was; one without
      paths takes out the workspace. Of a workspace that is not resident there is nothing to take out. */
  lemma InvalidateIff(s: Store, id: string, changed: seq<Path>, now: nat, saves: bool, p: Path)
    ensures var t := InvalidateOutcome(s, id, changed, now, saves).0;
            && (id !in s.snapshots ==> t == s)
            && (id in s.snapshots && changed == [] ==> id !in t.snapshots)
            && (id in s.snapshots && changed != [] ==>
                  && id in t.snapshots && t.snapshots[id].updatedAt == now
                  && var before, files := s.snapshots[id].files, t.snapshots[id].files;
                     && (p in files <==> p in before && forall raw <- changed :: !Spells(raw, p))
                     && (p in files ==> files[p] == before[p]))
  {
    hide Normal, Spells;
    forall raw | raw in changed
      ensures Normal(raw) == p <==> Spells(raw, p)
    {
      NormalIff(raw, p);
    }
  }

  /** Does not scan the workspace anew. */
  predicate Keeps(id: string, a: Attempt) {
    IdOf(a.call) != id || a.call.Invalidate?
  }

  /** A path that is invalidated in either spelling is not in memory until the workspace is refreshed, whatever else is
      called and whatever fails to be saved. */
  lemma {:induction false} InvalidatedIsGone(
      cfg: Config, maxWorkspaces: nat, extract: string -> Info,
      s: Store, id: string, changed: seq<Path>, raw: Path, p: Path, now: nat, saves: bool, later: seq<Attempt>)
    requires raw in changed && Spells(raw, p)
    requires forall a <- later :: Keeps(id, a)
    ensures var t := InvalidateOutcome(s, id, changed, now, saves).0;
            p !in FilesOf(After(cfg, maxWorkspaces, extract, t, later).snapshots, id)
    decreases |later|
  {
    hide Spells, Called;
    var t := InvalidateOutcome(s, id, changed, now, saves).0;
    if later == [] {
      InvalidateIff(s, id, changed, now, saves, p);
    } else {
      var n := |later| - 1;
      var a := later[n];
      InvalidatedIsGone(cfg, maxWorkspaces, extract, s, id, changed, raw, p, now, saves, later[..n]);
      KeepsOut(cfg, maxWorkspaces, extract, After(cfg, maxWorkspaces, extract, t, later[..n]), id, a, p);
    }
  }

  lemma KeepsOut(
      cfg: Config, maxWorkspaces: nat, extract: string -> Info, s: Store, id: string, a: Attempt, p: Path)
    requires Keeps(id, a) && p !in FilesOf(s.snapshots, id)
    ensures p !in FilesOf(Called(cfg, maxWorkspaces, extract, s, a.call, a.now, a.saves).0.snapshots, id)
  {
    hide RefreshOutcome, ChangedOutcome, Invalidated;
    CallsAreIsolated(cfg, maxWorkspaces, extract, s, a.call, a.now, a.saves);
    if a.call.Invalidate? && a.call.id == id {
      InvalidateIff(s, id, a.call.changed, a.now, a.saves, p);
    }
  }
}
