/** The queries on a snapshot: which files the requested paths select, and when a warm query is as good as one that
    rescans. */
module WorkspaceQueries {
  import opened Options
  import opened WorkspaceFiles
  import opened WorkspaceIndexModel
  import opened WorkspaceIndexTheorems

  predicate SpellsRoot(raw: Path) {
    raw == ["."] || raw == [".", ""]
  }

  /** `selectFiles`. A path that resolves to the workspace itself matches no file: it is only as `.` or `./` that the
      workspace can be asked for. */
  function Select(workspace: Path, m: Snapshot, paths: seq<Path>): Result<Snapshot, Error> {
    if paths == [] || exists raw <- paths :: SpellsRoot(raw) then Ok(m)
    else if exists raw <- paths :: Escapes(workspace, raw) then Err(WorkspaceEscape)
    else Ok(map p | p in m && Requested(workspace, paths, p) :: m[p])
  }

  predicate Requested(workspace: Path, paths: seq<Path>, p: Path)
    requires forall raw <- paths :: !Escapes(workspace, raw)
  {
    exists raw <- paths :: Relative(workspace, raw) != [] && Relative(workspace, raw) <= p
  }

  /** A file at or below the place that some path leads to. */
  predicate Below(workspace: Path, paths: seq<Path>, p: Path) {
    exists raw <- paths :: Resolve(workspace, raw) <= workspace + p
  }

  lemma RelativeIsBelow(workspace: Path, raw: Path, p: Path)
    requires !Escapes(workspace, raw)
    ensures Relative(workspace, raw) <= p <==> Resolve(workspace, raw) <= workspace + p
  {
    assert Resolve(workspace, raw) == workspace + Relative(workspace, raw);
    if Resolve(workspace, raw) <= workspace + p {
      assert (workspace + p)[|workspace|..][..|Relative(workspace, raw)|] == Relative(workspace, raw);
    }
    if Relative(workspace, raw) <= p {
      assert (workspace + p)[..|Resolve(workspace, raw)|] == Resolve(workspace, raw);
    }
  }

  lemma RootIsAboveAll(workspace: Path, raw: Path, p: Path)
    requires SpellsRoot(raw)
    ensures Resolve(workspace, raw) <= workspace + p
  {
    assert Walk(workspace, raw) == Walk(workspace, raw[1..]);
    if |raw| > 1 {
      assert Walk(workspace, raw[1..]) == Walk(workspace, raw[1..][1..]);
    }
  }

  /** Paths inside the workspace select the files at or below the places they lead to if and only if `.` or `./` is
      among them or every file below the workspace itself, should another spelling of it be among them, is requested
      otherwise as well. */
  lemma SelectsBelowIff(workspace: Path, m: Snapshot, paths: seq<Path>)
    requires paths != [] && forall raw <- paths :: !Escapes(workspace, raw)
    ensures Select(workspace, m, paths) == Ok(map p | p in m && Below(workspace, paths, p) :: m[p])
       <==> || (exists raw <- paths :: SpellsRoot(raw))
            || (forall raw <- paths :: Resolve(workspace, raw) != workspace)
            || (forall p <- m :: Requested(workspace, paths, p))
  {
    var below := map p | p in m && Below(workspace, paths, p) :: m[p];
    if exists raw <- paths :: SpellsRoot(raw) {
      forall p | p in m
        ensures Below(workspace, paths, p)
      {
        var raw :| raw in paths && SpellsRoot(raw);
        RootIsAboveAll(workspace, raw, p);
      }
      assert below == m;
    } else {
      var selected := Select(workspace, m, paths).value;
      forall p
        ensures Below(workspace, paths, p) <==>
          Requested(workspace, paths, p) || exists raw <- paths :: Resolve(workspace, raw) == workspace
      {
        BelowIsRequested(workspace, paths, p);
      }
      if selected == below && exists raw <- paths :: Resolve(workspace, raw) == workspace {
        forall p | p in m
          ensures Requested(workspace, paths, p)
        {
          assert p in below && p in selected;
        }
      }
    }
  }

  /** What a query selects, for any paths: every file if none is given or `.` or `./` is among them; otherwise nothing
      if one leads out of the workspace, but an error; otherwise the files at or below a place other than the workspace
      itself that one leads to. */
  lemma SelectIff(workspace: Path, m: Snapshot, paths: seq<Path>, p: Path)
    ensures var r := Select(workspace, m, paths);
            if paths == [] || ["."] in paths || [".", ""] in paths then r == Ok(m)
            else if exists raw <- paths :: !(workspace <= Resolve(workspace, raw)) then r == Err(WorkspaceEscape)
            else
              && r.Ok?
              && (p in r.value <==>
                    p in m && exists raw <- paths ::
                      Resolve(workspace, raw) != workspace && Resolve(workspace, raw) <= workspace + p)
              && (p in r.value ==> r.value[p] == m[p])
  {
    hide Resolve;
    forall raw | raw in paths && workspace <= Resolve(workspace, raw)
      ensures Relative(workspace, raw) <= p <==> Resolve(workspace, raw) <= workspace + p
      ensures Relative(workspace, raw) == [] <==> Resolve(workspace, raw) == workspace
    {
      RelativeIsBelow(workspace, raw, p);
      assert Resolve(workspace, raw) == workspace + Relative(workspace, raw);
    }
  }

  lemma BelowIsRequested(workspace: Path, paths: seq<Path>, p: Path)
    requires forall raw <- paths :: !Escapes(workspace, raw)
    ensures Below(workspace, paths, p) <==>
      Requested(workspace, paths, p) || exists raw <- paths :: Resolve(workspace, raw) == workspace
  {
    hide Resolve;
    forall raw | raw in paths
      ensures Relative(workspace, raw) <= p <==> Resolve(workspace, raw) <= workspace + p
      ensures Relative(workspace, raw) == [] <==> Resolve(workspace, raw) == workspace
    {
      RelativeIsBelow(workspace, raw, p);
      assert Resolve(workspace, raw) == workspace + Relative(workspace, raw);
    }
  }

  /** Asked for the workspace itself in another spelling, a query selects nothing. */
  lemma OtherSpellingSelectsNothing(workspace: Path, m: Snapshot, name: string)
    requires name != "" && name != "." && name != ".."
    ensures var paths := [[name, ".."]];
            Select(workspace, m, paths) == Ok(map[]) && forall p <- m :: Below(workspace, paths, p)
  {
    var raw := [name, ".."];
    assert raw[1..] == [".."] && raw[1..][1..] == [];
    assert (workspace + [name])[..|workspace|] == workspace;
    assert Walk(workspace, raw) == Walk(workspace + [name], raw[1..]) == Walk(workspace, []);
    assert raw in [raw];
    assert Relative(workspace, raw) == [];
    assert forall p :: !Requested(workspace, [raw], p);
  }

  /** Whatever is asked of it, a resident snapshot that is the scan of the disk answers as a rescan would. */
  lemma WarmIsRescan<Answer>(
      cfg: Config, maxWorkspaces: nat, extract: string -> Info, seen: (Path, Node) -> bool,
      s: Store, w: Workspace, query: Snapshot -> Answer, now: nat, saves: bool)
    requires cfg.stateFile.Some? ==> cfg.stateFile.value != []
    requires Honest(seen) && w.disk.Some? && Walkable(cfg, seen, w.disk.value)
    requires w.id in s.snapshots && IsScan(cfg, extract, w.disk.value, s.snapshots[w.id].files)
    ensures var o := RefreshOutcome(cfg, maxWorkspaces, extract, s, w, now, saves);
            && o.store.snapshots == s.snapshots[w.id := s.snapshots[w.id].(updatedAt := now)]
            && (saves ==> o.reply.Ok? && query(o.reply.value.files) == query(s.snapshots[w.id].files))
  {
    FreshIsFixed(cfg, extract, w.path, seen, w.disk.value, s.snapshots[w.id].files);
  }
}
