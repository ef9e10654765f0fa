/** The resident index of several workspaces, updated in place. */
module WorkspaceIndex {
  import opened Options
  import opened WorkspaceFiles
  import opened WorkspaceIndexModel

  class FdxWorkspaceIndex {
    const cfg: Config
    const maxWorkspaces: nat
    const extract: string -> Info
    var state: map<string, Resident>
    var saved: map<string, Resident>

    constructor (cfg: Config, maxWorkspaces: nat, extract: string -> Info)
      ensures this.cfg == cfg && this.maxWorkspaces == maxWorkspaces && this.extract == extract
      ensures Model() == Store(map[], map[])
    {
      this.cfg, this.maxWorkspaces, this.extract := cfg, maxWorkspaces, extract;
      state, saved := map[], map[];
    }

    ghost function Model(): Store
      reads this
    {
      Store(state, saved)
    }

    /** Writes what is resident, or throws. */
    method PersistState(saves: bool)
      modifies this`saved
      ensures Model() == Persist(old(Model()), saves)
    {
      if saves {
        saved := state;
      }
    }

    method Refresh(w: Workspace, now: nat, saves: bool) returns (reply: Result<Resident, Error>)
      modifies this`state, this`saved
      ensures Outcome(Model(), reply) == RefreshOutcome(cfg, maxWorkspaces, extract, old(Model()), w, now, saves)
    {
      if !(w.disk.Some? && w.disk.value.Dir?) {
        return Err(WorkspaceNotFound);
      }
      if w.id !in state && |state| >= maxWorkspaces {
        return Err(WorkspaceLimit);
      }
      var previous := FilesOf(state, w.id);
      var found := DiscoverFrom(cfg, [], w.disk.value, []);
      VisitKeepsFiles(cfg, [], w.disk.value, []);
      var files: Snapshot := map[];
      for k := 0 to |found|
        invariant files == Refreshed(extract, previous, found[..k])
      {
        var f := found[k];
        assert found[..k + 1][..k] == found[..k];
        if f.path in previous && previous[f.path].size == f.file.size && previous[f.path].mtime == f.file.mtime {
          files := files[f.path := previous[f.path]];
        } else {
          files := files[f.path := IndexFile(extract, f.path, f.file)];
        }
      }
      assert found[..|found|] == found;
      var index := Resident(files, now);
      state := state[w.id := index];
      PersistState(saves);
      return if saves then Ok(index) else Err(SaveFailed);
    }

    /** Also what every warm query reads. */
    method EnsureInitialized(w: Workspace, now: nat, saves: bool) returns (reply: Result<Resident, Error>)
      modifies this`state, this`saved
      ensures w.id in old(state) ==> Model() == old(Model()) && reply == Ok(state[w.id])
      ensures w.id !in old(state) ==>
                Outcome(Model(), reply) == RefreshOutcome(cfg, maxWorkspaces, extract, old(Model()), w, now, saves)
    {
      if w.id in state {
        return Ok(state[w.id]);
      }
      reply := Refresh(w, now, saves);
    }

    method RefreshChanged(w: Workspace, changed: seq<Path>, now: nat, saves: bool)
        returns (reply: Result<Resident, Error>)
      modifies this`state, this`saved
      ensures Outcome(Model(), reply)
           == ChangedOutcome(cfg, maxWorkspaces, extract, old(Model()), w, changed, now, saves)
    {
      if w.id !in state {
        reply := Refresh(w, now, saves);
        return;
      }
      if changed == [] {
        return Ok(state[w.id]);
      }
      var current := state[w.id].files;
      var keep := map p | p in current && !Touches(changed, p) :: current[p];
      var base := keep;
      for k := 0 to |changed|
        invariant forall raw <- changed[..k] :: !Escapes(w.path, raw)
        invariant keep == Reindexed(cfg, extract, w.path, w.disk, base, changed[..k])
      {
        if Escapes(w.path, changed[k]) {
          return Err(WorkspaceEscape);
        }
        assert changed[..k + 1] == changed[..k] + [changed[k]];
        var p := Relative(w.path, changed[k]);
        var st := Stat(w.disk, p);
        if st.Some? && st.value.File? && st.value.size <= cfg.maxFileBytes {
          keep := keep[p := IndexFile(extract, p, st.value)];
        }
      }
      assert changed[..|changed|] == changed;
      var index := Resident(keep, now);
      state := state[w.id := index];
      PersistState(saves);
      return if saves then Ok(index) else Err(SaveFailed);
    }

    method Invalidate(id: string, changed: seq<Path>, now: nat, saves: bool) returns (failure: Option<Error>)
      modifies this`state, this`saved
      ensures (Model(), failure) == InvalidateOutcome(old(Model()), id, changed, now, saves)
    {
      if id !in state {
        return None;
      }
      if changed == [] {
        state := state - {id};
      } else {
        var current := state[id].files;
        var kept := map p | p in current && !(exists raw <- changed :: Normal(raw) == p) :: current[p];
        state := state[id := Resident(kept, now)];
      }
      PersistState(saves);
      return if saves then None else Some(SaveFailed);
    }
  }
}
