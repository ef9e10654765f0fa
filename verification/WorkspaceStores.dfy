/** The store of all workspaces: what a call for one leaves of the others, and what a failing call changes. */
module WorkspaceStores {
  import opened Options
  import opened WorkspaceFiles
  import opened WorkspaceIndexModel

  /** `t` differs from `s` at most at one workspace, and is not larger than the limit lets it grow. */
  ghost predicate Isolated(s: map<string, Resident>, t: map<string, Resident>, id: string, maxWorkspaces: nat) {
    && (forall other :: other != id ==> (other in t <==> other in s) && (other in s ==> t[other] == s[other]))
    && (|t| <= |s| || |t| <= maxWorkspaces)
  }

  lemma SameIsIsolated(s: map<string, Resident>, id: string, maxWorkspaces: nat)
    ensures Isolated(s, s, id, maxWorkspaces)
  {
  }

  lemma SizeOfSet(s: map<string, Resident>, id: string, m: Resident)
    ensures |s[id := m]| == |s| + if id in s then 0 else 1
  {
    var t := s[id := m];
    assert t.Keys == s.Keys + {id};
    assert |t.Keys| == |t| && |s.Keys| == |s|;
  }

  lemma SetIsIsolated(s: map<string, Resident>, id: string, m: Resident, maxWorkspaces: nat)
    requires id in s || |s| < maxWorkspaces
    ensures Isolated(s, s[id := m], id, maxWorkspaces)
  {
    SizeOfSet(s, id, m);
  }

  lemma DropIsIsolated(s: map<string, Resident>, id: string, maxWorkspaces: nat)
    requires id in s
    ensures Isolated(s, s - {id}, id, maxWorkspaces)
  {
    var t := s - {id};
    assert t.Keys == s.Keys - {id};
    assert |t.Keys| == |s.Keys| - 1;
  }

  lemma CommitIsIsolated(store: Store, id: string, m: Resident, saves: bool, maxWorkspaces: nat)
    requires id in store.snapshots || |store.snapshots| < maxWorkspaces
    ensures Isolated(store.snapshots, Commit(store, id, m, saves).store.snapshots, id, maxWorkspaces)
  {
    SetIsIsolated(store.snapshots, id, m, maxWorkspaces);
  }

  lemma RefreshIsIsolated(
      cfg: Config, maxWorkspaces: nat, extract: string -> Info, s: Store, w: Workspace, now: nat, saves: bool)
    ensures var o := RefreshOutcome(cfg, maxWorkspaces, extract, s, w, now, saves);
            Isolated(s.snapshots, o.store.snapshots, w.id, maxWorkspaces)
  {
    hide Isolated, RefreshedFrom, Commit, FilesOf;
    SameIsIsolated(s.snapshots, w.id, maxWorkspaces);
    if w.disk.Some? && w.disk.value.Dir? && (w.id in s.snapshots || |s.snapshots| < maxWorkspaces) {
      var files := RefreshedFrom(cfg, extract, FilesOf(s.snapshots, w.id), w.disk.value);
      CommitIsIsolated(s, w.id, Resident(files, now), saves, maxWorkspaces);
    }
  }

  lemma ChangedIsIsolated(
      cfg: Config, maxWorkspaces: nat, extract: string -> Info,
      s: Store, w: Workspace, changed: seq<Path>, now: nat, saves: bool)
    ensures var o := ChangedOutcome(cfg, maxWorkspaces, extract, s, w, changed, now, saves);
            Isolated(s.snapshots, o.store.snapshots, w.id, maxWorkspaces)
  {
    hide Isolated, RefreshedChanged, RefreshOutcome, Commit;
    RefreshIsIsolated(cfg, maxWorkspaces, extract, s, w, now, saves);
    SameIsIsolated(s.snapshots, w.id, maxWorkspaces);
    if w.id in s.snapshots {
      var r := RefreshedChanged(cfg, extract, w.path, w.disk, s.snapshots[w.id].files, changed);
      if r.Ok? {
        CommitIsIsolated(s, w.id, Resident(r.value, now), saves, maxWorkspaces);
      }
    }
  }

  lemma InvalidateIsIsolated(s: Store, id: string, changed: seq<Path>, now: nat, saves: bool, maxWorkspaces: nat)
    ensures Isolated(s.snapshots, InvalidateOutcome(s, id, changed, now, saves).0.snapshots, id, maxWorkspaces)
  {
    hide Isolated, Invalidated;
    SameIsIsolated(s.snapshots, id, maxWorkspaces);
    if id in s.snapshots {
      DropIsIsolated(s.snapshots, id, maxWorkspaces);
      SetIsIsolated(s.snapshots, id, Resident(Invalidated(s.snapshots[id].files, changed), now), maxWorkspaces);
    }
  }

  // ----- Calls -----

  datatype Call =
    | Refresh(w: Workspace)
    | RefreshChanged(w: Workspace, changed: seq<Path>)
    | Invalidate(id: string, changed: seq<Path>)

  function IdOf(c: Call): string {
    match c
    case Refresh(w) => w.id
    case RefreshChanged(w, _) => w.id
    case Invalidate(id, _) => id
  }

  /** A call, and the error it throws, if it does. */
  function Called(
      cfg: Config, maxWorkspaces: nat, extract: string -> Info, s: Store, c: Call, now: nat, saves: bool)
      : (Store, Option<Error>)
  {
    match c
    case Refresh(w) =>
      var o := RefreshOutcome(cfg, maxWorkspaces, extract, s, w, now, saves);
      (o.store, if o.reply.Ok? then None else Some(o.reply.error))
    case RefreshChanged(w, changed) =>
      var o := ChangedOutcome(cfg, maxWorkspaces, extract, s, w, changed, now, saves);
      (o.store, if o.reply.Ok? then None else Some(o.reply.error))
    case Invalidate(id, changed) => InvalidateOutcome(s, id, changed, now, saves)
  }

  /** A call for one workspace leaves the resident snapshots of the others, and keeps within the limit on workspaces,
      whether it fails or not. */
  lemma CallsAreIsolated(
      cfg: Config, maxWorkspaces: nat, extract: string -> Info, s: Store, c: Call, now: nat, saves: bool)
    ensures var (t, _) := Called(cfg, maxWorkspaces, extract, s, c, now, saves);
            Isolated(s.snapshots, t.snapshots, IdOf(c), maxWorkspaces)
  {
    hide Isolated, RefreshOutcome, ChangedOutcome, InvalidateOutcome;
    match c
    case Refresh(w) => RefreshIsIsolated(cfg, maxWorkspaces, extract, s, w, now, saves);
    case RefreshChanged(w, changed) => ChangedIsIsolated(cfg, maxWorkspaces, extract, s, w, changed, now, saves);
    case Invalidate(id, changed) => InvalidateIsIsolated(s, id, changed, now, saves, maxWorkspaces);
  }

  // ----- Failing calls -----

  /** There is a directory to scan, and room for its snapshot. */
  predicate CanScan(maxWorkspaces: nat, s: Store, w: Workspace) {
    w.disk.Some? && w.disk.value.Dir? && (w.id in s.snapshots || |s.snapshots| < maxWorkspaces)
  }

  /** The call gets as far as to change the resident snapshot. */
  predicate Commits(maxWorkspaces: nat, s: Store, c: Call) {
    match c
    case Refresh(w) => CanScan(maxWorkspaces, s, w)
    case RefreshChanged(w, changed) =>
      if w.id in s.snapshots then changed != [] && forall raw <- changed :: !Escapes(w.path, raw)
      else CanScan(maxWorkspaces, s, w)
    case Invalidate(id, _) => id in s.snapshots
  }

  /** The files that a call gives the workspace. An invalidation without paths leaves it none. */
  function FilesSet(cfg: Config, maxWorkspaces: nat, extract: string -> Info, s: Store, c: Call): Option<Snapshot>
    requires Commits(maxWorkspaces, s, c)
  {
    var files := FilesOf(s.snapshots, IdOf(c));
    match c
    case Refresh(w) => Some(RefreshedFrom(cfg, extract, files, w.disk.value))
    case RefreshChanged(w, changed) =>
      if w.id in s.snapshots then Some(Reindexed(cfg, extract, w.path, w.disk, Untouched(files, changed), changed))
      else Some(RefreshedFrom(cfg, extract, files, w.disk.value))
    case Invalidate(_, changed) => if changed == [] then None else Some(Invalidated(files, changed))
  }

  /** The workspace was given these very files at this very time already. */
  predicate Repeats(cfg: Config, maxWorkspaces: nat, extract: string -> Info, s: Store, c: Call, now: nat)
    requires Commits(maxWorkspaces, s, c)
  {
    var files := FilesSet(cfg, maxWorkspaces, extract, s, c);
    IdOf(c) in s.snapshots && files.Some? && s.snapshots[IdOf(c)] == Resident(files.value, now)
  }

  /** What the resident snapshots become in a call that gets as far as to change them: whether it can save them is
      not asked. */
  lemma CommittedCall(
      cfg: Config, maxWorkspaces: nat, extract: string -> Info, s: Store, c: Call, now: nat, saves: bool)
    requires Commits(maxWorkspaces, s, c)
    ensures var (t, error) := Called(cfg, maxWorkspaces, extract, s, c, now, saves);
            var files := FilesSet(cfg, maxWorkspaces, extract, s, c);
            && error == (if saves then None else Some(SaveFailed))
            && t.snapshots == (if files.Some? then s.snapshots[IdOf(c) := Resident(files.value, now)]
                               else s.snapshots - {IdOf(c)})
            && t.saved == (if saves then t.snapshots else s.saved)
  {
    hide RefreshedFrom, Reindexed, Untouched, Invalidated, Escapes;
  }

  /** A call that fails has changed nothing if and only if there was no directory to scan, no room for another
      workspace or a path that escapes, or it repeats what was set at the same time. That it could not save is the
      error exactly of the others, and it leaves the file as it was. */
  lemma FailedCallChangesNothingIff(
      cfg: Config, maxWorkspaces: nat, extract: string -> Info, s: Store, c: Call, now: nat, saves: bool)
    ensures var (t, error) := Called(cfg, maxWorkspaces, extract, s, c, now, saves);
            && (error == Some(SaveFailed) <==> Commits(maxWorkspaces, s, c) && !saves)
            && (error.Some? ==>
                  && t.saved == s.saved
                  && (t == s <==>
                      Commits(maxWorkspaces, s, c) ==> Repeats(cfg, maxWorkspaces, extract, s, c, now)))
  {
    if Commits(maxWorkspaces, s, c) {
      hide RefreshedFrom, Reindexed, Untouched, Invalidated, Called, Commits;
      CommittedCall(cfg, maxWorkspaces, extract, s, c, now, saves);
    } else {
      hide RefreshedFrom, Reindexed, Untouched, Invalidated, Escapes;
    }
  }

  /** Once the clock has moved on, the guards alone decide whether a call that fails has changed anything. */
  lemma LaterFailedCallChangesNothingIff(
      cfg: Config, maxWorkspaces: nat, extract: string -> Info, s: Store, c: Call, now: nat, saves: bool)
    requires IdOf(c) in s.snapshots ==> s.snapshots[IdOf(c)].updatedAt != now
    ensures var (t, error) := Called(cfg, maxWorkspaces, extract, s, c, now, saves);
            error.Some? ==> (t == s <==> !Commits(maxWorkspaces, s, c))
  {
    hide Called, FilesSet, Commits, IdOf;
    FailedCallChangesNothingIff(cfg, maxWorkspaces, extract, s, c, now, saves);
  }

  /** A refresh that cannot write the state file throws, and the new snapshot is resident all the same. */
  lemma RefreshThrowsAfterChange(
      cfg: Config, maxWorkspaces: nat, extract: string -> Info, id: string, path: Path, now: nat)
    requires maxWorkspaces > 0
    ensures var w := Workspace(id, path, Some(Dir([])));
            var o := RefreshOutcome(cfg, maxWorkspaces, extract, Store(map[], map[]), w, now, false);
            o.reply == Err(SaveFailed) && id in o.store.snapshots && o.store.saved == map[]
  {
    hide RefreshedFrom;
  }

  /** A call that finds file and memory in agreement leaves them so if and only if it saves, changes nothing by the
      guards, or repeats what was set at the same time; and one that saves a change brings them into agreement,
      whatever failed before. */
  lemma AgreesIff(cfg: Config, maxWorkspaces: nat, extract: string -> Info, s: Store, c: Call, now: nat, saves: bool)
    ensures var (t, error) := Called(cfg, maxWorkspaces, extract, s, c, now, saves);
            var commits := Commits(maxWorkspaces, s, c);
            && (s.saved == s.snapshots ==>
                  (t.saved == t.snapshots <==>
                   commits && !saves ==> Repeats(cfg, maxWorkspaces, extract, s, c, now)))
            && (commits && saves ==> t.saved == t.snapshots)
  {
    if Commits(maxWorkspaces, s, c) {
      hide RefreshedFrom, Reindexed, Untouched, Invalidated, Called, Commits;
      CommittedCall(cfg, maxWorkspaces, extract, s, c, now, saves);
    } else {
      hide RefreshedFrom, Reindexed, Untouched, Invalidated, Escapes;
    }
  }

  // ----- Runs of calls -----

  /** A call, the time it sets, and whether the file can be written then. */
  datatype Attempt = Attempt(call: Call, now: nat, saves: bool)

  function After(cfg: Config, maxWorkspaces: nat, extract: string -> Info, s: Store, attempts: seq<Attempt>): Store
    decreases |attempts|
  {
    if attempts == [] then s
    else
      var n := |attempts| - 1;
      var before := After(cfg, maxWorkspaces, extract, s, attempts[..n]);
      Called(cfg, maxWorkspaces, extract, before, attempts[n].call, attempts[n].now, attempts[n].saves).0
  }

  lemma StoppedCall(
      cfg: Config, maxWorkspaces: nat, extract: string -> Info, s: Store, c: Call, now: nat, saves: bool)
    requires !Commits(maxWorkspaces, s, c)
    ensures Called(cfg, maxWorkspaces, extract, s, c, now, saves).0 == s
  {
    hide RefreshedFrom, Reindexed, Untouched, Invalidated, Escapes;
  }

  /** Two calls that find the same in memory leave the same there, whatever the file holds and whether they can write
      it. */
  lemma CallIgnoresFile(
      cfg: Config, maxWorkspaces: nat, extract: string -> Info,
      s: Store, t: Store, c: Call, now: nat, saves: bool, also: bool)
    requires s.snapshots == t.snapshots
    ensures Called(cfg, maxWorkspaces, extract, s, c, now, saves).0.snapshots
         == Called(cfg, maxWorkspaces, extract, t, c, now, also).0.snapshots
  {
    assert Commits(maxWorkspaces, s, c) == Commits(maxWorkspaces, t, c);
    if Commits(maxWorkspaces, s, c) {
      assert FilesSet(cfg, maxWorkspaces, extract, s, c) == FilesSet(cfg, maxWorkspaces, extract, t, c);
      CommittedCall(cfg, maxWorkspaces, extract, s, c, now, saves);
      CommittedCall(cfg, maxWorkspaces, extract, t, c, now, also);
    } else {
      StoppedCall(cfg, maxWorkspaces, extract, s, c, now, saves);
      StoppedCall(cfg, maxWorkspaces, extract, t, c, now, also);
    }
    hide *;
  }

  /** Runs that differ only in which writes fail have the same in memory all along. */
  lemma {:induction false} MemoryIgnoresFailures(
      cfg: Config, maxWorkspaces: nat, extract: string -> Info,
      s: Store, attempts: seq<Attempt>, others: seq<Attempt>)
    requires |attempts| == |others|
    requires forall k :: 0 <= k < |attempts| ==>
               attempts[k].call == others[k].call && attempts[k].now == others[k].now
    ensures After(cfg, maxWorkspaces, extract, s, attempts).snapshots
         == After(cfg, maxWorkspaces, extract, s, others).snapshots
    decreases |attempts|
  {
    hide Called;
    if attempts != [] {
      var n := |attempts| - 1;
      MemoryIgnoresFailures(cfg, maxWorkspaces, extract, s, attempts[..n], others[..n]);
      CallIgnoresFile(
        cfg, maxWorkspaces, extract,
        After(cfg, maxWorkspaces, extract, s, attempts[..n]), After(cfg, maxWorkspaces, extract, s, others[..n]),
        attempts[n].call, attempts[n].now, attempts[n].saves, others[n].saves);
    }
  }

  /** The attempt at k changes memory and saves it. */
  predicate Saves(
      cfg: Config, maxWorkspaces: nat, extract: string -> Info, s: Store, attempts: seq<Attempt>, k: nat)
    requires k < |attempts|
  {
    attempts[k].saves && Commits(maxWorkspaces, After(cfg, maxWorkspaces, extract, s, attempts[..k]), attempts[k].call)
  }

  /** After any calls the file holds what was in memory after the last of them that changed memory and could save it,
      or what it held at first if there was none. */
  lemma {:induction false} FileIsLastSave(
      cfg: Config, maxWorkspaces: nat, extract: string -> Info, s: Store, attempts: seq<Attempt>, last: nat)
    requires last <= |attempts| && (last == 0 || Saves(cfg, maxWorkspaces, extract, s, attempts, last - 1))
    requires forall k: nat :: last <= k < |attempts| ==> !Saves(cfg, maxWorkspaces, extract, s, attempts, k)
    ensures After(cfg, maxWorkspaces, extract, s, attempts).saved
         == if last == 0 then s.saved else After(cfg, maxWorkspaces, extract, s, attempts[..last]).snapshots
    decreases |attempts|
  {
    hide Called, Commits, FilesSet;
    assert attempts[..|attempts|] == attempts;
    if attempts != [] {
      var n := |attempts| - 1;
      var before := After(cfg, maxWorkspaces, extract, s, attempts[..n]);
      var e := attempts[n];
      if Commits(maxWorkspaces, before, e.call) {
        CommittedCall(cfg, maxWorkspaces, extract, before, e.call, e.now, e.saves);
      } else {
        StoppedCall(cfg, maxWorkspaces, extract, before, e.call, e.now, e.saves);
      }
      if last <= n {
        assert !Saves(cfg, maxWorkspaces, extract, s, attempts, n);
        forall k: nat | k < n
          ensures Saves(cfg, maxWorkspaces, extract, s, attempts[..n], k)
               == Saves(cfg, maxWorkspaces, extract, s, attempts, k)
        {
          assert attempts[..n][..k] == attempts[..k];
        }
        FileIsLastSave(cfg, maxWorkspaces, extract, s, attempts[..n], last);
        assert attempts[..n][..last] == attempts[..last];
      }
    }
  }
}
