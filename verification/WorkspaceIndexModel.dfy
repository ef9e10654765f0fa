/** The snapshots of the workspace index as values: the memoised full refresh, the incremental
    refresh and invalidation, against an independent definition of a from-scratch scan. */
module WorkspaceIndexModel {
  import opened Options
  import opened WorkspaceFiles

  /** What indexing reads out of a source text. */
  datatype Info = Info(hash: string, symbols: seq<string>, dependencies: seq<string>)

  datatype Indexed = Indexed(path: Path, size: nat, mtime: nat, info: Info)

  /** The file list of a snapshot. It is kept in path order, so the paths determine it. */
  type Snapshot = map<Path, Indexed>

  datatype Error = WorkspaceNotFound | WorkspaceLimit | WorkspaceEscape | SaveFailed

  function IndexFile(extract: string -> Info, p: Path, f: Node): Indexed
    requires f.File?
  {
    Indexed(p, f.size, f.mtime, extract(f.text))
  }

  /** The snapshot that indexes every indexable file of the disk, and nothing else. */
  ghost predicate IsScan(cfg: Config, extract: string -> Info, root: Node, m: Snapshot) {
    && (forall p :: p in m <==> Indexable(cfg, root, p))
    && (forall p <- m :: m[p] == IndexFile(extract, p, Lookup(root, p).value))
  }

  // ----- Full refresh -----

  /** A file whose size and modification time are those of its old record keeps that record. */
  function Remember(extract: string -> Info, previous: Snapshot, f: Found): Indexed
    requires f.file.File?
  {
    if f.path in previous && previous[f.path].size == f.file.size && previous[f.path].mtime == f.file.mtime
    then previous[f.path]
    else IndexFile(extract, f.path, f.file)
  }

  function Refreshed(extract: string -> Info, previous: Snapshot, found: seq<Found>): Snapshot
    requires AllFiles(found)
  {
    if found == [] then map[]
    else
      var f := found[|found| - 1];
      Refreshed(extract, previous, found[..|found| - 1])[f.path := Remember(extract, previous, f)]
  }

  function RefreshedFrom(cfg: Config, extract: string -> Info, previous: Snapshot, root: Node): Snapshot
    requires root.Dir?
  {
    VisitKeepsFiles(cfg, [], root, []);
    Refreshed(extract, previous, Visit(cfg, [], root, []))
  }

  // ----- Incremental refresh -----

  /** A changed path as the first loop compares it: one leading `./` is dropped. */
  function Normal(raw: Path): Path {
    if |raw| > 1 && raw[0] == "." then raw[1..] else raw
  }

  /** `resolve`: where a path leads from a directory. A path whose first name is empty is absolute. */
  function Resolve(at: Path, raw: Path): Path {
    Walk(if |raw| > 1 && raw[0] == "" then [] else at, raw)
  }

  /** Empty, `.` and `..` names worked out. */
  function Walk(at: Path, raw: Path): Path
    decreases raw
  {
    if raw == [] then at
    else if raw[0] == "" || raw[0] == "." then Walk(at, raw[1..])
    else if raw[0] == ".." then Walk(if at == [] then [] else at[..|at| - 1], raw[1..])
    else Walk(at + [raw[0]], raw[1..])
  }

  predicate Escapes(workspace: Path, raw: Path) {
    !(workspace <= Resolve(workspace, raw))
  }

  /** Where a changed path lies below the workspace. */
  function Relative(workspace: Path, raw: Path): Path
    requires !Escapes(workspace, raw)
  {
    Resolve(workspace, raw)[|workspace|..]
  }

  predicate Touches(changed: seq<Path>, p: Path) {
    exists raw <- changed :: Normal(raw) <= p
  }

  /** The records no changed path names or lies above. */
  function Untouched(current: Snapshot, changed: seq<Path>): Snapshot {
    map p | p in current && !Touches(changed, p) :: current[p]
  }

  function Stat(disk: Option<Node>, p: Path): Option<Node> {
    if disk.Some? then LStat(disk.value, p) else None
  }

  function Reindexed(
      cfg: Config, extract: string -> Info, workspace: Path, disk: Option<Node>, keep: Snapshot, changed: seq<Path>)
      : Snapshot
    requires forall raw <- changed :: !Escapes(workspace, raw)
    decreases |changed|
  {
    if changed == [] then keep
    else
      var n := |changed| - 1;
      var before := Reindexed(cfg, extract, workspace, disk, keep, changed[..n]);
      var p := Relative(workspace, changed[n]);
      if IsSmallFile(cfg, Stat(disk, p)) then before[p := IndexFile(extract, p, Stat(disk, p).value)] else before
  }

  function RefreshedChanged(
      cfg: Config, extract: string -> Info, workspace: Path, disk: Option<Node>, current: Snapshot, changed: seq<Path>)
      : Result<Snapshot, Error>
  {
    if exists raw <- changed :: Escapes(workspace, raw) then Err(WorkspaceEscape)
    else Ok(Reindexed(cfg, extract, workspace, disk, Untouched(current, changed), changed))
  }

  /** Invalidation of some paths: here only the very path is compared. */
  function Invalidated(current: Snapshot, changed: seq<Path>): Snapshot {
    map p | p in current && !(exists raw <- changed :: Normal(raw) == p) :: current[p]
  }

  // ----- All workspaces -----

  /** A workspace as a call finds it: its identity, its resolved path, and the disk there, if anything. */
  datatype Workspace = Workspace(id: string, path: Path, disk: Option<Node>)

  /** A snapshot as it is kept: its files, and the time at which they were set. */
  datatype Resident = Resident(files: Snapshot, updatedAt: nat)

  /** The resident snapshots, and those the state file holds. */
  datatype Store = Store(snapshots: map<string, Resident>, saved: map<string, Resident>)

  datatype Outcome = Outcome(store: Store, reply: Result<Resident, Error>)

  /** `persist`, which writes every resident snapshot: the file is replaced as a whole, or the write throws. */
  function Persist(store: Store, saves: bool): Store {
    if saves then store.(saved := store.snapshots) else store
  }

  /** `state.set` and then `persist`. */
  function Commit(store: Store, id: string, m: Resident, saves: bool): Outcome {
    Outcome(
      Persist(store.(snapshots := store.snapshots[id := m]), saves),
      if saves then Ok(m) else Err(SaveFailed))
  }

  /** The files of the previous snapshot, if there is one. */
  function FilesOf(state: map<string, Resident>, id: string): Snapshot {
    if id in state then state[id].files else map[]
  }

  /** `now` is the time at which the call sets the snapshot. */
  function RefreshOutcome(
      cfg: Config, maxWorkspaces: nat, extract: string -> Info,
      store: Store, w: Workspace, now: nat, saves: bool): Outcome
  {
    var state := store.snapshots;
    if !(w.disk.Some? && w.disk.value.Dir?) then Outcome(store, Err(WorkspaceNotFound))
    else if w.id !in state && |state| >= maxWorkspaces then Outcome(store, Err(WorkspaceLimit))
    else
      var files := RefreshedFrom(cfg, extract, FilesOf(state, w.id), w.disk.value);
      Commit(store, w.id, Resident(files, now), saves)
  }

  function ChangedOutcome(
      cfg: Config, maxWorkspaces: nat, extract: string -> Info,
      store: Store, w: Workspace, changed: seq<Path>, now: nat, saves: bool): Outcome
  {
    var state := store.snapshots;
    if w.id !in state then RefreshOutcome(cfg, maxWorkspaces, extract, store, w, now, saves)
    else if changed == [] then Outcome(store, Ok(state[w.id]))
    else
      var r := RefreshedChanged(cfg, extract, w.path, w.disk, state[w.id].files, changed);
      if r.Ok? then Commit(store, w.id, Resident(r.value, now), saves) else Outcome(store, Err(r.error))
  }

  function InvalidatedStates(
      state: map<string, Resident>, id: string, changed: seq<Path>, now: nat): map<string, Resident>
  {
    if id !in state then state
    else if changed == [] then state - {id}
    else state[id := Resident(Invalidated(state[id].files, changed), now)]
  }

  /** An invalidation, and whether it throws. */
  function InvalidateOutcome(
      store: Store, id: string, changed: seq<Path>, now: nat, saves: bool): (Store, Option<Error>)
  {
    if id !in store.snapshots then (store, None)
    else
      (Persist(store.(snapshots := InvalidatedStates(store.snapshots, id, changed, now)), saves),
       if saves then None else Some(SaveFailed))
  }
}
