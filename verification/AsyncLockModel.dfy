/** Any number of processes that take, judge, steal and release one lock file, one file operation at a time. */
module AsyncLockModel {
  import opened Options

  /** Where a process is in `acquireLock` or after it. Between creating the file and writing its PID into it, a
      process is filling it. `aged` says that the file was older than `staleMs` when it was looked at. */
  datatype Phase =
    | Idle
    | Creating
    | Filling(stealing: bool)
    | Holding
    | Looking
    | Reading(aged: bool)
    | Judging(aged: bool, pid: Option<nat>)
    | Unlinking
    | Recreating
    | Waiting
    | Dead

  /** `creator` is not on disk: it says whose file this is before its PID is in it. */
  datatype LockFile = LockFile(creator: nat, pid: Option<nat>)

  /** `robbed` are the processes whose file another process removed while it was theirs. */
  datatype State = State(phases: map<nat, Phase>, file: Option<LockFile>, robbed: set<nat>)

  datatype Action =
    | Begin | Create | CreateFails | Fill | FillFails
    | Look(aged: bool) | Read | ReadFails | Judge | Unlink | UnlinkFails | Recreate
    | Retry | GiveUp | Release | Exit

  datatype Event = Event(who: nat, action: Action)

  function PhaseOf(s: State, p: nat): Phase {
    if p in s.phases then s.phases[p] else Idle
  }

  /** The lock file is this process's own from its creation to its release. */
  predicate Possesses(s: State, p: nat) {
    PhaseOf(s, p).Filling? || PhaseOf(s, p).Holding?
  }

  predicate Alive(s: State, p: nat) {
    !PhaseOf(s, p).Dead?
  }

  /** A known PID decides by itself; the age counts only without one. */
  predicate IsStale(pid: Option<nat>, alive: bool, aged: bool) {
    if pid.Some? then !alive else aged
  }

  /** Whether the process whose PID is in hand lives. */
  predicate HolderAlive(s: State, phase: Phase) {
    phase.Judging? && phase.pid.Some? && Alive(s, phase.pid.value)
  }

  /** Where an action takes a process. From anywhere else it leaves the process where it is. */
  function Next(file: Option<LockFile>, holderAlive: bool, phase: Phase, action: Action): Phase {
    match action
    case Begin => if phase.Idle? then Creating else phase
    case Create => if !phase.Creating? then phase else if file.None? then Filling(false) else Looking
    case CreateFails => if phase.Creating? then Idle else if phase.Recreating? then Waiting else phase
    case Fill => if phase.Filling? then Holding else phase
    case FillFails => if !phase.Filling? then phase else if phase.stealing then Waiting else Idle
    case Look(aged) => if !phase.Looking? then phase else if file.None? then Waiting else Reading(aged)
    case Read => if !phase.Reading? then phase else Judging(phase.aged, if file.Some? then file.value.pid else None)
    case ReadFails => if !phase.Reading? then phase else Judging(phase.aged, None)
    case Judge =>
      if !phase.Judging? then phase
      else if IsStale(phase.pid, holderAlive, phase.aged) then Unlinking
      else Waiting
    case Unlink => if phase.Unlinking? then Recreating else phase
    case UnlinkFails => if phase.Unlinking? then Recreating else phase
    case Recreate => if !phase.Recreating? then phase else if file.None? then Filling(true) else Waiting
    case Retry => if phase.Waiting? then Creating else phase
    case GiveUp => if phase.Waiting? then Idle else phase
    case Release => if phase.Holding? then Idle else phase
    case Exit => Dead
  }

  /** What an action does to the lock file: create it, write the PID into it, remove it, or nothing; or the process
      gives up what it has. */
  datatype Change = Nothing | Makes | Fills | Abandons | Removes

  function ChangeOf(file: Option<LockFile>, phase: Phase, action: Action): Change {
    match action
    case Create => if phase.Creating? && file.None? then Makes else Nothing
    case Recreate => if phase.Recreating? && file.None? then Makes else Nothing
    case Fill => if phase.Filling? then Fills else Nothing
    case FillFails => if phase.Filling? then Abandons else Nothing
    case Unlink => if phase.Unlinking? then Removes else Nothing
    case Release => if phase.Holding? then Removes else Nothing
    case Exit => Abandons
    case _ => Nothing
  }

  /** A removed file that was another's, and still its own, is a robbery. */
  function RobbedBy(s: State, p: nat): set<nat> {
    if s.file.Some? && s.file.value.creator != p && Possesses(s, s.file.value.creator)
    then {s.file.value.creator}
    else {}
  }

  function FileAfter(change: Change, file: Option<LockFile>, p: nat): Option<LockFile> {
    match change
    case Makes => Some(LockFile(p, None))
    case Fills => if file.Some? && file.value.creator == p then Some(LockFile(p, Some(p))) else file
    case Removes => None
    case _ => file
  }

  function RobbedAfter(change: Change, s: State, p: nat): set<nat> {
    match change
    case Abandons => s.robbed - {p}
    case Removes => s.robbed + RobbedBy(s, p) - {p}
    case _ => s.robbed
  }

  /** One file operation. */
  function Step(s: State, e: Event): State {
    var phase := PhaseOf(s, e.who);
    var change := ChangeOf(s.file, phase, e.action);
    State(
      s.phases[e.who := Next(s.file, HolderAlive(s, phase), phase, e.action)],
      FileAfter(change, s.file, e.who),
      RobbedAfter(change, s, e.who))
  }

  function Run(s: State, events: seq<Event>): State
    decreases |events|
  {
    if events == [] then s else Run(Step(s, events[0]), events[1..])
  }

  const INITIAL := State(map[], None, {})
}
