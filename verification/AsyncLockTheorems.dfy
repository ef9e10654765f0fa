/** When the file lock excludes: in every run, all but the creator of the present file have been robbed of theirs;
    in the runs named here nobody is ever robbed; and each condition on those runs is needed. */
module AsyncLockTheorems {
  import opened Options
  import opened AsyncLockModel

  // ----- Every run -----

  /** A process that possesses the lock created the file that is there, unless it was robbed. */
  ghost predicate Inv(s: State) {
    && (forall p: nat :: Possesses(s, p) ==> p in s.robbed || (s.file.Some? && s.file.value.creator == p))
    && (forall p: nat :: p in s.robbed ==> Possesses(s, p))
    && (s.file.Some? && s.file.value.pid.Some? ==> s.file.value.pid == Some(s.file.value.creator))
  }

  /** How the mover's possession goes with what it does to the file. */
  lemma MoverPossession(s: State, e: Event)
    ensures var was, has := Possesses(s, e.who), Possesses(Step(s, e), e.who);
            match ChangeOf(s.file, PhaseOf(s, e.who), e.action)
            case Nothing => has == was && (PhaseOf(s, e.who).Holding? ==> PhaseOf(Step(s, e), e.who).Holding?)
            case Makes => has && !was && s.file.None?
            case Fills => has && was && PhaseOf(Step(s, e), e.who).Holding?
            case Abandons => !has && (PhaseOf(s, e.who).Filling? || e.action.Exit?)
            case Removes => !has && (PhaseOf(s, e.who).Holding? || PhaseOf(s, e.who).Unlinking?)
  {
  }

  lemma StepInv(s: State, e: Event)
    requires Inv(s)
    ensures Inv(Step(s, e))
  {
    MoverPossession(s, e);
    hide Next, ChangeOf;
    var t := Step(s, e);
    assert forall q: nat :: q != e.who ==> PhaseOf(t, q) == PhaseOf(s, q);
  }

  lemma {:induction false} RunInv(s: State, events: seq<Event>)
    requires Inv(s)
    ensures Inv(Run(s, events))
    decreases |events|
  {
    if events != [] {
      StepInv(s, events[0]);
      RunInv(Step(s, events[0]), events[1..]);
    }
  }

  /** In every run, with deaths, stalls and thefts in any order: of two processes that possess the lock at once, one
      has had its file removed by another process. */
  lemma TwoHoldersMeanRobbery(events: seq<Event>, p: nat, q: nat)
    requires p != q
    ensures var s := Run(INITIAL, events);
            Possesses(s, p) && Possesses(s, q) ==> p in s.robbed || q in s.robbed
  {
    RunInv(INITIAL, events);
  }

  // ----- When exclusion is lost -----

  ghost predicate Exclusive(s: State) {
    forall p: nat, q: nat :: Possesses(s, p) && Possesses(s, q) ==> p == q
  }

  /** Every event of a run meets a condition where it happens. */
  ghost predicate Keeps(condition: (State, Event) -> bool, s: State, events: seq<Event>)
    decreases |events|
  {
    events != [] ==> condition(s, events[0]) && Keeps(condition, Step(s, events[0]), events[1..])
  }

  /** A process removes the file of another that still possesses the lock. */
  ghost predicate Robs(s: State, e: Event) {
    && ChangeOf(s.file, PhaseOf(s, e.who), e.action).Removes?
    && s.file.Some? && s.file.value.creator != e.who && Possesses(s, s.file.value.creator)
  }

  /** That is exactly when a step robs somebody, and it is the `unlink` of a thief that does it: a release finds its
      own file as long as nobody has been robbed. */
  lemma StepRobsIff(s: State, e: Event)
    requires Inv(s) && s.robbed == {}
    ensures Step(s, e).robbed != {} <==> Robs(s, e)
    ensures Robs(s, e) ==> e.action.Unlink?
  {
    hide Next;
    if Robs(s, e) {
      assert s.file.value.creator in Step(s, e).robbed;
      assert !Possesses(s, e.who);
    }
  }

  lemma NobodyRobbed(s: State)
    requires Inv(s) && s.robbed == {}
    ensures Exclusive(s)
  {
    hide Possesses;
  }

  /** While nobody has been robbed, no event but a thief's `unlink` can lead to two holders, now or next. */
  lemma NobodyRobbedNext(s: State, e: Event)
    requires Inv(s) && s.robbed == {} && !Robs(s, e)
    ensures Inv(Step(s, e)) && Step(s, e).robbed == {} && Exclusive(Step(s, e))
  {
    StepInv(s, e);
    StepRobsIff(s, e);
    hide Step, Inv, Robs;
    NobodyRobbed(Step(s, e));
  }

  /** After a robbery the thief has only to take the lock. */
  lemma RobberyCostsExclusion(s: State, e: Event)
    requires Inv(s) && s.robbed == {} && Robs(s, e)
    ensures !Exclusive(Step(Step(s, e), Event(e.who, Recreate)))
  {
    StepRobsIff(s, e);
    var victim := s.file.value.creator;
    var t := Step(s, e);
    assert PhaseOf(s, e.who).Unlinking? && PhaseOf(t, e.who).Recreating? && t.file.None?;
    assert PhaseOf(t, victim) == PhaseOf(s, victim);
    var u := Step(t, Event(e.who, Recreate));
    assert PhaseOf(u, e.who) == Filling(true) && PhaseOf(u, victim) == PhaseOf(t, victim);
    assert Possesses(u, e.who) && Possesses(u, victim);
  }

  /** Wherever the run is cut, there is one holder at most, and still is after any one event other than an
      `unlink`: whoever tries to take the lock there does not get it beside another. */
  ghost predicate SafeThroughout(s: State, events: seq<Event>)
    decreases |events|
  {
    && Exclusive(s)
    && (forall e: Event :: !e.action.Unlink? ==> Exclusive(Step(s, e)))
    && (events != [] ==> SafeThroughout(Step(s, events[0]), events[1..]))
  }

  lemma SafeHere(s: State)
    requires Inv(s) && s.robbed == {}
    ensures Exclusive(s) && forall e: Event :: !e.action.Unlink? ==> Exclusive(Step(s, e))
  {
    NobodyRobbed(s);
    forall e: Event | !e.action.Unlink?
      ensures Exclusive(Step(s, e))
    {
      StepRobsIff(s, e);
      NobodyRobbedNext(s, e);
    }
  }

  /** A run is safe throughout if and only if no `unlink` in it removes the file of another process that still has
      the lock. */
  lemma {:induction false} SafeThroughoutIff(s: State, events: seq<Event>)
    requires Inv(s) && s.robbed == {}
    ensures SafeThroughout(s, events) <==> Keeps((s, e) => !Robs(s, e), s, events)
    decreases |events|
  {
    SafeHere(s);
    if events != [] {
      if Robs(s, events[0]) {
        RobberyCostsExclusion(s, events[0]);
      } else {
        NobodyRobbedNext(s, events[0]);
        hide Inv, Step, Exclusive, Robs;
        SafeThroughoutIff(Step(s, events[0]), events[1..]);
      }
    }
  }

  /** So a run from the start without robberies has one holder at a time at most, and leaves nobody robbed. */
  lemma {:induction false} WithoutRobberies(s: State, events: seq<Event>)
    requires Inv(s) && s.robbed == {} && Keeps((s, e) => !Robs(s, e), s, events)
    ensures Exclusive(Run(s, events)) && Run(s, events).robbed == {}
    decreases |events|
  {
    if events == [] {
      NobodyRobbed(s);
    } else {
      NobodyRobbedNext(s, events[0]);
      hide Inv, Step, Exclusive, Robs;
      WithoutRobberies(Step(s, events[0]), events[1..]);
    }
  }

  // ----- Calm runs -----

  /** No process finds the lock file older than `staleMs`, and none dies while it has the lock or while another has
      read its PID and not yet judged it. */
  ghost predicate IsCalm(s: State, e: Event) {
    && (e.action.Look? ==> !e.action.aged)
    && (e.action.Exit? ==> !Possesses(s, e.who) && !HasInHand(s, e.who))
  }

  ghost predicate HasInHand(s: State, q: nat) {
    exists p: nat :: PhaseOf(s, p).Judging? && PhaseOf(s, p).pid == Some(q)
  }

  /** Nobody steals: nobody has seen an old file or has the PID of a dead process in hand. */
  ghost predicate CalmInv(s: State) {
    && Inv(s)
    && s.robbed == {}
    && (s.file.Some? && s.file.value.pid.Some? ==> PhaseOf(s, s.file.value.creator).Holding?)
    && (forall p: nat :: IsPatient(s, PhaseOf(s, p)))
  }

  predicate IsPatient(s: State, phase: Phase) {
    match phase
    case Reading(aged) => !aged
    case Judging(aged, pid) => !aged && (pid.Some? ==> Alive(s, pid.value))
    case Unlinking => false
    case Recreating => false
    case _ => true
  }

  lemma MoverStaysPatient(s: State, e: Event)
    requires CalmInv(s) && IsCalm(s, e)
    ensures IsPatient(Step(s, e), PhaseOf(Step(s, e), e.who))
  {
    assert IsPatient(s, PhaseOf(s, e.who));
  }

  lemma CalmStep(s: State, e: Event)
    requires CalmInv(s) && IsCalm(s, e)
    ensures CalmInv(Step(s, e))
  {
    StepInv(s, e);
    MoverPossession(s, e);
    MoverStaysPatient(s, e);
    hide Next, ChangeOf;
    var t := Step(s, e);
    assert forall q: nat :: q != e.who ==> PhaseOf(t, q) == PhaseOf(s, q);
    forall p: nat
      ensures IsPatient(t, PhaseOf(t, p))
    {
      assert IsPatient(s, PhaseOf(s, p));
    }
    assert t.robbed == {};
    assert t.file.Some? && t.file.value.pid.Some? ==> PhaseOf(t, t.file.value.creator).Holding?;
  }

  lemma {:induction false} CalmRun(s: State, events: seq<Event>)
    requires CalmInv(s) && Keeps(IsCalm, s, events)
    ensures var t := Run(s, events);
            && CalmInv(t)
            && t.robbed == {}
            && forall p: nat, q: nat :: Possesses(t, p) && Possesses(t, q) ==> p == q
    decreases |events|
  {
    if events != [] {
      CalmStep(s, events[0]);
      CalmRun(Step(s, events[0]), events[1..]);
    }
  }

  /** In a calm run from the start at most one process possesses the lock at any time, and nobody's file is ever
      removed by another. */
  lemma CalmRunsExclude(events: seq<Event>)
    requires Keeps(IsCalm, INITIAL, events)
    ensures Exclusive(Run(INITIAL, events)) && Run(INITIAL, events).robbed == {}
  {
    hide Run, Keeps;
    CalmRun(INITIAL, events);
  }

  // ----- Each condition is needed -----

  lemma {:induction false} RunOneMore(condition: (State, Event) -> bool, s: State, events: seq<Event>, e: Event)
    ensures Run(s, events + [e]) == Step(Run(s, events), e)
    ensures Keeps(condition, s, events + [e]) <==> Keeps(condition, s, events) && condition(Run(s, events), e)
    decreases |events|
  {
    assert (events + [e])[0] == if events == [] then e else events[0];
    if events != [] {
      assert (events + [e])[1..] == events[1..] + [e];
      RunOneMore(condition, Step(s, events[0]), events[1..], e);
    }
  }

  /** A run written down action by action, with where it leads. */
  ghost predicate Leads(condition: (State, Event) -> bool, events: seq<Event>, s: State) {
    s == Run(INITIAL, events) && Keeps(condition, INITIAL, events)
  }

  /** Three processes and the lock file, as far as they matter to each other. */
  datatype View = View(zero: Phase, one: Phase, two: Phase, file: Option<LockFile>)

  function At(v: View, p: nat): Phase {
    if p == 0 then v.zero else if p == 1 then v.one else v.two
  }

  ghost predicate Shows(s: State, v: View) {
    PhaseOf(s, 0) == v.zero && PhaseOf(s, 1) == v.one && PhaseOf(s, 2) == v.two && s.file == v.file
  }

  function Moved(v: View, p: nat, action: Action): View {
    var phase := At(v, p);
    var alive := phase.Judging? && phase.pid.Some? && !At(v, phase.pid.value).Dead?;
    var next := Next(v.file, alive, phase, action);
    View(
      if p == 0 then next else v.zero, if p == 1 then next else v.one, if p == 2 then next else v.two,
      FileAfter(ChangeOf(v.file, phase, action), v.file, p))
  }

  /** The one of three processes whose PID is in hand, if any, is among them. */
  predicate Closed(v: View, p: nat) {
    p < 3 && (At(v, p).Judging? && At(v, p).pid.Some? ==> At(v, p).pid.value < 3)
  }

  /** Takes one more action that a condition allows. */
  lemma Play(condition: (State, Event) -> bool, events: seq<Event>, s: State, v: View, p: nat, action: Action)
      returns (more: seq<Event>, t: State)
    requires Leads(condition, events, s) && condition(s, Event(p, action))
    requires Shows(s, v) && Closed(v, p)
    ensures Leads(condition, more, t) && Shows(t, Moved(v, p, action))
  {
    hide Run, Keeps, Next, ChangeOf, FileAfter, RobbedAfter;
    var e := Event(p, action);
    RunOneMore(condition, INITIAL, events, e);
    more, t := events + [e], Step(s, e);
  }

  ghost predicate BothHold(s: State, p: nat, q: nat) {
    p != q && PhaseOf(s, p).Holding? && PhaseOf(s, q).Holding?
  }

  lemma ShowsBothHold(s: State, v: View)
    requires Shows(s, v) && v.one.Holding? && v.two.Holding?
    ensures BothHold(s, 1, 2)
  {
  }

  lemma ShowsIdle(s: State, v: View)
    requires Shows(s, v) && v.zero.Idle?
    ensures !Possesses(s, 0)
  {
  }

  ghost predicate CalmButForHands(s: State, e: Event) {
    && (e.action.Look? ==> !e.action.aged)
    && (e.action.Exit? ==> !Possesses(s, e.who))
  }

  function NewFile(p: nat): Option<LockFile> {
    Some(LockFile(p, None))
  }

  function FileOf(p: nat): Option<LockFile> {
    Some(LockFile(p, Some(p)))
  }

  /** About to judge the PID of process 0. */
  const JUDGING := Judging(false, Some(0))

  /** A holder that has released the lock and then dies, before its PID is judged, costs the next holder its lock. */
  lemma DeathAfterRelease() returns (events: seq<Event>, s: State)
    ensures Leads(CalmButForHands, events, s) && BothHold(s, 1, 2)
  {
    hide Run, Keeps, Leads, Step, Shows, BothHold, Possesses;
    events, s := Start(CalmButForHands);
    events, s := Play(CalmButForHands, events, s, View(Idle, Idle, Idle, None), 0, Begin);
    events, s := Play(CalmButForHands, events, s, View(Creating, Idle, Idle, None), 0, Create);
    events, s := Play(CalmButForHands, events, s, View(Filling(false), Idle, Idle, NewFile(0)), 0, Fill);
    events, s := Play(CalmButForHands, events, s, View(Holding, Idle, Idle, FileOf(0)), 1, Begin);
    events, s := Play(CalmButForHands, events, s, View(Holding, Creating, Idle, FileOf(0)), 1, Create);
    events, s := Play(CalmButForHands, events, s, View(Holding, Looking, Idle, FileOf(0)), 1, Look(false));
    events, s := Play(CalmButForHands, events, s, View(Holding, Reading(false), Idle, FileOf(0)), 1, Read);
    events, s := Play(CalmButForHands, events, s, View(Holding, JUDGING, Idle, FileOf(0)), 0, Release);
    events, s := Play(CalmButForHands, events, s, View(Idle, JUDGING, Idle, None), 2, Begin);
    events, s := Play(CalmButForHands, events, s, View(Idle, JUDGING, Creating, None), 2, Create);
    events, s := Play(CalmButForHands, events, s, View(Idle, JUDGING, Filling(false), NewFile(2)), 2, Fill);
    ShowsIdle(s, View(Idle, JUDGING, Holding, FileOf(2)));
    events, s := Play(CalmButForHands, events, s, View(Idle, JUDGING, Holding, FileOf(2)), 0, Exit);
    events, s := Play(CalmButForHands, events, s, View(Dead, JUDGING, Holding, FileOf(2)), 1, Judge);
    events, s := Play(CalmButForHands, events, s, View(Dead, Unlinking, Holding, FileOf(2)), 1, Unlink);
    events, s := Play(CalmButForHands, events, s, View(Dead, Recreating, Holding, None), 1, Recreate);
    events, s := Play(CalmButForHands, events, s, View(Dead, Filling(true), Holding, NewFile(1)), 1, Fill);
    ShowsBothHold(s, View(Dead, Holding, Holding, FileOf(1)));
  }

  lemma Start(condition: (State, Event) -> bool) returns (events: seq<Event>, s: State)
    ensures Leads(condition, events, s) && Shows(s, View(Idle, Idle, Idle, None))
  {
    events, s := [], INITIAL;
  }

  ghost predicate NothingIsOld(s: State, e: Event) {
    e.action.Look? ==> !e.action.aged
  }

  /** Two processes that judge the same dead holder both get the lock. */
  lemma TwoStealers() returns (events: seq<Event>, s: State)
    ensures Leads(NothingIsOld, events, s) && BothHold(s, 1, 2)
  {
    hide Run, Keeps, Leads, Step, Shows, BothHold, Possesses;
    events, s := Start(NothingIsOld);
    events, s := Play(NothingIsOld, events, s, View(Idle, Idle, Idle, None), 0, Begin);
    events, s := Play(NothingIsOld, events, s, View(Creating, Idle, Idle, None), 0, Create);
    events, s := Play(NothingIsOld, events, s, View(Filling(false), Idle, Idle, NewFile(0)), 0, Fill);
    events, s := Play(NothingIsOld, events, s, View(Holding, Idle, Idle, FileOf(0)), 1, Begin);
    events, s := Play(NothingIsOld, events, s, View(Holding, Creating, Idle, FileOf(0)), 1, Create);
    events, s := Play(NothingIsOld, events, s, View(Holding, Looking, Idle, FileOf(0)), 1, Look(false));
    events, s := Play(NothingIsOld, events, s, View(Holding, Reading(false), Idle, FileOf(0)), 1, Read);
    events, s := Play(NothingIsOld, events, s, View(Holding, JUDGING, Idle, FileOf(0)), 2, Begin);
    events, s := Play(NothingIsOld, events, s, View(Holding, JUDGING, Creating, FileOf(0)), 2, Create);
    events, s := Play(NothingIsOld, events, s, View(Holding, JUDGING, Looking, FileOf(0)), 2, Look(false));
    events, s := Play(NothingIsOld, events, s, View(Holding, JUDGING, Reading(false), FileOf(0)), 2, Read);
    events, s := Play(NothingIsOld, events, s, View(Holding, JUDGING, JUDGING, FileOf(0)), 0, Exit);
    events, s := Play(NothingIsOld, events, s, View(Dead, JUDGING, JUDGING, FileOf(0)), 1, Judge);
    events, s := Play(NothingIsOld, events, s, View(Dead, Unlinking, JUDGING, FileOf(0)), 2, Judge);
    events, s := Play(NothingIsOld, events, s, View(Dead, Unlinking, Unlinking, FileOf(0)), 1, Unlink);
    events, s := Play(NothingIsOld, events, s, View(Dead, Recreating, Unlinking, None), 1, Recreate);
    events, s := Play(NothingIsOld, events, s, View(Dead, Filling(true), Unlinking, NewFile(1)), 1, Fill);
    events, s := Play(NothingIsOld, events, s, View(Dead, Holding, Unlinking, FileOf(1)), 2, Unlink);
    events, s := Play(NothingIsOld, events, s, View(Dead, Holding, Recreating, None), 2, Recreate);
    events, s := Play(NothingIsOld, events, s, View(Dead, Holding, Filling(true), NewFile(2)), 2, Fill);
    ShowsBothHold(s, View(Dead, Holding, Holding, FileOf(2)));
  }

  ghost predicate NobodyDies(s: State, e: Event) {
    !e.action.Exit?
  }

  /** With nobody dying: a lock held for longer than `staleMs` is looked at and released, and the next one is read
      before its PID is in it. */
  lemma LongHold() returns (events: seq<Event>, s: State)
    ensures Leads(NobodyDies, events, s) && BothHold(s, 1, 2)
  {
    hide Run, Keeps, Leads, Step, Shows, BothHold, Possesses;
    events, s := Start(NobodyDies);
    events, s := Play(NobodyDies, events, s, View(Idle, Idle, Idle, None), 0, Begin);
    events, s := Play(NobodyDies, events, s, View(Creating, Idle, Idle, None), 0, Create);
    events, s := Play(NobodyDies, events, s, View(Filling(false), Idle, Idle, NewFile(0)), 0, Fill);
    events, s := Play(NobodyDies, events, s, View(Holding, Idle, Idle, FileOf(0)), 1, Begin);
    events, s := Play(NobodyDies, events, s, View(Holding, Creating, Idle, FileOf(0)), 1, Create);
    events, s := Play(NobodyDies, events, s, View(Holding, Looking, Idle, FileOf(0)), 1, Look(true));
    events, s := Play(NobodyDies, events, s, View(Holding, Reading(true), Idle, FileOf(0)), 0, Release);
    events, s := Play(NobodyDies, events, s, View(Idle, Reading(true), Idle, None), 2, Begin);
    events, s := Play(NobodyDies, events, s, View(Idle, Reading(true), Creating, None), 2, Create);
    events, s := Play(NobodyDies, events, s, View(Idle, Reading(true), Filling(false), NewFile(2)), 1, Read);
    events, s := Play(NobodyDies, events, s, View(Idle, Judging(true, None), Filling(false), NewFile(2)), 1, Judge);
    events, s := Play(NobodyDies, events, s, View(Idle, Unlinking, Filling(false), NewFile(2)), 1, Unlink);
    events, s := Play(NobodyDies, events, s, View(Idle, Recreating, Filling(false), None), 1, Recreate);
    events, s := Play(NobodyDies, events, s, View(Idle, Filling(true), Filling(false), NewFile(1)), 1, Fill);
    events, s := Play(NobodyDies, events, s, View(Idle, Holding, Filling(false), FileOf(1)), 2, Fill);
    ShowsBothHold(s, View(Idle, Holding, Holding, FileOf(1)));
  }

  // ----- A dead holder does not block for ever -----

  /** A process that runs alone takes over the lock of a dead one on its first attempt. */
  lemma DeadHolderIsReplaced(s: State, p: nat, q: nat, aged: bool)
    requires Inv(s) && PhaseOf(s, p).Creating? && s.file == Some(LockFile(q, Some(q))) && !Alive(s, q)
    ensures var looking := Step(Step(s, Event(p, Create)), Event(p, Look(aged)));
            var looked := Step(Step(looking, Event(p, Read)), Event(p, Judge));
            var t := Step(Step(Step(looked, Event(p, Unlink)), Event(p, Recreate)), Event(p, Fill));
            PhaseOf(t, p).Holding? && t.file == Some(LockFile(p, Some(p))) && t.robbed == s.robbed
  {
  }
}
