/** How one attempt to take the lock ends when nothing else happens meanwhile, and who gets a lock that is released. */
module AsyncLockOutcomes {
  import opened Options
  import opened AsyncLockModel

  /** Which operations of an attempt succeed. */
  datatype Luck = Luck(canRead: bool, canUnlink: bool, canRecreate: bool, canFill: bool)

  /** The operations of an attempt, in order. Those that do not apply leave the process where it is. */
  function Operations(aged: bool, luck: Luck): seq<Action> {
    [Create, Look(aged), if luck.canRead then Read else ReadFails, Judge,
     if luck.canUnlink then Unlink else UnlinkFails, if luck.canRecreate then Recreate else CreateFails,
     if luck.canFill then Fill else FillFails]
  }

  function Does(s: State, p: nat, actions: seq<Action>): State
    decreases |actions|
  {
    if actions == [] then s else Step(Does(s, p, actions[..|actions| - 1]), Event(p, actions[|actions| - 1]))
  }

  lemma {:induction false} DoesIsRun(s: State, p: nat, actions: seq<Action>)
    ensures Does(s, p, actions) == Run(s, seq(|actions|, i requires 0 <= i < |actions| => Event(p, actions[i])))
    decreases |actions|
  {
    hide Step;
    var events := seq(|actions|, i requires 0 <= i < |actions| => Event(p, actions[i]));
    if actions != [] {
      var n := |actions| - 1;
      DoesIsRun(s, p, actions[..n]);
      assert events[..n] == seq(n, i requires 0 <= i < n => Event(p, actions[..n][i]));
      assert events == events[..n] + [events[n]];
      RunLast(s, events[..n], events[n]);
    }
  }

  lemma {:induction false} RunLast(s: State, events: seq<Event>, e: Event)
    ensures Run(s, events + [e]) == Step(Run(s, events), e)
    decreases |events|
  {
    hide Step;
    if events == [] {
      assert [] + [e] == [e] && [e][1..] == [];
    } else {
      assert (events + [e])[1..] == events[1..] + [e];
      RunLast(Step(s, events[0]), events[1..], e);
    }
  }

  /** What is read of a lock file decides whether it may be stolen: a PID by whether its process is dead, and nothing
      by the age of the file. */
  predicate MayBeStolen(s: State, aged: bool, canRead: bool) {
    && s.file.Some?
    && if canRead && s.file.value.pid.Some? then PhaseOf(s, s.file.value.pid.value) == Dead else aged
  }

  /** Where an attempt ends: the process has the lock, waits for another attempt, or is back where it began. */
  function Ends(s: State, aged: bool, luck: Luck): Phase {
    if s.file == None then if luck.canFill then Holding else Idle
    else if MayBeStolen(s, aged, luck.canRead) && luck.canUnlink && luck.canRecreate && luck.canFill then Holding
    else Waiting
  }

  /** The file after an attempt: the process's own, with its PID or still without, or none, or what it was. */
  function Leaves(s: State, p: nat, aged: bool, luck: Luck): Option<LockFile> {
    var own := Some(LockFile(p, if luck.canFill then Some(p) else None));
    if s.file == None then own
    else if !MayBeStolen(s, aged, luck.canRead) || !luck.canUnlink then s.file
    else if luck.canRecreate then own
    else None
  }

  /** Only one process has moved, and the file. */
  ghost predicate Shows(s: State, t: State, p: nat, phase: Phase, file: Option<LockFile>) {
    && PhaseOf(t, p) == phase && t.file == file
    && forall q: nat :: q != p ==> PhaseOf(t, q) == PhaseOf(s, q)
  }

  lemma Moves(s: State, t: State, p: nat, phase: Phase, file: Option<LockFile>, a: Action)
    requires Shows(s, t, p, phase, file) && !phase.Dead? && !PhaseOf(s, p).Dead?
    ensures Shows(
              s, Step(t, Event(p, a)), p, Next(file, HolderAlive(s, phase), phase, a),
              FileAfter(ChangeOf(file, phase, a), file, p))
  {
    hide Next, ChangeOf, FileAfter, RobbedAfter;
  }

  lemma DoesMore(s: State, p: nat, actions: seq<Action>, a: Action)
    ensures Does(s, p, actions + [a]) == Step(Does(s, p, actions), Event(p, a))
  {
    hide Step;
    assert (actions + [a])[..|actions|] == actions;
  }

  lemma OneMore(s: State, p: nat, actions: seq<Action>, phase: Phase, file: Option<LockFile>, a: Action)
      returns (more: seq<Action>, next: Phase, after: Option<LockFile>)
    requires Shows(s, Does(s, p, actions), p, phase, file) && !phase.Dead? && !PhaseOf(s, p).Dead?
    ensures more == actions + [a] && Shows(s, Does(s, p, more), p, next, after)
    ensures next == Next(file, HolderAlive(s, phase), phase, a)
    ensures after == FileAfter(ChangeOf(file, phase, a), file, p)
  {
    hide Shows, Next, ChangeOf, FileAfter;
    DoesMore(s, p, actions, a);
    Moves(s, Does(s, p, actions), p, phase, file, a);
    more, next := actions + [a], Next(file, HolderAlive(s, phase), phase, a);
    after := FileAfter(ChangeOf(file, phase, a), file, p);
  }

  /** The first half of an attempt: the file is created, or judged. */
  lemma Judged(s: State, p: nat, aged: bool, canRead: bool)
      returns (a: seq<Action>, phase: Phase, file: Option<LockFile>)
    requires PhaseOf(s, p) == Creating
    ensures a == [] + [Create] + [Look(aged)] + [if canRead then Read else ReadFails] + [Judge]
    ensures Shows(s, Does(s, p, a), p, phase, file)
    ensures phase == if s.file == None then Filling(false)
                     else if MayBeStolen(s, aged, canRead) then Unlinking
                     else Waiting
    ensures file == if s.file == None then Some(LockFile(p, None)) else s.file
  {
    hide Does, Shows;
    a, phase, file := [], Creating, s.file;
    Nothing(s, p);
    a, phase, file := OneMore(s, p, a, phase, file, Create);
    a, phase, file := OneMore(s, p, a, phase, file, Look(aged));
    a, phase, file := OneMore(s, p, a, phase, file, if canRead then Read else ReadFails);
    a, phase, file := OneMore(s, p, a, phase, file, Judge);
  }

  /** An attempt that nothing disturbs takes a free lock, and one that may be stolen if the old file can be removed and
      the new one made; and from any other it goes away waiting. */
  lemma AttemptIff(s: State, p: nat, aged: bool, luck: Luck)
    requires PhaseOf(s, p) == Creating
    ensures Shows(
              s, Does(s, p, Operations(aged, luck)), p, Ends(s, aged, luck), Leaves(s, p, aged, luck))
  {
    hide Does, Shows, Operations, PhaseOf;
    var a, phase, file := Judged(s, p, aged, luck.canRead);
    hide MayBeStolen;
    a, phase, file := OneMore(s, p, a, phase, file, if luck.canUnlink then Unlink else UnlinkFails);
    a, phase, file := OneMore(s, p, a, phase, file, if luck.canRecreate then Recreate else CreateFails);
    a, phase, file := OneMore(s, p, a, phase, file, if luck.canFill then Fill else FillFails);
    OperationsAre(aged, luck);
  }

  lemma Nothing(s: State, p: nat)
    ensures Shows(s, Does(s, p, []), p, PhaseOf(s, p), s.file)
  {
  }

  lemma OperationsAre(aged: bool, luck: Luck)
    ensures Operations(aged, luck)
         == [] + [Create] + [Look(aged)] + [if luck.canRead then Read else ReadFails] + [Judge]
            + [if luck.canUnlink then Unlink else UnlinkFails] + [if luck.canRecreate then Recreate else CreateFails]
            + [if luck.canFill then Fill else FillFails]
  {
  }

  // ----- Who gets a lock that is released -----

  /** A file that is gone when it is looked at leaves the process waiting for another attempt. */
  lemma GoneWhenLookedAt(s: State, p: nat, aged: bool)
    requires PhaseOf(s, p) == Looking && s.file == None
    ensures Shows(s, Step(s, Event(p, Look(aged))), p, Waiting, None)
  {
  }

  /** A call begins with an attempt; after one that ends waiting it attempts again or gives up; and a first creation
      that fails for another reason than that the file exists ends it. */
  lemma BeginsAndRetries(s: State, p: nat)
    ensures PhaseOf(s, p) == Idle ==> Shows(s, Step(s, Event(p, Begin)), p, Creating, s.file)
    ensures PhaseOf(s, p) == Waiting ==> Shows(s, Step(s, Event(p, Retry)), p, Creating, s.file)
    ensures PhaseOf(s, p) == Waiting ==> Shows(s, Step(s, Event(p, GiveUp)), p, Idle, s.file)
    ensures PhaseOf(s, p) == Creating ==> Shows(s, Step(s, Event(p, CreateFails)), p, Idle, s.file)
  {
  }

  /** A release removes the file, whosever it is by now, and a death leaves it. */
  lemma ReleaseIs(s: State, p: nat)
    requires PhaseOf(s, p) == Holding
    ensures Shows(s, Step(s, Event(p, Release)), p, Idle, None)
    ensures Shows(s, Step(s, Event(p, Exit)), p, Dead, s.file)
  {
  }

  /** A process that waits has the lock after its next attempt once the holder has released it, or has died. */
  lemma WaiterGetsLock(s: State, holder: nat, p: nat, aged: bool, dies: bool)
    requires holder != p && PhaseOf(s, holder) == Holding && s.file == Some(LockFile(holder, Some(holder)))
    requires PhaseOf(s, p) == Waiting
    ensures var freed := Step(s, Event(holder, if dies then Exit else Release));
            var t := Does(Step(freed, Event(p, Retry)), p, Operations(aged, Luck(true, true, true, true)));
            PhaseOf(t, p) == Holding && t.file == Some(LockFile(p, Some(p)))
  {
    hide Does, Step, Operations;
    var freed := Step(s, Event(holder, if dies then Exit else Release));
    ReleaseIs(s, holder);
    BeginsAndRetries(freed, p);
    AttemptIff(Step(freed, Event(p, Retry)), p, aged, Luck(true, true, true, true));
  }

  /** A file whose creator could not write its PID into it keeps everybody out until it has aged. */
  lemma EmptyFileBlocksUntilAged(s: State, p: nat, q: nat, aged: bool)
    requires p != q && PhaseOf(s, p) == Creating && PhaseOf(s, q) == Creating && s.file == None
    ensures var failed := Does(s, p, Operations(false, Luck(true, true, true, false)));
            var t := Does(failed, q, Operations(aged, Luck(true, true, true, true)));
            PhaseOf(failed, p) == Idle && (PhaseOf(t, q) == Holding <==> aged)
  {
    hide Does, Step, Operations;
    AttemptIff(s, p, false, Luck(true, true, true, false));
    AttemptIff(Does(s, p, Operations(false, Luck(true, true, true, false))), q, aged, Luck(true, true, true, true));
  }
}
