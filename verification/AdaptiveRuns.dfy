/** Two runs of the token ledger from its start: overlapping redistributions that overspend, and twin terminations
    that are recorded twice. */
module AdaptiveRuns {
  import opened Options
  import opened AdaptiveLedgerModel
  import opened AdaptiveLedgerTheorems

  lemma RunOneMore(limits: Limits, s: State, events: seq<Event>, e: Event)
    ensures Run(limits, s, events + [e]) == Step(limits, Run(limits, s, events), e)
  {
    hide Step;
    RunConcat(limits, s, events, [e]);
    assert [e][1..] == [];
  }

  const LIMITS := Limits(1000, 100, 100, 1000)

  const RECLAIM := Reclaim(0, "w", 100)
  const FIRST := Redistribution("a", None, 60, 1, 60)
  const SECOND := Redistribution("b", None, 60, 2, 60)

  /** The controller after one commit of a hundred unused tokens and some reservations of sixty. */
  function BudgetWith(n: nat): Budget {
    Budget(
      [Reservation("s", 100, Committed)] + seq(n, i requires 0 <= i < n => Reservation("s", 60, Open)),
      60 * n, 0, 100, {"k"}, false)
  }

  function Act(k: nat): Event {
    match k
    case 0 => Reserve("s", 0, 100, false)
    case 1 => Reconcile("w", "k", Some(0), 0)
    case 2 => Proceed(0, false, {})
    case 3 => AskRedistribute("a", "s", 60.0, None, None)
    case 4 => AskRedistribute("b", "s", 60.0, None, None)
    case 5 => Proceed(1, false, {})
    case 6 => Proceed(2, false, {})
    case 7 => Proceed(1, false, {})
    case _ => Proceed(2, false, {})
  }

  /** Where those acts lead: one reclaim of a hundred tokens, and two redistributions of sixty each. */
  function Stage(k: nat): State {
    match k
    case 0 => INITIAL
    case 1 => State(Budget([Reservation("s", 100, Open)], 100, 0, 0, {}, false), [], [], [])
    case 2 => State(BudgetWith(0), [], [Reclaiming(RECLAIM)], [])
    case 3 => State(BudgetWith(0), [RECLAIM], [Finished], [])
    case 4 => State(BudgetWith(0), [RECLAIM], [Finished, Asking("a", None, 60, "s")], [])
    case 5 => State(BudgetWith(0), [RECLAIM], [Finished, Asking("a", None, 60, "s"), Asking("b", None, 60, "s")], [])
    case 6 => State(BudgetWith(1), [RECLAIM], [Finished, Granted(FIRST), Asking("b", None, 60, "s")], [])
    case 7 => State(BudgetWith(2), [RECLAIM], [Finished, Granted(FIRST), Granted(SECOND)], [])
    case 8 => State(BudgetWith(2), [RECLAIM, FIRST], [Finished, Finished, Granted(SECOND)], [])
    case _ => State(BudgetWith(2), [RECLAIM, FIRST, SECOND], [Finished, Finished, Finished], [])
  }

  lemma StageReserve()
    ensures Step(LIMITS, Stage(0), Act(0)) == Stage(1)
  {
    assert INITIAL.budget.reservations + [Reservation("s", 100, Open)] == [Reservation("s", 100, Open)];
  }

  lemma StageReconcile()
    ensures Step(LIMITS, Stage(1), Act(1)) == Stage(2)
  {
    var before := Stage(1).budget;
    assert before.reservations[0 := before.reservations[0].(status := Committed)] == BudgetWith(0).reservations;
    assert Charged(before, "k", Some(0), 0) == BudgetWith(0);
    assert CommitUsage(LIMITS, before, "k", Some(0), 0) == (BudgetWith(0), Some(100));
  }

  lemma StageReclaim()
    ensures Step(LIMITS, Stage(2), Act(2)) == Stage(3)
  {
  }

  lemma NothingRedistributed()
    ensures Reclaimed([RECLAIM]) == 100 && Redistributed([RECLAIM]) == 0
  {
    assert [RECLAIM][..0] == [];
  }

  lemma StageAskFirst()
    ensures Step(LIMITS, Stage(3), Act(3)) == Stage(4)
  {
    NothingRedistributed();
    hide Reclaimed, Redistributed;
    assert MayRedistribute([RECLAIM], "a", None, 60);
  }

  lemma StageAskSecond()
    ensures Step(LIMITS, Stage(4), Act(4)) == Stage(5)
  {
    NothingRedistributed();
    hide Reclaimed, Redistributed;
    assert MayRedistribute([RECLAIM], "b", None, 60);
  }

  lemma OneMoreGrant(n: nat)
    requires n < 2
    ensures Reserved(LIMITS, BudgetWith(n), "s", 0, 60, false) == (BudgetWith(n + 1), Some(60))
  {
    assert BudgetWith(n).reservations + [Reservation("s", 60, Open)] == BudgetWith(n + 1).reservations;
  }

  lemma StageGrantFirst()
    ensures Step(LIMITS, Stage(5), Act(5)) == Stage(6)
  {
    OneMoreGrant(0);
    assert |BudgetWith(0).reservations| == 1;
    hide Reserved, BudgetWith;
  }

  lemma StageGrantSecond()
    ensures Step(LIMITS, Stage(6), Act(6)) == Stage(7)
  {
    OneMoreGrant(1);
    assert |BudgetWith(1).reservations| == 2;
    hide Reserved, BudgetWith;
  }

  lemma StageEnterFirst()
    ensures Step(LIMITS, Stage(7), Act(7)) == Stage(8)
  {
    hide BudgetWith;
  }

  lemma StageEnterSecond()
    ensures Step(LIMITS, Stage(8), Act(8)) == Stage(9)
  {
    hide BudgetWith;
  }

  lemma StageFollows(k: nat)
    requires k < 9
    ensures Step(LIMITS, Stage(k), Act(k)) == Stage(k + 1)
  {
    hide Step, Stage, Act;
    StageReserve();
    StageReconcile();
    StageReclaim();
    StageAskFirst();
    StageAskSecond();
    StageGrantFirst();
    StageGrantSecond();
    StageEnterFirst();
    StageEnterSecond();
  }

  function Acts(k: nat): seq<Event> {
    if k == 0 then [] else Acts(k - 1) + [Act(k - 1)]
  }

  lemma {:induction false} ReachesStage(k: nat)
    requires k <= 9
    ensures Run(LIMITS, INITIAL, Acts(k)) == Stage(k)
  {
    hide Step, Act;
    if k > 0 {
      ReachesStage(k - 1);
      RunOneMore(LIMITS, INITIAL, Acts(k - 1), Act(k - 1));
      StageFollows(k - 1);
    }
  }

  lemma ThreeEntries(r: Entry, first: Entry, second: Entry)
    requires r.Reclaim? && first.Redistribution? && second.Redistribution?
    ensures Reclaimed([r, first, second]) == r.amount
    ensures Redistributed([r, first, second]) == first.amount + second.amount
  {
    assert [] + [r] == [r] && [r] + [first] == [r, first] && [r, first] + [second] == [r, first, second];
    SumsAppend([], r);
    SumsAppend([r], first);
    SumsAppend([r, first], second);
  }

  /** Two overlapping redistributions are both let through on the same reclaimed tokens. */
  lemma OverlapOverspends(n: nat)
    requires n == 9
    ensures var t := Run(LIMITS, INITIAL, Acts(n));
            Reclaimed(t.entries) == 100 && Redistributed(t.entries) == 120
  {
    hide Run, Acts, Reclaimed, Redistributed, BudgetWith;
    ReachesStage(n);
    assert Stage(n).entries == [RECLAIM, FIRST, SECOND];
    hide Stage;
    ThreeEntries(RECLAIM, FIRST, SECOND);
  }

  // ----- Two handles of one workstream -----

  const OPEN := OpenWorkstream("s", "a", 100)

  lemma FirstIsPending(h: Handle)
    requires h == Handle("s", "a", 100, [])
    ensures Pending([RECLAIM, FIRST, SECOND], h.workstream, h.given) == Some(1)
  {
    assert [RECLAIM, FIRST, SECOND][1..] == [FIRST, SECOND];
  }

  lemma BothOpen(s: State)
    requires s.handles == []
    ensures Step(LIMITS, Step(LIMITS, s, OPEN), OPEN)
         == s.(handles := [Handle("s", "a", 100, []), Handle("s", "a", 100, [])])
  {
    assert [] + [Handle("s", "a", 100, [])] == [Handle("s", "a", 100, [])];
  }

  lemma BothGive(s: State)
    requires s.entries == [RECLAIM, FIRST, SECOND]
    requires s.handles == [Handle("s", "a", 100, []), Handle("s", "a", 100, [])]
    ensures Step(LIMITS, Step(LIMITS, s, HandleReserve(0, 0, 1, false)), HandleReserve(1, 0, 1, false)).handles
         == [Handle("s", "a", 100, [1]), Handle("s", "a", 100, [1])]
  {
    hide Pending, Reserved;
    FirstIsPending(s.handles[0]);
    assert [] + [1] == [1];
  }

  /** Two handles of one workstream both give out its one redistribution. */
  lemma TwoHandlesGiveOutOne(n: nat)
    requires n == 9
    ensures var both := Acts(n) + [OPEN] + [OPEN];
            var t := Run(LIMITS, INITIAL, both + [HandleReserve(0, 0, 1, false)] + [HandleReserve(1, 0, 1, false)]);
            t.handles == [Handle("s", "a", 100, [1]), Handle("s", "a", 100, [1])]
  {
    hide Run, Step, Acts, BudgetWith;
    ReachesStage(n);
    var s := Stage(n);
    assert s.handles == [] && s.entries == [RECLAIM, FIRST, SECOND];
    hide Stage;
    var both := Acts(n) + [OPEN] + [OPEN];
    RunOneMore(LIMITS, INITIAL, Acts(n), OPEN);
    RunOneMore(LIMITS, INITIAL, Acts(n) + [OPEN], OPEN);
    RunOneMore(LIMITS, INITIAL, both, HandleReserve(0, 0, 1, false));
    RunOneMore(LIMITS, INITIAL, both + [HandleReserve(0, 0, 1, false)], HandleReserve(1, 0, 1, false));
    BothOpen(s);
    BothGive(Step(LIMITS, Step(LIMITS, s, OPEN), OPEN));
  }

  // ----- Twins -----

  const ENDED := Termination("w", "superseded")

  function TwinAct(k: nat): Event {
    match k
    case 0 => AskTerminate("s", "w", "superseded")
    case 1 => AskTerminate("s", "w", "superseded")
    case 2 => Proceed(0, false, {})
    case 3 => Proceed(1, false, {})
    case 4 => Proceed(0, false, {})
    case _ => Proceed(1, false, {})
  }

  function TwinStage(k: nat): State {
    match k
    case 0 => INITIAL
    case 1 => INITIAL.(calls := [Terminating("s", "w", "superseded")])
    case 2 => INITIAL.(calls := [Terminating("s", "w", "superseded"), Terminating("s", "w", "superseded")])
    case 3 => INITIAL.(calls := [Ended(ENDED), Terminating("s", "w", "superseded")])
    case 4 => INITIAL.(calls := [Ended(ENDED), Ended(ENDED)])
    case 5 => INITIAL.(entries := [ENDED], calls := [Finished, Ended(ENDED)])
    case _ => INITIAL.(entries := [ENDED, ENDED], calls := [Finished, Finished])
  }

  lemma TwinFollows(k: nat)
    requires k < 6
    ensures Step(LIMITS, TwinStage(k), TwinAct(k)) == TwinStage(k + 1)
  {
    assert CancelFirst(INITIAL.budget, Some({} + {"s"}), 0) == INITIAL.budget;
  }

  function TwinActs(k: nat): seq<Event> {
    if k == 0 then [] else TwinActs(k - 1) + [TwinAct(k - 1)]
  }

  lemma {:induction false} ReachesTwinStage(k: nat)
    requires k <= 6
    ensures Run(LIMITS, INITIAL, TwinActs(k)) == TwinStage(k)
  {
    hide Step, TwinAct;
    if k > 0 {
      ReachesTwinStage(k - 1);
      RunOneMore(LIMITS, INITIAL, TwinActs(k - 1), TwinAct(k - 1));
      TwinFollows(k - 1);
    }
  }

  /** Two overlapping terminations of one workstream for one reason are both recorded. */
  lemma TwinsAreRecordedTwice(n: nat)
    requires n == 6
    ensures Run(LIMITS, INITIAL, TwinActs(n)).entries == [ENDED, ENDED]
  {
    hide Run, TwinActs;
    ReachesTwinStage(n);
  }
}
