/** A run in which one player plays in two games at once. */
module TwoGamesWitness {
  import opened Common
  import PT = PickTeams
  import Q = QueueModel
  import QT = QueueTheorems
  import LL = LaunchLedger
  import QW = QueueWitnesses
  import G = GameLifecycle
  import LC = LifecycleTheorems
  import opened TwoGames

  ghost predicate Reached(g: G.Game, h: Hall) {
    exists steps :: h == StepAll(Start(QW.TINY, g), steps)
  }

  lemma Then(g: G.Game, h: Hall, step: HallStep)
    requires Reached(g, h)
    ensures Reached(g, Step(h, step))
  {
    var steps :| h == StepAll(Start(QW.TINY, g), steps);
    assert (steps + [step])[..|steps|] == steps;
    assert Step(h, step) == StepAll(Start(QW.TINY, g), steps + [step]);
  }

  // ----- a queue run beside a game that it does not touch

  /** The joining players have no mark. */
  ghost predicate Unmarked(g: G.Game) {
    7 !in g.activeGame && 8 !in g.activeGame && 9 !in g.activeGame
  }

  ghost predicate Beside(g: G.Game, l: LL.Ledger, h: Hall) {
    && Reached(g, h) && h.ledger == l && h.game == g && h.clear.None?
    && (l.q.joining.Some? ==> l.q.joining.value.1 in {7, 8, 9})
  }

  lemma MoreReplaced(l: LL.Ledger, step: LL.LedgerStep)
    ensures |LL.Act(l, step).replaced| >= |l.replaced|
  {
  }

  lemma QueueBeside(g: G.Game, l: LL.Ledger, h: Hall, s: Q.Step) returns (r: Hall)
    requires Unmarked(g) && Beside(g, l, h) && QW.FewPlayers(LL.QueueStep(s))
    ensures Beside(g, LL.Act(l, LL.QueueStep(s)), r)
  {
    match s
    case StepJoinFinish(admitted) =>
      if l.q.joining.None? {
        r := h;
      } else {
        Then(g, h, OnRead);
        Then(g, Step(h, OnRead), OnJoin(admitted));
        r := Step(Step(h, OnRead), OnJoin(admitted));
      }
    case _ =>
      Then(g, h, OnQueue(s));
      r := Step(h, OnQueue(s));
      JoiningStays(l.q, s);
  }

  lemma JoiningStays(q: Q.Queue, s: Q.Step)
    requires !s.StepJoinFinish?
    ensures Q.Apply(q, s).joining == q.joining ||
            (s.StepJoinStart? && Q.Apply(q, s).joining == Some((s.slotId, s.player)))
  {
    match s
    case StepKick(players) => QT.KickEachFrame(q, Q.Present(players));
    case StepTimer => QT.TimerFrame(q);
    case _ =>
  }

  lemma LaunchBeside(g: G.Game, l: LL.Ledger, h: Hall, i: nat, step: LaunchStep) returns (r: Hall)
    requires Beside(g, l, h) && LL.Act(l, LedgerStepOf(i, step)).replaced == l.replaced
    ensures Beside(g, LL.Act(l, LedgerStepOf(i, step)), r)
  {
    Then(g, h, OnLaunch(i, step, 0));
    r := Step(h, OnLaunch(i, step, 0));
  }

  /** Before the first reset, every queue run is possible beside the game. */
  lemma {:induction false} RunBeside(g: G.Game, l: LL.Ledger, steps: seq<LL.LedgerStep>) returns (h: Hall)
    requires Unmarked(g) && QW.IsRun(l, steps) && l.replaced == []
    ensures Beside(g, l, h)
    decreases |steps|
  {
    if steps == [] {
      h := Start(QW.TINY, g);
      assert h == StepAll(h, []);
    } else {
      var init, last := steps[..|steps|-1], steps[|steps|-1];
      var before := LL.ActAll(LL.FreshLedger(QW.TINY), init);
      MoreReplaced(before, last);
      assert last in steps && forall s :: s in init ==> s in steps;
      var b := RunBeside(g, before, init);
      match last
      case QueueStep(s) => h := QueueBeside(g, before, b, s);
      case Check(i) => h := LaunchBeside(g, before, b, i, Checks);
      case Make(i) => h := LaunchBeside(g, before, b, i, Makes);
      case Throw(i) => h := LaunchBeside(g, before, b, i, Throws);
    }
  }

  // ----- the run

  lemma Launching(g: G.Game) returns (h: Hall)
    requires Unmarked(g)
    ensures Reached(g, h) && h.game == g && h.ledger.launches == [LL.Launch(0, LL.Begun)] && h.ledger.replaced == []
    ensures h.ledger.q.phase == Q.Launching && h.ledger.q.slots == QW.TwoSlots(Some(7), true, Some(8), true)
  {
    var l := QW.LaunchedOnce();
    var steps :| QW.IsRun(l, steps);
    h := RunBeside(g, l, steps);
  }

  /** While the queue launches, one of its players takes over a slot of the game. */
  lemma ReplacedWhileLaunching(id: GameId) returns (h: Hall)
    ensures Reached(LC.TwoPlayers(id), h) && G.InProgress(h.game.state) && LC.Holds(h.game.slots, 7)
    ensures h.ledger.launches == [LL.Launch(0, LL.Begun)] && h.ledger.replaced == []
    ensures h.ledger.q.slots == QW.TwoSlots(Some(7), true, Some(8), true)
  {
    var g := LC.TwoPlayers(id);
    var a := Launching(g);
    Then(g, a, OnGame(G.StepSubstitute(1)));
    var b := Step(a, OnGame(G.StepSubstitute(1)));
    assert b.game.slots[0] == G.GameSlot(1, PT.Blu, Scout, G.WaitingForSubstitute);
    assert G.FindWaiting(b.game.slots, 1) == 0;
    Then(g, b, OnReplace(1, 7, false));
    h := Step(b, OnReplace(1, 7, false));
    ReplacementHolds(b.game, 1, 7, false);
  }

  /** Then the launch makes its game, and the player is in two games in progress. */
  lemma OnePlayerInTwoGames(id: GameId, second: GameId)
    ensures LC.Created(LC.TwoPlayers(id))
    ensures
      exists h ::
        && Reached(LC.TwoPlayers(id), h) && G.InProgress(h.game.state) && LC.Holds(h.game.slots, 7)
        && |h.ledger.launches| == 1 && h.ledger.launches[0].stage.Made? && InSlots(h.ledger.launches[0].stage.slots, 7)
        && 7 in h.game.activeGame && h.game.activeGame[7] == second
  {
    LC.TwoPlayersCreated(id);
    var g := LC.TwoPlayers(id);
    var h := ReplacedWhileLaunching(id);
    var slots := QW.TwoSlots(Some(7), true, Some(8), true);
    assert SlotsOf(h.ledger, 0) == slots && slots[0].player == Some(7);
    EntangledPlaysTwice(h, 0, 7, second);
    Then(g, h, OnLaunch(0, Checks, second));
    Then(g, Step(h, OnLaunch(0, Checks, second)), OnLaunch(0, Makes, second));
    var r := Step(Step(h, OnLaunch(0, Checks, second)), OnLaunch(0, Makes, second));
    assert InSlots(r.ledger.launches[0].stage.slots, 7);
  }
}
