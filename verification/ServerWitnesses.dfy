/** Runs of releases, cleanups and heartbeats that go wrong. */
module ServerWitnesses {
  import opened Common
  import opened GameLifecycle
  import opened GameServers
  import opened ServerTheorems
  import opened ServerLimits

  ghost predicate Reached(w: World) {
    exists steps :: w == After(EMPTY, steps)
  }

  /** One more step of a run, from `w` to `r`. */
  lemma Then(w: World, step: ServerStep, r: World)
    requires Reached(w) && r == Next(w, step)
    ensures Reached(r)
  {
    var steps :| w == After(EMPTY, steps);
    assert (steps + [step])[..|steps|] == steps;
    assert r == After(EMPTY, steps + [step]);
  }

  /** One static server, online, and its updates. */
  function Small(game: Option<GameId>, isClean: bool, scheduled: nat, cleaning: nat,
                 games: map<GameId, GameRecord>, stages: seq<Stage>, history: seq<ServerEvent>): World
  {
    World(map[0 := Server(Static, game, true, isClean, 0, scheduled, cleaning)], games, None,
          seq(|stages|, i requires 0 <= i < |stages| => Update(0, stages[i])), history)
  }

  const ONE_OVER := map[1 := GameRecord(Interrupted, Some(0))]

  const NEXT_GAME := ONE_OVER[2 := GameRecord(Launching, Some(0))]

  const PLAYED := [Assigned(0), Released(0), Cleaned(0)]

  lemma ServerAdded()
    ensures Reached(Small(None, true, 0, 0, map[], [Done], []))
  {
    assert EMPTY == After(EMPTY, []);
    var a := EMPTY.(updates := [Update(0, Updating(GoOnline(0)))]);
    Then(EMPTY, StepHeartbeat(0, 0), a);
    var b := EMPTY.(updates := [Update(0, Writing(GoOnline(0), Absent))]);
    Then(a, StepAdvance(0), b);
    Then(b, StepAdvance(0), Small(None, true, 0, 0, map[], [Done], []));
  }

  /** A new game gets the clean server. */
  lemma GameAdded(g: GameId, cleaning: nat, games: map<GameId, GameRecord>, stages: seq<Stage>,
                  history: seq<ServerEvent>)
    requires Reached(Small(None, true, 0, cleaning, games, stages, history)) && g !in games
    ensures Reached(Small(Some(g), false, 0, cleaning, games[g := GameRecord(Launching, Some(0))], stages,
                          history + [Assigned(0)]))
  {
    var w := Small(None, true, 0, cleaning, games, stages, history);
    var a := Small(None, true, 0, cleaning, games[g := GameRecord(Launching, None)], stages, history);
    Then(w, StepCreate(g), a);
    var b := Small(Some(g), false, 0, cleaning, games[g := GameRecord(Launching, None)], stages,
                   history + [Assigned(0)]);
    Then(a, StepAssign(g, 0), b.(assigning := Some((g, 0))));
    Then(b.(assigning := Some((g, 0))), StepAssignFinish,
         Small(Some(g), false, 0, cleaning, games[g := GameRecord(Launching, Some(0))], stages,
               history + [Assigned(0)]));
  }

  /** A game was played on the server and has just ended; nobody has noticed yet. */
  lemma GameJustOver()
    ensures Reached(Small(Some(1), false, 0, 0, ONE_OVER, [Done, GameEnded(1)], [Assigned(0)]))
  {
    ServerAdded();
    GameAdded(1, 0, map[], [Done], []);
    Then(Small(Some(1), false, 0, 0, map[1 := GameRecord(Launching, Some(0))], [Done], [Assigned(0)]), StepEnd(1, true),
         Small(Some(1), false, 0, 0, ONE_OVER, [Done, GameEnded(1)], [Assigned(0)]));
  }

  /** The periodic check comes too, and both find that the game is over. */
  lemma BothDecided()
    ensures Reached(Small(Some(1), false, 0, 0, ONE_OVER, [Done, Updating(UnsetGame), Updating(UnsetGame)],
                          [Assigned(0)]))
  {
    GameJustOver();
    var a := Small(Some(1), false, 0, 0, ONE_OVER, [Done, GameEnded(1), Seen(1)], [Assigned(0)]);
    Then(Small(Some(1), false, 0, 0, ONE_OVER, [Done, GameEnded(1)], [Assigned(0)]), StepCheck(0), a);
    var b := Small(Some(1), false, 0, 0, ONE_OVER, [Done, Updating(UnsetGame), Seen(1)], [Assigned(0)]);
    Then(a, StepAdvance(1), b);
    Then(b, StepAdvance(2),
         Small(Some(1), false, 0, 0, ONE_OVER, [Done, Updating(UnsetGame), Updating(UnsetGame)], [Assigned(0)]));
  }

  lemma OneReleased(late: Stage)
    requires Reached(Small(Some(1), false, 0, 0, ONE_OVER, [Done, Updating(UnsetGame), late], [Assigned(0)]))
    ensures Reached(Small(None, false, 1, 0, ONE_OVER, [Done, Done, late], [Assigned(0), Released(0)]))
  {
    var a := Small(Some(1), false, 0, 0, ONE_OVER, [Done, Writing(UnsetGame, Held), late], [Assigned(0)]);
    Then(Small(Some(1), false, 0, 0, ONE_OVER, [Done, Updating(UnsetGame), late], [Assigned(0)]), StepAdvance(1), a);
    Then(a, StepAdvance(1), Small(None, false, 1, 0, ONE_OVER, [Done, Done, late], [Assigned(0), Released(0)]));
  }

  /** The server is released, cleaned and given to the second game; the check is still on its way. */
  lemma SlowCheck()
    ensures Reached(Small(Some(2), false, 0, 0, NEXT_GAME, [Done, Done, Updating(UnsetGame)], PLAYED + [Assigned(0)]))
  {
    var late := Updating(UnsetGame);
    BothDecided();
    OneReleased(late);
    var a := Small(None, false, 0, 1, ONE_OVER, [Done, Done, late], [Assigned(0), Released(0)]);
    Then(Small(None, false, 1, 0, ONE_OVER, [Done, Done, late], [Assigned(0), Released(0)]), StepCleanupStart(0), a);
    Then(a, StepCleanupEnd(0, true), Small(None, true, 0, 0, ONE_OVER, [Done, Done, late], PLAYED));
    GameAdded(2, 0, ONE_OVER, [Done, Done, late], PLAYED);
  }

  const TAKEN := PLAYED + [Assigned(0)] + [Released(0)]

  lemma TakenAway()
    ensures Reached(Small(None, false, 1, 0, NEXT_GAME, [Done, Done, Done], TAKEN))
  {
    SlowCheck();
    var w := Small(Some(2), false, 0, 0, NEXT_GAME, [Done, Done, Updating(UnsetGame)], PLAYED + [Assigned(0)]);
    var a := Small(Some(2), false, 0, 0, NEXT_GAME, [Done, Done, Writing(UnsetGame, Held)], PLAYED + [Assigned(0)]);
    Then(w, StepAdvance(2), a);
    Then(a, StepAdvance(2), Small(None, false, 1, 0, NEXT_GAME, [Done, Done, Done], TAKEN));
  }

  /** A periodic check that found the first game over takes the server away from the second. */
  lemma CheckCanTakeServerInUse()
    ensures exists w :: Reached(w) && Playing(w, 2) && w.games[2].server == Some(0) && FreeAt(w, 0)
  {
    TakenAway();
    var w := Small(None, false, 1, 0, NEXT_GAME, [Done, Done, Done], TAKEN);
    assert Playing(w, 2) && w.games[2].server == Some(0) && FreeAt(w, 0);
  }

  /** And once it is clean again, a third game gets it: two games in progress on one server. */
  lemma TwoGamesCanShare()
    ensures exists w :: Reached(w) && Share(w, 2, 3, 0)
  {
    TakenAway();
    var done := [Done, Done, Done];
    var a := Small(None, false, 0, 1, NEXT_GAME, done, TAKEN);
    Then(Small(None, false, 1, 0, NEXT_GAME, done, TAKEN), StepCleanupStart(0), a);
    Then(a, StepCleanupEnd(0, true), Small(None, true, 0, 0, NEXT_GAME, done, TAKEN + [Cleaned(0)]));
    GameAdded(3, 0, NEXT_GAME, done, TAKEN + [Cleaned(0)]);
    assert Share(Small(Some(3), false, 0, 0, NEXT_GAME[3 := GameRecord(Launching, Some(0))], done,
                       TAKEN + [Cleaned(0)] + [Assigned(0)]), 2, 3, 0);
  }

  /** A game launched again leaves its first server orphaned. */
  lemma ServerCanBeOrphaned()
    ensures exists w :: Reached(w) && OrphanOf(w, 0, 1) && Playing(w, 1)
  {
    ServerAdded();
    GameAdded(1, 0, map[], [Done], []);
    var w := Small(Some(1), false, 0, 0, map[1 := GameRecord(Launching, Some(0))], [Done], [Assigned(0)]);
    var a := AssignStart(w, 1, 5);
    Then(w, StepAssign(1, 5), a);
    Then(a, StepAssignFinish, AssignFinish(a));
    assert NoneFree(w) && OrphanOf(AssignFinish(a), 0, 1);
  }

  /** A cleanup that fails leaves the server stranded. */
  lemma ServerCanBeStranded()
    ensures exists w :: Reached(w) && Stranded(w, 0)
  {
    var late := Updating(UnsetGame);
    BothDecided();
    OneReleased(late);
    var a := Small(None, false, 0, 1, ONE_OVER, [Done, Done, late], [Assigned(0), Released(0)]);
    Then(Small(None, false, 1, 0, ONE_OVER, [Done, Done, late], [Assigned(0), Released(0)]), StepCleanupStart(0), a);
    var b := Small(None, false, 0, 0, ONE_OVER, [Done, Done, late], [Assigned(0), Released(0)]);
    Then(a, StepCleanupEnd(0, false), b);
    assert Stranded(b, 0);
  }

  /** A match ends at the minute tick: its release and the periodic check schedule a cleanup each. */
  lemma TwoCleanupsScheduled()
    ensures Reached(Small(None, false, 2, 0, ONE_OVER, [Done, Done, Done], [Assigned(0), Released(0)]))
  {
    BothDecided();
    var a := Small(Some(1), false, 0, 0, ONE_OVER, [Done, Updating(UnsetGame), Writing(UnsetGame, Held)],
                   [Assigned(0)]);
    Then(Small(Some(1), false, 0, 0, ONE_OVER, [Done, Updating(UnsetGame), Updating(UnsetGame)], [Assigned(0)]),
         StepAdvance(2), a);
    OneReleased(Writing(UnsetGame, Held));
    Then(Small(None, false, 1, 0, ONE_OVER, [Done, Done, Writing(UnsetGame, Held)], [Assigned(0), Released(0)]),
         StepAdvance(2), Small(None, false, 2, 0, ONE_OVER, [Done, Done, Done], [Assigned(0), Released(0)]));
  }

  /** Then the first cleanup lets the next game have the server, and the second cleans it under that game. */
  lemma SecondCleanupCanHitAGame()
    ensures exists w :: Reached(w) && CleansInUse(w, StepCleanupEnd(0, true))
  {
    TwoCleanupsScheduled();
    var done := [Done, Done, Done];
    var a := Small(None, false, 1, 1, ONE_OVER, done, [Assigned(0), Released(0)]);
    Then(Small(None, false, 2, 0, ONE_OVER, done, [Assigned(0), Released(0)]), StepCleanupStart(0), a);
    var b := Small(None, false, 0, 2, ONE_OVER, done, [Assigned(0), Released(0)]);
    Then(a, StepCleanupStart(0), b);
    Then(b, StepCleanupEnd(0, true), Small(None, true, 0, 1, ONE_OVER, done, PLAYED));
    GameAdded(2, 1, ONE_OVER, done, PLAYED);
    assert CleansInUse(Small(Some(2), false, 0, 1, NEXT_GAME, done, PLAYED + [Assigned(0)]), StepCleanupEnd(0, true));
  }

  /** A heartbeat does the same as a second release: it reads the server before the release, and writes after it. */
  lemma HeartbeatCanDouble()
    ensures exists w :: Reached(w) && Doubles(w, StepAdvance(2))
  {
    GameJustOver();
    var online, late := Updating(GoOnline(0)), Writing(GoOnline(0), Held);
    var a := Small(Some(1), false, 0, 0, ONE_OVER, [Done, GameEnded(1), online], [Assigned(0)]);
    Then(Small(Some(1), false, 0, 0, ONE_OVER, [Done, GameEnded(1)], [Assigned(0)]), StepHeartbeat(0, 0), a);
    var b := Small(Some(1), false, 0, 0, ONE_OVER, [Done, GameEnded(1), late], [Assigned(0)]);
    Then(a, StepAdvance(2), b);
    Then(b, StepAdvance(1), Small(Some(1), false, 0, 0, ONE_OVER, [Done, Updating(UnsetGame), late], [Assigned(0)]));
    OneReleased(late);
    assert Doubles(Small(None, false, 1, 0, ONE_OVER, [Done, Done, late], [Assigned(0), Released(0)]), StepAdvance(2));
  }
}
