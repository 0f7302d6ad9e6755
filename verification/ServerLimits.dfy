/** What goes wrong with releases and cleanups, exactly when, and the runs that show it. */
module ServerLimits {
  import opened Common
  import opened GameLifecycle
  import opened GameServers
  import opened ServerTheorems

  lemma AfterThen(w: World, steps: seq<ServerStep>, last: ServerStep)
    ensures After(w, steps + [last]) == Next(After(w, steps), last)
  {
    assert (steps + [last])[..|steps|] == steps;
  }

  lemma {:induction false} AfterMore(w: World, steps: seq<ServerStep>, more: seq<ServerStep>)
    ensures After(w, steps + more) == After(After(w, steps), more)
  {
    if more == [] {
      assert steps + more == steps;
    } else {
      var init, last := more[..|more|-1], more[|more|-1];
      AfterMore(w, steps, init);
      AfterThen(w, steps + init, last);
      AfterThen(After(w, steps), init, last);
      Snoc(more);
      AppendLater(steps, init, last);
    }
  }

  lemma AfterOne(w: World, step: ServerStep)
    ensures After(w, [step]) == Next(w, step)
  {
    assert [step][..0] == [];
  }

  lemma AfterThree(w: World, a: ServerStep, b: ServerStep, c: ServerStep)
    ensures After(w, [a, b, c]) == Next(Next(Next(w, a), b), c)
  {
    assert [a, b, c] == [a] + [b] + [c];
    AfterMore(w, [a] + [b], [c]);
    AfterMore(w, [a], [b]);
    AfterOne(w, a);
    AfterOne(Next(w, a), b);
    AfterOne(Next(Next(w, a), b), c);
  }

  // ----- a cleanup that succeeds on a server in use lets the server be reused uncleaned

  /** Since some assignment of `s` nothing has released it. */
  ghost predicate HeldSince(history: seq<ServerEvent>, s: ServerId) {
    exists i :: 0 <= i < |history| && history[i] == Assigned(s) && Released(s) !in history[i..]
  }

  ghost predicate AllHeldSince(w: World) {
    forall s :: s in w.servers && w.servers[s].game.Some? ==> HeldSince(w.history, s)
  }

  lemma StillHeld(history: seq<ServerEvent>, e: ServerEvent, s: ServerId)
    requires HeldSince(history, s) && e != Released(s)
    ensures HeldSince(history + [e], s)
  {
    var i :| 0 <= i < |history| && history[i] == Assigned(s) && Released(s) !in history[i..];
    assert (history + [e])[i..] == history[i..] + [e];
    assert (history + [e])[i] == Assigned(s);
  }

  lemma NowHeld(history: seq<ServerEvent>, s: ServerId)
    ensures HeldSince(history + [Assigned(s)], s)
  {
    var h := history + [Assigned(s)];
    assert h[|history|..] == [Assigned(s)];
  }

  /** A step adds at most one event, and no release of a server that has a game before and after. */
  lemma EventOfStep(w: World, step: ServerStep, s: ServerId)
    requires s in w.servers && w.servers[s].game.Some?
    requires s in Next(w, step).servers && Next(w, step).servers[s].game.Some?
    ensures
      var h := Next(w, step).history;
      h == w.history || (h != [] && h == w.history + [h[|h|-1]] && h[|h|-1] != Released(s))
  {
    match step
    case StepAdvance(i) =>
      if i < |w.updates| && w.updates[i].stage.Writing? {
        var Update(t, stage) := w.updates[i];
        assert Next(w, step).history == Write(w, t, stage.change, stage.sight).history;
      }
    case _ =>
  }

  lemma OnlyAssigned(w: World, step: ServerStep, s: ServerId)
    requires s in w.servers ==> w.servers[s].game.None?
    requires s in Next(w, step).servers && Next(w, step).servers[s].game.Some?
    ensures Next(w, step).history == w.history + [Assigned(s)]
  {
  }

  lemma StepKeepsHeld(w: World, step: ServerStep)
    requires AllHeldSince(w)
    ensures AllHeldSince(Next(w, step))
  {
    var r := Next(w, step);
    forall s | s in r.servers && r.servers[s].game.Some? ensures HeldSince(r.history, s) {
      if s in w.servers && w.servers[s].game.Some? {
        EventOfStep(w, step, s);
        assert HeldSince(w.history, s);
        if r.history != w.history {
          StillHeld(w.history, r.history[|r.history|-1], s);
        }
      } else {
        OnlyAssigned(w, step, s);
        NowHeld(w.history, s);
      }
    }
  }

  lemma {:induction false} RunIsHeld(steps: seq<ServerStep>)
    ensures AllHeldSince(After(EMPTY, steps))
  {
    if steps != [] {
      RunIsHeld(steps[..|steps|-1]);
      StepKeepsHeld(After(EMPTY, steps[..|steps|-1]), steps[|steps|-1]);
    }
  }

  ghost predicate CleanInUse(w: World, s: ServerId) {
    s in w.servers && w.servers[s].kind == Static && w.servers[s].isClean && w.servers[s].game.Some?
  }

  /** The steps of one periodic check of a server whose game is over. */
  lemma CheckReleases(w: World, s: ServerId)
    requires s in w.servers && w.servers[s].game.Some?
    requires w.servers[s].game.value in w.games && !Playing(w, w.servers[s].game.value)
    ensures
      var n := |w.updates|;
      var r := After(w, [StepCheck(s)] + [StepAdvance(n), StepAdvance(n), StepAdvance(n)]);
      && r.games == w.games && r.assigning == w.assigning && s in r.servers
      && r.servers == w.servers[s := r.servers[s]]
      && r.servers[s] == Notified(w.servers[s].(game := None), Held)
      && r.history == w.history + [Released(s)]
  {
    var n, g := |w.updates|, w.servers[s].game.value;
    var a := Next(w, StepCheck(s));
    AfterMore(w, [StepCheck(s)], [StepAdvance(n), StepAdvance(n), StepAdvance(n)]);
    AfterOne(w, StepCheck(s));
    AfterThree(a, StepAdvance(n), StepAdvance(n), StepAdvance(n));
    var b := Next(a, StepAdvance(n));
    assert b == w.(updates := w.updates + [Update(s, Updating(UnsetGame))]);
    var c := Next(b, StepAdvance(n));
    assert c == w.(updates := w.updates + [Update(s, Writing(UnsetGame, Held))]);
  }

  /** The record of a server after a heartbeat; a new server is added clean. */
  function Online(w: World, s: ServerId, priority: int): Server {
    if s !in w.servers then NewStatic(priority)
    else if w.servers[s].kind == Static then w.servers[s].(isOnline := true, priority := priority)
    else w.servers[s]
  }

  lemma HeartbeatWrites(w: World, m: nat, s: ServerId, priority: int)
    requires m < |w.updates| && w.updates[m] == Update(s, Writing(GoOnline(priority), Look(w, s)))
    ensures
      var r := Advance(w, m);
      && r.games == w.games && r.assigning == w.assigning && r.history == w.history
      && r.servers == w.servers[s := Online(w, s, priority)]
  {
  }

  lemma HeartbeatReads(w: World, s: ServerId, priority: int)
    ensures Next(Next(w, StepHeartbeat(s, priority)), StepAdvance(|w.updates|)) ==
            w.(updates := w.updates + [Update(s, Writing(GoOnline(priority), Look(w, s)))])
  {
    var m := |w.updates|;
    var a := w.(updates := w.updates + [Update(s, Updating(GoOnline(priority)))]);
    assert Next(w, StepHeartbeat(s, priority)) == a;
    var sight := Look(a, s);
    assert sight == Look(w, s);
    assert Advance(a, m) == SetStage(a, m, Writing(GoOnline(priority), sight));
    assert a.updates[m := Update(s, Writing(GoOnline(priority), sight))] ==
           w.updates + [Update(s, Writing(GoOnline(priority), sight))];
  }

  /** A heartbeat with nothing in between: game, cleanliness and cleanups of the server stay as they are. */
  lemma HeartbeatRaises(w: World, s: ServerId, priority: int)
    ensures
      var m := |w.updates|;
      var r := After(w, [StepHeartbeat(s, priority), StepAdvance(m), StepAdvance(m)]);
      && r.games == w.games && r.assigning == w.assigning && r.history == w.history
      && r.servers == w.servers[s := Online(w, s, priority)]
  {
    var m := |w.updates|;
    AfterThree(w, StepHeartbeat(s, priority), StepAdvance(m), StepAdvance(m));
    HeartbeatReads(w, s, priority);
    var b := w.(updates := w.updates + [Update(s, Writing(GoOnline(priority), Look(w, s)))]);
    HeartbeatWrites(b, m, s, priority);
  }

  lemma {:induction false} HighestPriority(servers: map<ServerId, Server>) returns (p: int)
    ensures forall s :: s in servers ==> servers[s].priority <= p
    decreases |servers|
  {
    p := 0;
    if servers.Keys != {} {
      var s :| s in servers;
      var rest := servers - {s};
      assert rest.Keys < servers.Keys;
      assert |rest.Keys| < |servers.Keys|;
      var q := HighestPriority(rest);
      p := if q < servers[s].priority then servers[s].priority else q;
      forall t | t in servers ensures servers[t].priority <= p {
        assert t != s ==> t in rest && rest[t] == servers[t];
      }
    }
  }

  lemma Reuses(w: World, s: ServerId, h: GameId)
    requires w.assigning.None? && h in w.games && s in w.servers && w.servers[s].kind == Static
    requires w.servers[s].game.None? && w.servers[s].isClean
    ensures exists more :: After(w, more).history == w.history + [Assigned(s)]
  {
    var m := |w.updates|;
    var p := HighestPriority(w.servers);
    var raise := [StepHeartbeat(s, p), StepAdvance(m), StepAdvance(m)];
    HeartbeatRaises(w, s, p);
    var v := After(w, raise);
    assert IsFirstFree(v, s);
    AfterMore(w, raise, [StepAssign(h, s)]);
    AfterOne(v, StepAssign(h, s));
    assert After(w, raise + [StepAssign(h, s)]).history == w.history + [Assigned(s)];
  }

  lemma EndsAndReleases(w: World, s: ServerId)
    requires Known(w) && CleanInUse(w, s)
    ensures
      exists more ::
        var r := After(w, more);
        && r.history == w.history + [Released(s)] && r.assigning.None? && w.servers[s].game.value in r.games
        && s in r.servers && r.servers[s].kind == Static && r.servers[s].game.None? && r.servers[s].isClean
  {
    var h := w.servers[s].game.value;
    var finish := [StepAssignFinish] + [StepEnd(h, true)];
    AfterMore(w, [StepAssignFinish], [StepEnd(h, true)]);
    AfterOne(w, StepAssignFinish);
    AfterOne(AssignFinish(w), StepEnd(h, true));
    var v := After(w, finish);
    assert v.assigning.None? && v.history == w.history && v.servers == w.servers;
    var n := |v.updates|;
    var check := [StepCheck(s)] + [StepAdvance(n), StepAdvance(n), StepAdvance(n)];
    CheckReleases(v, s);
    AfterMore(w, finish, check);
    assert After(w, finish + check).history == w.history + [Released(s)];
  }

  /**
    The condition of CleanedBetweenGames cannot be dropped: once a cleanup has succeeded on a server
    in use, some continuation gives the server to a game again without having cleaned it.
   */
  lemma UncleanReuse(steps: seq<ServerStep>, step: ServerStep)
    requires CleansInUse(After(EMPTY, steps), step)
    ensures exists more :: !WellSpaced(After(EMPTY, steps + [step] + more).history, step.s)
  {
    var w := After(EMPTY, steps + [step]);
    var s := step.s;
    AfterMore(EMPTY, steps, [step]);
    AfterOne(After(EMPTY, steps), step);
    RunIsKnown(steps + [step]);
    RunIsHeld(steps + [step]);
    EndsAndReleases(w, s);
    var first :|
      var r := After(w, first);
      && r.history == w.history + [Released(s)] && r.assigning.None? && w.servers[s].game.value in r.games
      && s in r.servers && r.servers[s].kind == Static && r.servers[s].game.None? && r.servers[s].isClean;
    Reuses(After(w, first), s, w.servers[s].game.value);
    var second :| After(After(w, first), second).history == After(w, first).history + [Assigned(s)];
    AfterMore(w, first, second);
    AfterMore(EMPTY, steps + [step], first + second);
    UncleanHistory(w.history, s);
    assert After(EMPTY, steps + [step] + (first + second)).history == w.history + [Released(s)] + [Assigned(s)];
  }

  lemma UncleanHistory(history: seq<ServerEvent>, s: ServerId)
    requires HeldSince(history, s)
    ensures !WellSpaced(history + [Released(s)] + [Assigned(s)], s)
  {
    var h := history + [Released(s)] + [Assigned(s)];
    var j := |history| + 1;
    var i :| 0 <= i < |history| && history[i] == Assigned(s) && Released(s) !in history[i..];
    assert h[i] == Assigned(s) && h[j] == Assigned(s);
    assert h[..j] == history + [Released(s)];
    assert forall k :: i < k < |history| ==> h[..j][k] == history[i..][k - i] != Released(s);
    assert !CleanedAfter(h[..j], i, s);
  }

  // ----- the periodic check frees every server of a game that is over, however its steps are spread

  /** Update `i` will unset the game of server `s`, whatever happens meanwhile. */
  ghost predicate WillUnset(w: World, i: nat, s: ServerId) {
    && i < |w.updates| && w.updates[i].s == s && s in w.servers
    && match w.updates[i].stage
       case Seen(g) => g in w.games && !Playing(w, g)
       case Updating(change) => change == UnsetGame
       case Writing(change, _) => change == UnsetGame
       case _ => false
  }

  ghost predicate FreeAt(w: World, s: ServerId) {
    s in w.servers && w.servers[s].game.None?
  }

  /** At some moment of the run the server has no game. */
  ghost predicate FreedDuring(w: World, s: ServerId, steps: seq<ServerStep>) {
    FreeAt(After(w, steps), s) || (steps != [] && FreedDuring(w, s, steps[..|steps|-1]))
  }

  lemma StillWillUnset(w: World, i: nat, s: ServerId, step: ServerStep)
    requires WillUnset(w, i, s) && step != StepRestart
    ensures
      var r := Next(w, step);
      WillUnset(r, i, s) || (i < |r.updates| && r.updates[i].stage == Done && FreeAt(r, s))
  {
    GamesStay(w, step);
    UpdatesStay(w, step, i);
  }

  lemma DoneStays(w: World, i: nat, step: ServerStep)
    requires i < |w.updates| && w.updates[i].stage == Done && step != StepRestart
    ensures i < |Next(w, step).updates| && Next(w, step).updates[i].stage == Done
  {
    UpdatesStay(w, step, i);
  }

  lemma {:induction false} ReleaseRuns(w: World, i: nat, s: ServerId, steps: seq<ServerStep>)
    requires WillUnset(w, i, s) && StepRestart !in steps
    ensures
      var r := After(w, steps);
      WillUnset(r, i, s) || (i < |r.updates| && r.updates[i].stage == Done && FreedDuring(w, s, steps))
  {
    if steps != [] {
      var init, last := steps[..|steps|-1], steps[|steps|-1];
      assert last in steps;
      ReleaseRuns(w, i, s, init);
      var v := After(w, init);
      if WillUnset(v, i, s) {
        StillWillUnset(v, i, s, last);
      } else {
        DoneStays(v, i, last);
      }
    }
  }

  lemma {:induction false} CheckSees(w: World, order: seq<ServerId>, s: ServerId)
    requires s in w.servers && w.servers[s].game.Some?
    ensures
      var c := After(w, CheckSteps(order));
      && c == w.(updates := c.updates) && |w.updates| <= |c.updates|
      && (s in order ==>
            exists i :: |w.updates| <= i < |c.updates| && c.updates[i] == Update(s, Seen(w.servers[s].game.value)))
  {
    if order != [] {
      var init, last := order[..|order|-1], order[|order|-1];
      assert order == init + [last];
      assert CheckSteps(order)[..|order|-1] == CheckSteps(init);
      CheckSees(w, init, s);
      var b, c := After(w, CheckSteps(init)), After(w, CheckSteps(order));
      assert c == SeeServer(b, last);
      if last == s {
        assert c.updates[|b.updates|] == Update(s, Seen(w.servers[s].game.value));
      } else if s in order {
        assert s in init;
        var i :| |w.updates| <= i < |b.updates| && b.updates[i] == Update(s, Seen(w.servers[s].game.value));
        assert c.updates[i] == b.updates[i];
      }
    }
  }

  /**
    Whatever falls between the steps of a periodic check: once all its updates are done, every
    server that it read under a game that was over has been without a game at some moment since.
   */
  lemma CheckAllReleases(w: World, order: seq<ServerId>, more: seq<ServerStep>, s: ServerId)
    requires s in order && s in w.servers && w.servers[s].game.Some?
    requires w.servers[s].game.value in w.games && !Playing(w, w.servers[s].game.value)
    requires StepRestart !in more
    requires
      var c := After(w, CheckSteps(order));
      var r := After(c, more);
      forall i :: |w.updates| <= i < |c.updates| ==> i < |r.updates| && r.updates[i].stage == Done
    ensures FreedDuring(After(w, CheckSteps(order)), s, more)
  {
    var c := After(w, CheckSteps(order));
    CheckSees(w, order, s);
    var i :| |w.updates| <= i < |c.updates| && c.updates[i] == Update(s, Seen(w.servers[s].game.value));
    ReleaseRuns(c, i, s, more);
  }

  // ----- servers held by a game that does not point to them

  /** The server has a game whose record names another server, or none, and that is not just being given this one. */
  ghost predicate Orphaned(w: World, s: ServerId) {
    && s in w.servers && w.servers[s].game.Some?
    && var g := w.servers[s].game.value;
       && !(g in w.games && w.games[g].server == Some(s))
       && w.assigning != Some((g, s))
  }

  /**
    The game of server `s` gets another server while `s` still has the game, or a restart interrupts
    the assignment of `s`.
   */
  ghost predicate Orphans(w: World, step: ServerStep, s: ServerId) {
    && s in w.servers && w.servers[s].game.Some?
    && var g := w.servers[s].game.value;
       || (&& step == StepAssignFinish && w.assigning.Some? && w.assigning.value.0 == g && w.assigning.value.1 != s
           && g in w.games && w.games[g].server == Some(s))
       || (&& step == StepRestart && w.assigning == Some((g, s))
           && !(g in w.games && w.games[g].server == Some(s)))
  }

  lemma OrphanedExactly(w: World, step: ServerStep, s: ServerId)
    requires !Orphaned(w, s)
    ensures Orphaned(Next(w, step), s) <==> Orphans(w, step, s)
  {
    var r := Next(w, step);
    if s in w.servers && s in r.servers && w.servers[s].game == r.servers[s].game {
      KeepsGame(w, step, s);
    } else {
      GetsGame(w, step, s);
    }
  }

  lemma KeepsGame(w: World, step: ServerStep, s: ServerId)
    requires !Orphaned(w, s) && s in w.servers && s in Next(w, step).servers
    requires w.servers[s].game == Next(w, step).servers[s].game
    ensures Orphaned(Next(w, step), s) <==> Orphans(w, step, s)
  {
  }

  lemma GetsGame(w: World, step: ServerStep, s: ServerId)
    requires !Orphaned(w, s)
    requires s in w.servers && s in Next(w, step).servers ==> w.servers[s].game != Next(w, step).servers[s].game
    ensures !Orphaned(Next(w, step), s) && !Orphans(w, step, s)
  {
  }

  /** No update under way would free server `s` of game `g`, unless `seen` and the game ends. */
  ghost predicate Unthreatened(w: World, s: ServerId, g: GameId, seen: bool) {
    forall i :: 0 <= i < |w.updates| && w.updates[i].s == s ==>
      match w.updates[i].stage
      case GameEnded(h) => h != g
      case Seen(h) => seen && h == g
      case Updating(change) => change != UnsetGame
      case Writing(change, _) => change != UnsetGame
      case Done => true
  }

  ghost predicate OrphanOf(w: World, s: ServerId, g: GameId) {
    Orphaned(w, s) && w.servers[s].game == Some(g)
  }

  lemma AdvanceSparesOrphan(w: World, i: nat, s: ServerId, g: GameId, seen: bool)
    requires OrphanOf(w, s, g) && Unthreatened(w, s, g, seen) && i < |w.updates| && (seen ==> Playing(w, g))
    ensures OrphanOf(Advance(w, i), s, g) && Unthreatened(Advance(w, i), s, g, seen)
  {
    var r := Advance(w, i);
    assert r.updates == w.updates[i := r.updates[i]];
    assert r.servers[s].game == w.servers[s].game;
  }

  lemma StepSparesOrphan(w: World, step: ServerStep, s: ServerId, g: GameId, seen: bool)
    requires OrphanOf(w, s, g) && Unthreatened(w, s, g, seen)
    requires if seen then Playing(w, g) else step != StepCheck(s)
    ensures OrphanOf(Next(w, step), s, g) && Unthreatened(Next(w, step), s, g, seen)
  {
    match step
    case StepAdvance(i) => if i < |w.updates| { AdvanceSparesOrphan(w, i, s, g, seen); }
    case StepEnd(h, interrupted) =>
      var r := EndGame(w, h, interrupted);
      assert forall i :: 0 <= i < |w.updates| ==> r.updates[i] == w.updates[i];
      assert |r.updates| > |w.updates| ==> r.updates[|w.updates|] == Update(w.games[h].server.value, GameEnded(h));
    case _ =>
  }

  /**
    An orphaned server keeps its game through every run that has no periodic check of it: even the
    end of the game does not free it.
   */
  lemma {:induction false} OrphanStays(w: World, s: ServerId, g: GameId, steps: seq<ServerStep>)
    requires OrphanOf(w, s, g) && Unthreatened(w, s, g, false) && StepCheck(s) !in steps
    ensures OrphanOf(After(w, steps), s, g) && Unthreatened(After(w, steps), s, g, false)
  {
    if steps != [] {
      var init, last := steps[..|steps|-1], steps[|steps|-1];
      assert last in steps;
      OrphanStays(w, s, g, init);
      StepSparesOrphan(After(w, init), last, s, g, false);
    }
  }

  /** While the game is in progress, not even the periodic checks free it. */
  lemma {:induction false} OrphanOutlivesChecks(w: World, s: ServerId, g: GameId, steps: seq<ServerStep>)
    requires OrphanOf(w, s, g) && Unthreatened(w, s, g, true) && Playing(After(w, steps), g)
    requires g in w.games
    ensures OrphanOf(After(w, steps), s, g) && Unthreatened(After(w, steps), s, g, true)
  {
    if steps != [] {
      var init, last := steps[..|steps|-1], steps[|steps|-1];
      StoredStays(w, g, init);
      GamesStay(After(w, init), last);
      OrphanOutlivesChecks(w, s, g, init);
      StepSparesOrphan(After(w, init), last, s, g, true);
    }
  }

  lemma {:induction false} StoredStays(w: World, g: GameId, steps: seq<ServerStep>)
    requires g in w.games
    ensures g in After(w, steps).games
  {
    if steps != [] {
      StoredStays(w, g, steps[..|steps|-1]);
      GamesStay(After(w, steps[..|steps|-1]), steps[|steps|-1]);
    }
  }

  /**
    A game that is launched again gets another server and orphans the one it had: its end will
    release the second only, and the first stays taken through every run without a check of it.
   */
  lemma RelaunchKeepsBothServers(w: World, g: GameId, s: ServerId, t: ServerId, more: seq<ServerStep>)
    requires Playing(w, g) && w.games[g].server == Some(s) && s in w.servers && w.servers[s].game == Some(g)
    requires AssignStart(w, g, t) != w && Unthreatened(w, s, g, false) && StepCheck(s) !in more
    ensures
      var r := AssignFinish(AssignStart(w, g, t));
      && t != s && t in r.servers && r.servers[t].game == Some(g) && r.games[g].server == Some(t)
      && EndGame(r, g, true).updates == r.updates + [Update(t, GameEnded(g))]
      && OrphanOf(After(r, more), s, g)
  {
    OrphanStays(AssignFinish(AssignStart(w, g, t)), s, g, more);
  }

  // ----- a static server that nothing will clean

  ghost predicate Stranded(w: World, s: ServerId) {
    && s in w.servers && w.servers[s].kind == Static && w.servers[s].game.None? && !w.servers[s].isClean
    && w.servers[s].scheduled == 0 && w.servers[s].cleaning == 0
  }

  /** The last cleanup fails, or a release that last read the server without a game unsets one it got since. */
  ghost predicate Strands(w: World, step: ServerStep, s: ServerId) {
    && s in w.servers && w.servers[s].kind == Static && !w.servers[s].isClean && w.servers[s].scheduled == 0
    && if w.servers[s].game.None?
       then step == StepCleanupEnd(s, false) && w.servers[s].cleaning == 1
       else Unsets(w, step, s) && w.updates[step.i].stage.sight != Held && w.servers[s].cleaning == 0
  }

  lemma StrandedExactly(w: World, step: ServerStep, s: ServerId)
    requires !Stranded(w, s)
    ensures Stranded(Next(w, step), s) <==> Strands(w, step, s)
  {
    match step
    case StepAdvance(i) =>
      if i < |w.updates| && w.updates[i].stage.Writing? {
        var Update(t, stage) := w.updates[i];
        assert Next(w, step).servers == Write(w, t, stage.change, stage.sight).servers;
      }
    case _ =>
  }

  /** A stranded server is revived by a restart, or by an update that read it under its last game. */
  lemma RevivedExactly(w: World, step: ServerStep, s: ServerId)
    requires Stranded(w, s)
    ensures
      !Stranded(Next(w, step), s) <==>
      step == StepRestart || (step.StepAdvance? && step.i < |w.updates| && LateWriter(w.updates[step.i], s))
  {
    match step
    case StepAdvance(i) =>
      if i < |w.updates| && w.updates[i].stage.Writing? {
        var Update(t, stage) := w.updates[i];
        assert Next(w, step).servers == Write(w, t, stage.change, stage.sight).servers;
      }
    case _ =>
  }

  ghost predicate LateWriter(u: Update, s: ServerId) {
    u.s == s && u.stage.Writing? && u.stage.sight == Held
  }

  ghost predicate NoLateWriter(w: World, s: ServerId) {
    forall i :: 0 <= i < |w.updates| ==> !LateWriter(w.updates[i], s)
  }

  lemma StrandedStep(w: World, s: ServerId, step: ServerStep)
    requires Stranded(w, s) && NoLateWriter(w, s) && step != StepRestart
    ensures Stranded(Next(w, step), s) && NoLateWriter(Next(w, step), s)
  {
    RevivedExactly(w, step, s);
    var r := Next(w, step);
    forall i | 0 <= i < |r.updates| ensures !LateWriter(r.updates[i], s) {
      if i < |w.updates| {
        UpdatesStay(w, step, i);
      }
    }
  }

  /** Without a restart it is never given to a game again; a restart makes it clean. */
  lemma {:induction false} StrandedStays(w: World, s: ServerId, steps: seq<ServerStep>)
    requires Stranded(w, s) && NoLateWriter(w, s) && StepRestart !in steps
    ensures
      var r := After(w, steps);
      && Stranded(r, s) && NoLateWriter(r, s)
      && Restart(r).servers[s].isClean && (IsFree(Restart(r), s) <==> r.servers[s].isOnline)
  {
    if steps != [] {
      var init, last := steps[..|steps|-1], steps[|steps|-1];
      assert last in steps;
      StrandedStays(w, s, init);
      StrandedStep(After(w, init), s, last);
    }
  }

  // ----- a server struck in use can be shared

  ghost predicate Share(w: World, g: GameId, h: GameId, s: ServerId) {
    && g != h && Playing(w, g) && Playing(w, h)
    && w.games[g].server == Some(s) && w.games[h].server == Some(s)
  }

  /** Some continuation, perhaps without a restart, gives the server of game `g` to another game as well. */
  ghost predicate CanShare(w: World, g: GameId, s: ServerId, noRestart: bool) {
    exists more, h :: (noRestart ==> StepRestart !in more) && Share(After(w, more), g, h, s)
  }

  lemma ShareLater(w: World, steps: seq<ServerStep>, g: GameId, s: ServerId, noRestart: bool)
    requires CanShare(After(w, steps), g, s, noRestart) && (noRestart ==> StepRestart !in steps)
    ensures CanShare(w, g, s, noRestart)
  {
    var more, h :| (noRestart ==> StepRestart !in more) && Share(After(After(w, steps), more), g, h, s);
    AfterMore(w, steps, more);
    assert Share(After(w, steps + more), g, h, s);
  }

  lemma FreshGame(games: set<GameId>) returns (h: GameId)
    ensures forall g :: g in games ==> g < h
    decreases |games|
  {
    h := 0;
    if games != {} {
      var g :| g in games;
      var k := FreshGame(games - {g});
      h := if k <= g then g + 1 else k;
      forall f | f in games ensures f < h {
        assert f == g || f in games - {g};
      }
    }
  }

  /** A free server goes to the next game, whoever else still uses it. */
  lemma FreeCanBeShared(w: World, g: GameId, s: ServerId)
    requires w.assigning.None? && Playing(w, g) && w.games[g].server == Some(s)
    requires s in w.servers && w.servers[s].kind == Static && w.servers[s].game.None? && w.servers[s].isClean
    ensures CanShare(w, g, s, true)
  {
    var m := |w.updates|;
    var p := HighestPriority(w.servers);
    HeartbeatRaises(w, s, p);
    var raise := [StepHeartbeat(s, p), StepAdvance(m), StepAdvance(m)];
    var v := After(w, raise);
    var h := FreshGame(v.games.Keys);
    AfterThree(v, StepCreate(h), StepAssign(h, s), StepAssignFinish);
    assert IsFirstFree(v, s);
    var gives := [StepCreate(h), StepAssign(h, s), StepAssignFinish];
    assert Share(After(v, gives), g, h, s);
    assert CanShare(v, g, s, true);
    ShareLater(w, raise, g, s, true);
  }

  lemma ShareAfter(w: World, step: ServerStep, g: GameId, s: ServerId, noRestart: bool)
    requires CanShare(Next(w, step), g, s, noRestart) && (noRestart ==> step != StepRestart)
    ensures CanShare(w, g, s, noRestart)
  {
    AfterOne(w, step);
    ShareLater(w, [step], g, s, noRestart);
  }

  lemma LessStrict(w: World, g: GameId, s: ServerId)
    requires CanShare(w, g, s, true)
    ensures CanShare(w, g, s, false)
  {
    var more, h :| (true ==> StepRestart !in more) && Share(After(w, more), g, h, s);
  }

  lemma RestartedCanBeShared(w: World, g: GameId, s: ServerId)
    requires Playing(w, g) && w.games[g].server == Some(s)
    requires s in w.servers && w.servers[s].kind == Static && w.servers[s].game.None?
    ensures CanShare(w, g, s, false)
  {
    FreeCanBeShared(Restart(w), g, s);
    LessStrict(Restart(w), g, s);
    ShareAfter(w, StepRestart, g, s, false);
  }

  /** With a cleanup pending, no restart is needed. */
  lemma CleanedCanBeShared(w: World, g: GameId, s: ServerId)
    requires w.assigning.None? && Playing(w, g) && w.games[g].server == Some(s)
    requires s in w.servers && w.servers[s].kind == Static && w.servers[s].game.None?
    requires w.servers[s].scheduled + w.servers[s].cleaning > 0
    ensures CanShare(w, g, s, true)
  {
    if w.servers[s].cleaning > 0 {
      FreeCanBeShared(Next(w, StepCleanupEnd(s, true)), g, s);
      ShareAfter(w, StepCleanupEnd(s, true), g, s, true);
    } else {
      var v := Next(w, StepCleanupStart(s));
      FreeCanBeShared(Next(v, StepCleanupEnd(s, true)), g, s);
      ShareAfter(v, StepCleanupEnd(s, true), g, s, true);
      ShareAfter(w, StepCleanupStart(s), g, s, true);
    }
  }

  /**
    The condition of NeverShared cannot be dropped: once a release has written while a game in
    progress uses a static server, some continuation gives the server to a second game while the
    first is still in progress.  It needs no restart if the release scheduled a cleanup and no
    assignment is under way.
   */
  lemma StruckCanBeShared(steps: seq<ServerStep>, step: ServerStep, g: GameId, s: ServerId)
    requires Uses(After(EMPTY, steps), g, s) && Unsets(After(EMPTY, steps), step, s)
    requires s in After(EMPTY, steps).servers && After(EMPTY, steps).servers[s].kind == Static
    ensures
      var w := After(EMPTY, steps);
      CanShare(Next(w, step), g, s, w.updates[step.i].stage.sight == Held && w.assigning.None?)
  {
    var w := After(EMPTY, steps);
    var v := Next(w, step);
    assert v.servers[s].game.None? && v.games == w.games && v.assigning == w.assigning;
    if w.updates[step.i].stage.sight == Held && w.assigning.None? {
      CleanedCanBeShared(v, g, s);
    } else if w.assigning == Some((g, s)) {
      RestartedCanBeShared(AssignFinish(v), g, s);
      ShareAfter(v, StepAssignFinish, g, s, false);
    } else {
      RestartedCanBeShared(v, g, s);
    }
  }

  // ----- what a mutex per server would give

  /** Has read the server, and may still write on the strength of it. */
  ghost predicate HasRead(u: Update) {
    u.stage.Seen? || u.stage == Updating(UnsetGame) || u.stage.Writing?
  }

  /** No two updates of one server overlap. */
  ghost predicate Apart(w: World) {
    forall i, j :: 0 <= i < j < |w.updates| && HasRead(w.updates[i]) && HasRead(w.updates[j]) ==>
      w.updates[i].s != w.updates[j].s
  }

  ghost predicate HeldByEnded(w: World, s: ServerId) {
    && s in w.servers && w.servers[s].game.Some?
    && w.servers[s].game.value in w.games && !Playing(w, w.servers[s].game.value)
  }

  /** What the update read is still so. */
  ghost predicate UpToDate(w: World, u: Update) {
    match u.stage
    case Seen(g) => u.s in w.servers && w.servers[u.s].game == Some(g)
    case Updating(change) => change == UnsetGame ==> HeldByEnded(w, u.s)
    case Writing(change, sight) =>
      && (sight == Held ==> u.s in w.servers && w.servers[u.s].game.Some?)
      && (change == UnsetGame ==> sight == Held && HeldByEnded(w, u.s))
    case _ => true
  }

  ghost predicate AllUpToDate(w: World) {
    forall i :: 0 <= i < |w.updates| ==> UpToDate(w, w.updates[i])
  }

  lemma StaysUpToDate(w: World, u: Update, step: ServerStep)
    requires UpToDate(w, u)
    requires HasRead(u) ==> !Unsets(w, step, u.s)
    ensures UpToDate(Next(w, step), u)
  {
    GamesStay(w, step);
    if HasRead(u) && u.s in w.servers && w.servers[u.s].game.Some? {
      GameStays(w, u.s, step);
    }
  }

  lemma GameStays(w: World, s: ServerId, step: ServerStep)
    requires s in w.servers && w.servers[s].game.Some? && !Unsets(w, step, s)
    ensures s in Next(w, step).servers && Next(w, step).servers[s].game == w.servers[s].game
  {
  }

  lemma AdvanceUpToDate(w: World, i: nat)
    requires Known(w) && i < |w.updates| && UpToDate(w, w.updates[i])
    ensures UpToDate(Advance(w, i), Advance(w, i).updates[i])
  {
  }

  lemma StepUpToDate(w: World, step: ServerStep)
    requires Known(w) && AllUpToDate(w) && Apart(w)
    ensures AllUpToDate(Next(w, step))
  {
    var r := Next(w, step);
    if step != StepRestart {
      forall i | 0 <= i < |r.updates| ensures UpToDate(r, r.updates[i]) {
        if i < |w.updates| {
          UpdatesStay(w, step, i);
          if step == StepAdvance(i) {
            AdvanceUpToDate(w, i);
          } else {
            assert UpToDate(w, w.updates[i]);
            assert HasRead(w.updates[i]) ==> !Unsets(w, step, w.updates[i].s);
            StaysUpToDate(w, w.updates[i], step);
          }
        }
      }
    }
  }

  lemma UpToDateIsSafe(w: World, step: ServerStep)
    requires AllUpToDate(w) && Exclusive(w)
    ensures !Strikes(w, step) && !Doubles(w, step)
  {
    if step.StepAdvance? && step.i < |w.updates| {
      assert UpToDate(w, w.updates[step.i]);
    }
  }

  /** If the updates of a server never overlapped, nothing of the above could go wrong. */
  lemma {:induction false} ApartIsSafe(steps: seq<ServerStep>)
    requires Throughout(Apart, steps)
    ensures Never(Strikes, steps) && Never(Doubles, steps) && Never(CleansInUse, steps)
    ensures AllUpToDate(After(EMPTY, steps))
  {
    if steps != [] {
      var init := steps[..|steps|-1];
      ApartIsSafe(init);
      ServerExclusivity(init);
      assert Exclusive(After(EMPTY, init)) && Apart(After(EMPTY, init));
      RunIsKnown(init);
      StepUpToDate(After(EMPTY, init), steps[|steps|-1]);
      UpToDateIsSafe(After(EMPTY, init), steps[|steps|-1]);
    }
    OnlyDoublesClean(steps);
  }
}
