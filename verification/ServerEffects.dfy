/** What each step does to the stored servers and games, and what whole chains of steps amount to. */
module ServerEffects {
  import opened Common
  import opened GameLifecycle
  import opened GameServers
  import opened ServerTheorems
  import SL = ServerLimits

  ghost predicate OthersSame(w: World, r: World, s: ServerId) {
    forall t :: t != s ==> (t in r.servers <==> t in w.servers) && (t in w.servers ==> r.servers[t] == w.servers[t])
  }

  ghost predicate OtherGamesSame(w: World, r: World, g: GameId) {
    forall h :: h != g ==> (h in r.games <==> h in w.games) && (h in w.games ==> r.games[h] == w.games[h])
  }

  lemma AfterTwo(w: World, a: ServerStep, b: ServerStep)
    ensures After(w, [a, b]) == Next(Next(w, a), b)
  {
    assert [a, b] == [a] + [b];
    SL.AfterMore(w, [a], [b]);
    SL.AfterOne(w, a);
    SL.AfterOne(Next(w, a), b);
  }

  // ----- assignment

  /** A server a game could be given: it is kept, up, clean and nobody's. */
  ghost predicate Available(w: World, s: ServerId) {
    && s in w.servers
    && w.servers[s].kind == Static && w.servers[s].isOnline && w.servers[s].isClean && w.servers[s].game == None
  }

  /** An assignment is possible exactly with the best available server, or a new one if none is available. */
  lemma AssignExactly(w: World, g: GameId, s: ServerId)
    ensures
      Next(w, StepAssign(g, s)) != w <==>
      && w.assigning == None && g in w.games
      && if s in w.servers
         then Available(w, s) && forall t :: Available(w, t) ==> w.servers[t].priority <= w.servers[s].priority
         else forall t :: !Available(w, t)
  {
    forall t ensures IsFree(w, t) <==> Available(w, t) {
    }
    var r := Next(w, StepAssign(g, s));
    assert r == w || r.assigning.Some?;
  }

  /** Both halves of an assignment: game and server name each other, a static server is dirty, nothing else moves. */
  lemma AssignEffect(w: World, g: GameId, s: ServerId)
    requires Next(w, StepAssign(g, s)) != w
    ensures
      var r := After(w, [StepAssign(g, s), StepAssignFinish]);
      && s in r.servers && g in r.games
      && r.servers[s].game == Some(g) && (r.servers[s].kind == Static ==> !r.servers[s].isClean)
      && (s in w.servers ==> r.servers[s] == w.servers[s].(game := Some(g), isClean := false))
      && (s !in w.servers ==> r.servers[s].kind == Reserved && r.servers[s].scheduled + r.servers[s].cleaning == 0)
      && OthersSame(w, r, s) && OtherGamesSame(w, r, g)
      && r.games[g] == w.games[g].(server := Some(s))
      && r.assigning == None && r.updates == w.updates && r.history == w.history + [Assigned(s)]
  {
    AfterTwo(w, StepAssign(g, s), StepAssignFinish);
  }

  // ----- games

  /** A stored game is never forgotten, and changes only by the step that names it. */
  lemma GameExactly(w: World, step: ServerStep, g: GameId)
    requires g in w.games
    ensures
      var r := Next(w, step);
      g in r.games && r.games[g] ==
      match step
      case StepStart(h) => if h == g && w.games[g].state == Launching then w.games[g].(state := Started) else w.games[g]
      case StepEnd(h, interrupted) =>
        if h == g && interrupted then w.games[g].(state := Interrupted)
        else if h == g && w.games[g].state == Started then w.games[g].(state := Ended)
        else w.games[g]
      case StepAssignFinish =>
        if w.assigning.Some? && w.assigning.value.0 == g then w.games[g].(server := Some(w.assigning.value.1))
        else w.games[g]
      case _ => w.games[g]
  {
  }

  lemma NewGame(w: World, step: ServerStep, g: GameId)
    requires g !in w.games
    ensures
      var r := Next(w, step);
      && (g in r.games <==> step == StepCreate(g))
      && (g in r.games ==> r.games[g] == GameRecord(Launching, None))
  {
  }

  // ----- the end of a game, to the clean server

  /** The end is published, and a release begun, exactly for a game that was in progress and has a server. */
  lemma EndBegins(w: World, g: GameId, interrupted: bool)
    ensures
      var r := Next(w, StepEnd(g, interrupted));
      && r.updates == w.updates +
         (if Playing(w, g) && w.games[g].server.Some? && (interrupted || w.games[g].state == Started)
          then [Update(w.games[g].server.value, GameEnded(g))] else [])
      && r.servers == w.servers && r.history == w.history && r.assigning == w.assigning
  {
  }

  lemma ReleaseRuns(w: World, g: GameId, s: ServerId, m: nat)
    requires m < |w.updates| && w.updates[m] == Update(s, GameEnded(g))
    requires s in w.servers && w.servers[s].game == Some(g)
    ensures
      var r := After(w, [StepAdvance(m), StepAdvance(m), StepAdvance(m)]);
      var cleanups := if w.servers[s].kind == Static then 1 else 0;
      && s in r.servers
      && r.servers[s] == w.servers[s].(game := None, scheduled := w.servers[s].scheduled + cleanups)
      && OthersSame(w, r, s) && r.games == w.games && r.assigning == w.assigning
      && r.history == w.history + [Released(s)]
  {
    var a := Advance(w, m);
    assert a == w.(updates := w.updates[m := Update(s, Updating(UnsetGame))]);
    var b := Advance(a, m);
    assert b == a.(updates := a.updates[m := Update(s, Writing(UnsetGame, Held))]);
    SL.AfterThree(w, StepAdvance(m), StepAdvance(m), StepAdvance(m));
  }

  /**
    The end of a game with nothing in between: its server is nobody's, a static one has one cleanup
    more ahead, and no other server is touched.
   */
  lemma EndReleases(w: World, g: GameId, interrupted: bool, s: ServerId)
    requires Playing(w, g) && w.games[g].server == Some(s) && (interrupted || w.games[g].state == Started)
    requires s in w.servers && w.servers[s].game == Some(g)
    ensures
      var m := |w.updates|;
      var r := After(w, [StepEnd(g, interrupted), StepAdvance(m), StepAdvance(m), StepAdvance(m)]);
      var cleanups := if w.servers[s].kind == Static then 1 else 0;
      && s in r.servers
      && r.servers[s] == w.servers[s].(game := None, scheduled := w.servers[s].scheduled + cleanups)
      && OthersSame(w, r, s) && !Playing(r, g)
      && r.history == w.history + [Released(s)]
  {
    var m := |w.updates|;
    var end, release := [StepEnd(g, interrupted)], [StepAdvance(m), StepAdvance(m), StepAdvance(m)];
    assert [StepEnd(g, interrupted), StepAdvance(m), StepAdvance(m), StepAdvance(m)] == end + release;
    SL.AfterMore(w, end, release);
    SL.AfterOne(w, end[0]);
    EndBegins(w, g, interrupted);
    ReleaseRuns(Next(w, end[0]), g, s, m);
  }

  lemma CleanupStarts(w: World, s: ServerId)
    requires s in w.servers && w.servers[s].scheduled > 0
    ensures
      var v := w.servers[s];
      Next(w, StepCleanupStart(s)) ==
      w.(servers := w.servers[s := v.(scheduled := v.scheduled - 1, cleaning := v.cleaning + 1)])
  {
  }

  lemma CleanupEnds(w: World, s: ServerId, ok: bool)
    requires s in w.servers && w.servers[s].cleaning > 0
    ensures
      var v := w.servers[s];
      Next(w, StepCleanupEnd(s, ok)) ==
      w.(servers := w.servers[s := v.(cleaning := v.cleaning - 1, isClean := ok || v.isClean)],
         history := w.history + if ok then [Cleaned(s)] else [])
  {
  }

  /** Of the cleanups ahead one starts and ends; only success makes the server clean, and games are not touched. */
  lemma CleanupEffect(w: World, s: ServerId, ok: bool)
    requires s in w.servers && w.servers[s].scheduled > 0
    ensures
      var r := After(w, [StepCleanupStart(s), StepCleanupEnd(s, ok)]);
      && s in r.servers
      && r.servers[s] == w.servers[s].(scheduled := w.servers[s].scheduled - 1, isClean := ok || w.servers[s].isClean)
      && OthersSame(w, r, s) && r.games == w.games && r.assigning == w.assigning && r.updates == w.updates
      && r.history == w.history + (if ok then [Cleaned(s)] else [])
  {
    AfterTwo(w, StepCleanupStart(s), StepCleanupEnd(s, ok));
    CleanupStarts(w, s);
    CleanupEnds(Next(w, StepCleanupStart(s)), s, ok);
  }

  /** A cleanup cannot end that has not started, nor start that is not ahead. */
  lemma NoCleanup(w: World, s: ServerId, ok: bool)
    requires s in w.servers
    ensures w.servers[s].scheduled == 0 ==> Next(w, StepCleanupStart(s)) == w
    ensures w.servers[s].cleaning == 0 ==> Next(w, StepCleanupEnd(s, ok)) == w
  {
  }

  // ----- updates, stage by stage

  /** What an update finds, and whether it goes on: it is over exactly if there is nothing to release. */
  lemma ReadExactly(w: World, i: nat)
    requires i < |w.updates| && !w.updates[i].stage.Writing?
    ensures
      var Update(s, stage) := w.updates[i];
      var r := Next(w, StepAdvance(i));
      && r == w.(updates := r.updates) && |r.updates| == |w.updates|
      && (forall k :: 0 <= k < |w.updates| && k != i ==> r.updates[k] == w.updates[k])
      && r.updates[i].s == s
      && (stage.GameEnded? ==>
            r.updates[i].stage ==
            if s in w.servers && w.servers[s].game == Some(stage.g) then Updating(UnsetGame) else Done)
      && (stage.Seen? ==>
            r.updates[i].stage == if stage.g in w.games && !Playing(w, stage.g) then Updating(UnsetGame) else Done)
      && (stage.Updating? ==>
            && r.updates[i].stage.Writing? && r.updates[i].stage.change == stage.change
            && (r.updates[i].stage.sight == Absent <==> s !in w.servers)
            && (r.updates[i].stage.sight == Held <==> s in w.servers && w.servers[s].game != None))
      && (stage.Done? ==> r == w)
  {
  }

  /**
    What an update leaves of a stored server: a game gone since the read schedules a cleanup of a
    static server, a game come since makes it dirty.
   */
  lemma WriteExactly(w: World, i: nat)
    requires i < |w.updates| && w.updates[i].stage.Writing? && w.updates[i].s in w.servers
    ensures
      var Update(s, Writing(change, sight)) := w.updates[i];
      var r := Next(w, StepAdvance(i));
      && s in r.servers && OthersSame(w, r, s) && r.games == w.games && r.assigning == w.assigning
      && r.updates == w.updates[i := Update(s, Done)]
      && var v, u := w.servers[s], r.servers[s];
      && u.kind == v.kind && u.cleaning == v.cleaning
      && u.game == (if change == UnsetGame then None else v.game)
      && (u.isOnline <==> if v.kind == Static && change != UnsetGame then change.GoOnline? else v.isOnline)
      && u.priority == (if v.kind == Static && change.GoOnline? then change.priority else v.priority)
      && u.scheduled == v.scheduled + (if v.kind == Static && sight == Held && u.game == None then 1 else 0)
      && (u.isClean <==> v.isClean && !(v.kind == Static && sight == Idle && u.game != None))
  {
  }

  /** Of a server that is not stored only a heartbeat leaves something: a new server, free and clean. */
  lemma WriteNew(w: World, i: nat)
    requires i < |w.updates| && w.updates[i].stage.Writing? && w.updates[i].s !in w.servers
    ensures
      var Update(s, Writing(change, sight)) := w.updates[i];
      var r := Next(w, StepAdvance(i));
      && (s in r.servers <==> change.GoOnline?)
      && (change.GoOnline? ==> Available(r, s) && r.servers[s].priority == change.priority)
      && OthersSame(w, r, s) && r.games == w.games && r.assigning == w.assigning && r.history == w.history
  {
  }

  /** What begins an update: a check of a server with a game, any publication of an end, a heartbeat or its absence. */
  lemma BeginsExactly(w: World, step: ServerStep)
    requires step != StepRestart && !step.StepAdvance?
    ensures
      var r := Next(w, step);
      && w.updates <= r.updates && |r.updates| <= |w.updates| + 1
      && (|r.updates| > |w.updates| <==>
          match step
          case StepEnd(g, interrupted) =>
            Playing(w, g) && w.games[g].server != None && (interrupted || w.games[g].state == Started)
          case StepEndAgain(g) => g in w.games && !Playing(w, g) && w.games[g].server != None
          case StepCheck(s) => s in w.servers && w.servers[s].game != None
          case StepHeartbeat(_, _) => true
          case StepOffline(_) => true
          case _ => false)
  {
  }

  // ----- a server that goes silent

  lemma OfflineReads(w: World, s: ServerId)
    ensures Next(Next(w, StepOffline(s)), StepAdvance(|w.updates|)) ==
            w.(updates := w.updates + [Update(s, Writing(GoOffline, Look(w, s)))])
  {
    var m := |w.updates|;
    var a := w.(updates := w.updates + [Update(s, Updating(GoOffline))]);
    assert Next(w, StepOffline(s)) == a;
    var read := Update(s, Writing(GoOffline, Look(w, s)));
    assert a.updates[m := read] == w.updates + [read];
  }

  lemma OfflineWrites(w: World, m: nat, s: ServerId)
    requires m < |w.updates| && w.updates[m] == Update(s, Writing(GoOffline, Look(w, s)))
    requires s in w.servers && w.servers[s].kind == Static
    ensures
      var r := Advance(w, m);
      && r.games == w.games && r.assigning == w.assigning && r.history == w.history
      && r.servers == w.servers[s := w.servers[s].(isOnline := false)]
  {
  }

  /** With nothing in between it is offline, whoever plays on it, and keeps all else. */
  lemma OfflineLowers(w: World, s: ServerId)
    requires s in w.servers && w.servers[s].kind == Static
    ensures
      var m := |w.updates|;
      var r := After(w, [StepOffline(s), StepAdvance(m), StepAdvance(m)]);
      && s in r.servers && r.servers[s] == w.servers[s].(isOnline := false) && OthersSame(w, r, s)
      && r.games == w.games && r.assigning == w.assigning && r.history == w.history
  {
    var m := |w.updates|;
    var b := w.(updates := w.updates + [Update(s, Writing(GoOffline, Look(w, s)))]);
    SL.AfterThree(w, StepOffline(s), StepAdvance(m), StepAdvance(m));
    OfflineReads(w, s);
    assert Next(b, StepAdvance(m)) == Advance(b, m);
    OfflineWrites(b, m, s);
  }

  // ----- restart

  /** A restart forgets all that was under way; exactly the static servers without a game come back clean. */
  lemma RestartEffect(w: World, s: ServerId)
    ensures
      var r := Next(w, StepRestart);
      && r.games == w.games && r.assigning == None && r.updates == [] && r.history == w.history + [Restarted]
      && (s in r.servers <==> s in w.servers)
      && (s in w.servers ==>
            && r.servers[s] == w.servers[s].(scheduled := 0, cleaning := 0, isClean := r.servers[s].isClean)
            && (r.servers[s].isClean <==>
                  w.servers[s].isClean || (w.servers[s].kind == Static && w.servers[s].game == None)))
  {
  }
}
