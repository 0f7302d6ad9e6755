/** Servers are never shared, and a static server is cleaned before it is used again. */
module ServerTheorems {
  import opened Common
  import opened GameLifecycle
  import opened GameServers

  // ----- exclusivity

  /** Game `g` is in progress and plays on server `s`, or is just being given it. */
  ghost predicate Uses(w: World, g: GameId, s: ServerId) {
    Playing(w, g) && (w.games[g].server == Some(s) || w.assigning == Some((g, s)))
  }

  /** Every server in use points back to the game that uses it; so no two games share one. */
  ghost predicate Exclusive(w: World) {
    forall g: GameId, s: ServerId :: Uses(w, g, s) ==> s in w.servers && w.servers[s].game == Some(g)
  }

  ghost predicate ServersKnown(w: World) {
    && (w.assigning.Some? ==> w.assigning.value.0 in w.games && w.assigning.value.1 in w.servers)
    && forall s :: s in w.servers && w.servers[s].game.Some? ==> w.servers[s].game.value in w.games
  }

  ghost predicate EndsKnown(w: World) {
    forall i :: 0 <= i < |w.updates| && w.updates[i].stage.GameEnded? ==>
      w.updates[i].stage.g in w.games && !Playing(w, w.updates[i].stage.g)
  }

  /** Holds of every run: games that are named exist, and the end of a game is published after it. */
  ghost predicate Known(w: World) {
    ServersKnown(w) && EndsKnown(w)
  }

  lemma StepKeepsServersKnown(w: World, step: ServerStep)
    requires ServersKnown(w)
    ensures ServersKnown(Next(w, step))
  {
    match step
    case StepAdvance(i) => if i < |w.updates| { AdvanceKeepsServersKnown(w, i); }
    case StepRestart =>
    case _ =>
  }

  lemma AdvanceKeepsServersKnown(w: World, i: nat)
    requires ServersKnown(w) && i < |w.updates|
    ensures ServersKnown(Advance(w, i))
  {
    match w.updates[i].stage
    case Writing(change, sight) => WriteKeepsServersKnown(w, w.updates[i].s, change, sight);
    case _ =>
  }

  lemma WriteKeepsServersKnown(w: World, s: ServerId, change: Change, sight: Sight)
    requires ServersKnown(w)
    ensures ServersKnown(Write(w, s, change, sight))
  {
  }

  /** A stored game stays stored, and once over it stays over. */
  lemma GamesStay(w: World, step: ServerStep)
    ensures forall g :: g in w.games ==> g in Next(w, step).games && (Playing(Next(w, step), g) ==> Playing(w, g))
  {
  }

  lemma UpdatesStay(w: World, step: ServerStep, i: nat)
    requires i < |w.updates| && step != StepRestart
    ensures
      var r := Next(w, step);
      && i < |r.updates| && r.updates[i].s == w.updates[i].s
      && (step != StepAdvance(i) ==> r.updates[i] == w.updates[i])
      && (r.updates[i].stage.GameEnded? ==> r.updates[i] == w.updates[i])
  {
    match step
    case StepAdvance(k) =>
      if k < |w.updates| {
        assert Advance(w, k).updates == w.updates[k := Advance(w, k).updates[k]];
      }
    case _ =>
  }

  lemma StepKeepsEndsKnown(w: World, step: ServerStep)
    requires EndsKnown(w)
    ensures EndsKnown(Next(w, step))
  {
    var r := Next(w, step);
    GamesStay(w, step);
    if step != StepRestart {
      forall i | 0 <= i < |r.updates| && r.updates[i].stage.GameEnded?
        ensures r.updates[i].stage.g in r.games && !Playing(r, r.updates[i].stage.g)
      {
        if i < |w.updates| {
          UpdatesStay(w, step, i);
        }
      }
    }
  }

  lemma StepKeepsKnown(w: World, step: ServerStep)
    requires Known(w)
    ensures Known(Next(w, step))
  {
    StepKeepsServersKnown(w, step);
    StepKeepsEndsKnown(w, step);
  }

  lemma {:induction false} RunIsKnown(steps: seq<ServerStep>)
    ensures Known(After(EMPTY, steps))
  {
    if steps != [] {
      RunIsKnown(steps[..|steps|-1]);
      StepKeepsKnown(After(EMPTY, steps[..|steps|-1]), steps[|steps|-1]);
    }
  }

  /** The step unsets the game of server `s`. */
  ghost predicate Unsets(w: World, step: ServerStep, s: ServerId) {
    step.StepAdvance? && step.i < |w.updates| && w.updates[step.i].s == s &&
    w.updates[step.i].stage.Writing? && w.updates[step.i].stage.change == UnsetGame
  }

  /** A release writes while the server is in use. */
  ghost predicate Strikes(w: World, step: ServerStep) {
    exists g: GameId, s: ServerId :: Uses(w, g, s) && Unsets(w, step, s)
  }

  // ----- over whole runs

  /** `p` holds at every moment of the run. */
  ghost predicate Throughout(p: World -> bool, steps: seq<ServerStep>) {
    p(After(EMPTY, steps)) && (steps != [] ==> Throughout(p, steps[..|steps|-1]))
  }

  /** No step of the run is `bad` in the state it meets. */
  ghost predicate Never(bad: (World, ServerStep) -> bool, steps: seq<ServerStep>) {
    steps != [] ==>
      Never(bad, steps[..|steps|-1]) && !bad(After(EMPTY, steps[..|steps|-1]), steps[|steps|-1])
  }

  /** If exactly the bad steps break `p`, then exactly the runs without a bad step keep it throughout. */
  lemma {:induction false} ThroughoutExactly(p: World -> bool, bad: (World, ServerStep) -> bool, steps: seq<ServerStep>)
    requires p(EMPTY)
    requires forall w, step :: Known(w) && p(w) ==> (p(Next(w, step)) <==> !bad(w, step))
    ensures Throughout(p, steps) <==> Never(bad, steps)
  {
    if steps != [] {
      var init := steps[..|steps|-1];
      ThroughoutExactly(p, bad, init);
      RunIsKnown(init);
    }
  }

  // ----- what breaks exclusivity

  lemma TakeKeepsExclusive(w: World, s: ServerId, g: GameId)
    requires Exclusive(w) && s in w.servers && w.servers[s].game.None? && g in w.games && w.assigning.None?
    ensures Exclusive(Take(w, s, g))
  {
    var r := Take(w, s, g);
    forall h: GameId, t: ServerId | Uses(r, h, t) ensures t in r.servers && r.servers[t].game == Some(h) {
      assert Uses(w, h, t) || (h == g && t == s);
    }
  }

  lemma AssignKeepsExclusive(w: World, g: GameId, s: ServerId)
    requires Exclusive(w)
    ensures Exclusive(AssignStart(w, g, s))
  {
    if w.assigning.None? && g in w.games {
      if IsFirstFree(w, s) {
        TakeKeepsExclusive(w, s, g);
      } else if NoneFree(w) && s !in w.servers {
        var v := w.(servers := w.servers[s := ReservedServer()]);
        assert forall h: GameId, t: ServerId :: Uses(v, h, t) ==> Uses(w, h, t);
        TakeKeepsExclusive(v, s, g);
      }
    }
  }

  lemma AdvanceKeepsExclusive(w: World, i: nat)
    requires Exclusive(w) && i < |w.updates| && !Strikes(w, StepAdvance(i))
    ensures Exclusive(Advance(w, i))
  {
    var r := Advance(w, i);
    forall g: GameId, s: ServerId | Uses(r, g, s) ensures s in r.servers && r.servers[s].game == Some(g) {
      assert Uses(w, g, s);
      assert !Unsets(w, StepAdvance(i), s);
    }
  }

  lemma OthersKeepExclusive(w: World, step: ServerStep)
    requires Known(w) && Exclusive(w) && !step.StepAssign? && !step.StepAdvance?
    ensures Exclusive(Next(w, step))
  {
    var r := Next(w, step);
    forall g: GameId, s: ServerId | Uses(r, g, s) ensures s in r.servers && r.servers[s].game == Some(g) {
      assert Uses(w, g, s);
    }
  }

  lemma StepExclusiveExactly(w: World, step: ServerStep)
    requires Known(w) && Exclusive(w)
    ensures Exclusive(Next(w, step)) <==> !Strikes(w, step)
  {
    match step
    case StepAssign(g, s) => AssignKeepsExclusive(w, g, s);
    case StepAdvance(i) =>
      if Strikes(w, step) {
        var g: GameId, s: ServerId :| Uses(w, g, s) && Unsets(w, step, s);
        assert Uses(Next(w, step), g, s);
      } else if i < |w.updates| {
        AdvanceKeepsExclusive(w, i);
      }
    case _ => OthersKeepExclusive(w, step);
  }

  /**
    Exactly the runs in which no release writes while its server is in use keep, at every moment,
    every server in use pointing back to the game that uses it.
   */
  lemma ServerExclusivity(steps: seq<ServerStep>)
    ensures Throughout(Exclusive, steps) <==> Never(Strikes, steps)
  {
    forall w, step | Known(w) && Exclusive(w) ensures Exclusive(Next(w, step)) <==> !Strikes(w, step) {
      StepExclusiveExactly(w, step);
    }
    ThroughoutExactly(Exclusive, Strikes, steps);
  }

  /** And then two games in progress never have the same server. */
  lemma NeverShared(steps: seq<ServerStep>, g: GameId, h: GameId, s: ServerId)
    requires Never(Strikes, steps)
    requires Uses(After(EMPTY, steps), g, s) && Uses(After(EMPTY, steps), h, s)
    ensures g == h
  {
    ServerExclusivity(steps);
  }

  // ----- at most one cleanup, and none for a server with a game

  /** A server with a game is dirty and nothing is about to clean it; at most one cleanup is pending. */
  ghost predicate Protocol(v: Server) {
    && (v.game.Some? ==> v.scheduled + v.cleaning == 0 && !v.isClean)
    && v.scheduled + v.cleaning <= 1
    && (v.scheduled + v.cleaning > 0 ==> !v.isClean)
  }

  ghost predicate SafeCleanups(w: World) {
    forall s :: s in w.servers && w.servers[s].kind == Static ==> Protocol(w.servers[s])
  }

  /**
    An update that read the server with a game writes when that game is gone, and the cleanup is
    already pending or done.
   */
  ghost predicate Doubles(w: World, step: ServerStep) {
    step.StepAdvance? && step.i < |w.updates| &&
    var Update(s, stage) := w.updates[step.i];
    && stage.Writing? && stage.sight == Held && s in w.servers && w.servers[s].kind == Static
    && w.servers[s].game.None? && (w.servers[s].isClean || w.servers[s].scheduled + w.servers[s].cleaning > 0)
  }

  lemma WriteSafeExactly(w: World, s: ServerId, change: Change, sight: Sight)
    requires SafeCleanups(w)
    ensures
      SafeCleanups(Write(w, s, change, sight)) <==>
      !(sight == Held && s in w.servers && w.servers[s].kind == Static && w.servers[s].game.None? &&
        (w.servers[s].isClean || w.servers[s].scheduled + w.servers[s].cleaning > 0))
  {
    var r := Write(w, s, change, sight);
    assert forall t :: t in r.servers && t != s ==> t in w.servers && r.servers[t] == w.servers[t];
    if s in w.servers && w.servers[s].kind == Static {
      assert Protocol(w.servers[s]);
      assert r.servers[s].kind == Static;
    }
  }

  lemma AdvanceSafeExactly(w: World, i: nat)
    requires SafeCleanups(w) && i < |w.updates|
    ensures SafeCleanups(Advance(w, i)) <==> !Doubles(w, StepAdvance(i))
  {
    match w.updates[i].stage
    case Writing(change, sight) => WriteSafeExactly(w, w.updates[i].s, change, sight);
    case _ =>
  }

  lemma StepSafeExactly(w: World, step: ServerStep)
    requires SafeCleanups(w)
    ensures SafeCleanups(Next(w, step)) <==> !Doubles(w, step)
  {
    if step.StepAdvance? && step.i < |w.updates| {
      AdvanceSafeExactly(w, step.i);
    }
  }

  /**
    Exactly the runs without such a late write have, at every moment and for every static server,
    at most one pending cleanup, and none while the server has a game or is clean.
   */
  lemma CleanupSparesGames(steps: seq<ServerStep>)
    ensures Throughout(SafeCleanups, steps) <==> Never(Doubles, steps)
  {
    forall w, step | Known(w) && SafeCleanups(w) ensures SafeCleanups(Next(w, step)) <==> !Doubles(w, step) {
      StepSafeExactly(w, step);
    }
    ThroughoutExactly(SafeCleanups, Doubles, steps);
  }

  ghost predicate Deciding(w: World, i: nat, s: ServerId) {
    i < |w.updates| && w.updates[i] == Update(s, Updating(UnsetGame))
  }

  lemma Reads(w: World, i: nat, s: ServerId)
    requires Deciding(w, i, s)
    ensures Next(w, StepAdvance(i)) == w.(updates := w.updates[i := Update(s, Writing(UnsetGame, Look(w, s)))])
  {
  }

  lemma Writes(w: World, i: nat, s: ServerId, sight: Sight)
    requires i < |w.updates| && w.updates[i] == Update(s, Writing(UnsetGame, sight))
    requires s in w.servers && w.servers[s].kind == Static
    ensures
      var r := Next(w, StepAdvance(i));
      && r.updates == w.updates[i := Update(s, Done)]
      && s in r.servers
      && r.servers[s] == w.servers[s].(game := None,
                                       scheduled := w.servers[s].scheduled + if sight == Held then 1 else 0)
  {
  }

  /** Four updates of the world, each the next step of one of two releases. */
  function Interleaved(w: World, a: nat, b: nat, c: nat, d: nat): World {
    Next(Next(Next(Next(w, StepAdvance(a)), StepAdvance(b)), StepAdvance(c)), StepAdvance(d))
  }

  /**
    Two releases of one static server, each about to read and then to write: one cleanup comes of
    it if the first to read also writes before the other reads, and two if both read first.
   */
  lemma TwoReleases(w: World, i: nat, j: nat, s: ServerId)
    requires i != j && Deciding(w, i, s) && Deciding(w, j, s)
    requires s in w.servers && w.servers[s].kind == Static && w.servers[s].game.Some?
    ensures Interleaved(w, i, i, j, j).servers[s].scheduled == w.servers[s].scheduled + 1
    ensures Interleaved(w, i, j, i, j).servers[s].scheduled == w.servers[s].scheduled + 2
    ensures Interleaved(w, i, j, j, i).servers[s].scheduled == w.servers[s].scheduled + 2
  {
    var x := Next(w, StepAdvance(i));
    Reads(w, i, s);
    Reads(x, j, s);
    Writes(x, i, s, Held);
    Reads(Next(x, StepAdvance(i)), j, s);
    Writes(Next(Next(x, StepAdvance(i)), StepAdvance(j)), j, s, Idle);
    var y := Next(x, StepAdvance(j));
    Writes(y, i, s, Held);
    Writes(y, j, s, Held);
    Writes(Next(y, StepAdvance(i)), j, s, Held);
    Writes(Next(y, StepAdvance(j)), i, s, Held);
  }

  // ----- a static server is cleaned between two games

  ghost predicate ReleasedAfter(history: seq<ServerEvent>, i: nat, s: ServerId) {
    exists k :: i < k < |history| && history[k] == Released(s)
  }

  ghost predicate CleanedAfter(history: seq<ServerEvent>, i: nat, s: ServerId) {
    exists k :: i < k < |history| && (history[k] == Cleaned(s) || history[k] == Restarted) &&
      exists j :: i < j < k && history[j] == Released(s)
  }

  /** What the record of a server says of its past. */
  ghost predicate Remembers(history: seq<ServerEvent>, s: ServerId, v: Server) {
    forall i :: 0 <= i < |history| && history[i] == Assigned(s) ==>
      && (v.game.None? ==> ReleasedAfter(history, i, s))
      && (v.isClean ==> CleanedAfter(history, i, s))
  }

  ghost predicate WellSpaced(history: seq<ServerEvent>, s: ServerId) {
    forall i, j :: 0 <= i < j < |history| && history[i] == Assigned(s) && history[j] == Assigned(s) ==>
      CleanedAfter(history[..j], i, s)
  }

  /** The history is in order: a server with a game is dirty, and every assignment found it cleaned since the last. */
  ghost predicate Tidy(w: World) {
    && (forall s :: s in w.servers && w.servers[s].kind == Static ==>
          && (w.servers[s].game.Some? ==> !w.servers[s].isClean)
          && Remembers(w.history, s, w.servers[s])
          && WellSpaced(w.history, s))
    && (forall s, i :: 0 <= i < |w.history| && w.history[i] == Assigned(s) ==> s in w.servers)
  }

  /** A cleanup succeeds on a server that has been given to a game meanwhile. */
  ghost predicate CleansInUse(w: World, step: ServerStep) {
    step.StepCleanupEnd? && step.ok && step.s in w.servers && w.servers[step.s].kind == Static
    && w.servers[step.s].cleaning > 0 && w.servers[step.s].game.Some?
  }

  lemma Later(history: seq<ServerEvent>, e: ServerEvent, i: nat, s: ServerId)
    ensures ReleasedAfter(history, i, s) ==> ReleasedAfter(history + [e], i, s)
    ensures CleanedAfter(history, i, s) ==> CleanedAfter(history + [e], i, s)
  {
    if ReleasedAfter(history, i, s) {
      var k :| i < k < |history| && history[k] == Released(s);
      assert (history + [e])[k] == Released(s);
    }
    if CleanedAfter(history, i, s) {
      var k, j :| i < j < k < |history| && (history[k] == Cleaned(s) || history[k] == Restarted) && history[j] == Released(s);
      assert (history + [e])[k] == history[k] && (history + [e])[j] == history[j];
    }
  }

  /** One more event, and the server's new record. */
  lemma Extend(history: seq<ServerEvent>, e: ServerEvent, s: ServerId, v: Server, u: Server)
    requires Remembers(history, s, v) && WellSpaced(history, s)
    requires u.game.None? ==> v.game.None? || e == Released(s)
    requires u.isClean ==> v.isClean || (v.game.None? && (e == Cleaned(s) || e == Restarted))
    requires e == Assigned(s) ==> v.isClean && u.game.Some? && !u.isClean
    ensures Remembers(history + [e], s, u) && WellSpaced(history + [e], s)
  {
    var h := history + [e];
    forall i | 0 <= i < |history| && history[i] == Assigned(s)
      ensures u.game.None? ==> ReleasedAfter(h, i, s)
      ensures u.isClean ==> CleanedAfter(h, i, s)
      ensures e == Assigned(s) ==> CleanedAfter(h[..|history|], i, s)
    {
      Later(history, e, i, s);
      if e == Released(s) {
        assert h[|history|] == e;
      }
      if v.game.None? && (e == Cleaned(s) || e == Restarted) {
        var k :| i < k < |history| && history[k] == Released(s);
        assert h[k] == Released(s) && h[|history|] == e;
      }
      assert h[..|history|] == history;
    }
    forall i, j | 0 <= i < j < |h| && h[i] == Assigned(s) && h[j] == Assigned(s)
      ensures CleanedAfter(h[..j], i, s)
    {
      if j < |history| {
        assert h[..j] == history[..j];
      }
    }
  }


  ghost predicate TidyServer(history: seq<ServerEvent>, s: ServerId, v: Server) {
    v.kind == Static ==> (v.game.Some? ==> !v.isClean) && Remembers(history, s, v) && WellSpaced(history, s)
  }

  lemma NeverAssigned(w: World, s: ServerId, v: Server)
    requires Tidy(w) && s !in w.servers && (v.game.Some? ==> !v.isClean)
    ensures TidyServer(w.history, s, v)
  {
  }

  /** An event leaves the servers alone that it is not about. */
  lemma OthersStayTidy(w: World, e: ServerEvent, t: ServerId)
    requires Tidy(w) && t in w.servers && e != Assigned(t) && e != Restarted
    ensures TidyServer(w.history + [e], t, w.servers[t])
  {
    if w.servers[t].kind == Static {
      Extend(w.history, e, t, w.servers[t], w.servers[t]);
    }
  }

  /** A step that changes only server `s` and adds an event about it. */
  lemma OneServer(w: World, s: ServerId, u: Server, e: ServerEvent)
    requires Tidy(w) && s in w.servers && u.kind == w.servers[s].kind
    requires e == Assigned(s) || e == Released(s) || e == Cleaned(s)
    requires u.kind == Static ==>
               var v := w.servers[s];
               && (u.game.Some? ==> !u.isClean)
               && (u.game.None? ==> v.game.None? || e == Released(s))
               && (u.isClean ==> v.isClean || (v.game.None? && e == Cleaned(s)))
               && (e == Assigned(s) ==> v.isClean && u.game.Some?)
    ensures Tidy(w.(servers := w.servers[s := u], history := w.history + [e]))
  {
    var r := w.(servers := w.servers[s := u], history := w.history + [e]);
    forall t | t in r.servers ensures TidyServer(r.history, t, r.servers[t]) {
      if t == s {
        if u.kind == Static { Extend(w.history, e, s, w.servers[s], u); }
      } else {
        OthersStayTidy(w, e, t);
      }
    }
  }

  /** A step that changes only server `s`, without an event. */
  lemma SilentServer(w: World, s: ServerId, u: Server)
    requires Tidy(w)
    requires s in w.servers ==>
               && u.kind == w.servers[s].kind && u.game == w.servers[s].game
               && (u.isClean ==> w.servers[s].isClean)
    requires s !in w.servers ==> (u.game.Some? ==> !u.isClean)
    ensures Tidy(w.(servers := w.servers[s := u]))
  {
    var r := w.(servers := w.servers[s := u]);
    if s !in w.servers {
      NeverAssigned(w, s, u);
    }
    forall t | t in r.servers ensures TidyServer(r.history, t, r.servers[t]) {
      if t != s {
        assert TidyServer(w.history, t, w.servers[t]);
      }
    }
  }

  lemma WriteKeepsTidy(w: World, s: ServerId, change: Change, sight: Sight)
    requires Tidy(w)
    ensures Tidy(Write(w, s, change, sight))
  {
    if s in w.servers {
      var u := Notified(Changed(w.servers[s], change), sight);
      if change == UnsetGame && w.servers[s].game.Some? {
        OneServer(w, s, u, Released(s));
      } else {
        SilentServer(w, s, u);
      }
    } else if change.GoOnline? {
      SilentServer(w, s, NewStatic(change.priority));
    }
  }

  lemma AssignKeepsTidy(w: World, g: GameId, s: ServerId)
    requires Tidy(w)
    ensures Tidy(AssignStart(w, g, s))
  {
    if w.assigning.None? && g in w.games {
      if IsFirstFree(w, s) {
        OneServer(w, s, Take(w, s, g).servers[s], Assigned(s));
      } else if NoneFree(w) && s !in w.servers {
        var v := w.(servers := w.servers[s := ReservedServer()]);
        SilentServer(w, s, ReservedServer());
        OneServer(v, s, Take(v, s, g).servers[s], Assigned(s));
      }
    }
  }

  lemma RestartKeepsTidy(w: World)
    requires Tidy(w)
    ensures Tidy(Restart(w))
  {
    var r := Restart(w);
    forall t | t in r.servers ensures TidyServer(r.history, t, r.servers[t]) {
      if r.servers[t].kind == Static {
        Extend(w.history, Restarted, t, w.servers[t], r.servers[t]);
      }
    }
  }

  lemma CleanupEndTidyExactly(w: World, s: ServerId, ok: bool)
    requires Tidy(w)
    ensures Tidy(CleanupEnd(w, s, ok)) <==> !CleansInUse(w, StepCleanupEnd(s, ok))
  {
    if s in w.servers && w.servers[s].cleaning > 0 {
      var u := CleanupEnd(w, s, ok).servers[s];
      if CleansInUse(w, StepCleanupEnd(s, ok)) {
        assert !TidyServer(CleanupEnd(w, s, ok).history, s, u);
      } else if ok {
        OneServer(w, s, u, Cleaned(s));
      } else {
        SilentServer(w, s, u);
      }
    }
  }

  lemma StepTidyExactly(w: World, step: ServerStep)
    requires Tidy(w)
    ensures Tidy(Next(w, step)) <==> !CleansInUse(w, step)
  {
    match step
    case StepAssign(g, s) => AssignKeepsTidy(w, g, s);
    case StepAdvance(i) =>
      if i < |w.updates| && w.updates[i].stage.Writing? {
        WriteKeepsTidy(w, w.updates[i].s, w.updates[i].stage.change, w.updates[i].stage.sight);
      }
    case StepCleanupStart(s) =>
      if s in w.servers && w.servers[s].scheduled > 0 { SilentServer(w, s, Next(w, step).servers[s]); }
    case StepCleanupEnd(s, ok) => CleanupEndTidyExactly(w, s, ok);
    case StepRestart => RestartKeepsTidy(w);
    case _ =>
  }

  lemma TidyExactly(steps: seq<ServerStep>)
    ensures Throughout(Tidy, steps) <==> Never(CleansInUse, steps)
  {
    forall w, step | Known(w) && Tidy(w) ensures Tidy(Next(w, step)) <==> !CleansInUse(w, step) {
      StepTidyExactly(w, step);
    }
    ThroughoutExactly(Tidy, CleansInUse, steps);
  }

  /**
    Unless a cleanup succeeded on a server in use: between two assignments of a static server it
    was released and then cleaned up (or declared clean by a restart).
   */
  lemma CleanedBetweenGames(steps: seq<ServerStep>, s: ServerId, i: nat, j: nat)
    requires Never(CleansInUse, steps)
    requires
      var w := After(EMPTY, steps);
      && s in w.servers && w.servers[s].kind == Static
      && i < j < |w.history| && w.history[i] == Assigned(s) && w.history[j] == Assigned(s)
    ensures
      var h := After(EMPTY, steps).history;
      exists k, m :: i < k < m < j && h[k] == Released(s) && (h[m] == Cleaned(s) || h[m] == Restarted)
  {
    TidyExactly(steps);
    var h := After(EMPTY, steps).history;
    assert CleanedAfter(h[..j], i, s);
    var m, k :| i < k < m < |h[..j]| && (h[..j][m] == Cleaned(s) || h[..j][m] == Restarted) && h[..j][k] == Released(s);
    assert h[m] == h[..j][m] && h[k] == h[..j][k];
  }

  /** Without a doubled cleanup, no cleanup ever succeeds on a server in use. */
  lemma {:induction false} OnlyDoublesClean(steps: seq<ServerStep>)
    requires Never(Doubles, steps)
    ensures Never(CleansInUse, steps)
  {
    if steps != [] {
      OnlyDoublesClean(steps[..|steps|-1]);
      CleanupSparesGames(steps[..|steps|-1]);
      assert SafeCleanups(After(EMPTY, steps[..|steps|-1]));
    }
  }
}
