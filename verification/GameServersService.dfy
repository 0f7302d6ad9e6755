/** The game-server services, updating the stored servers and games in place. */
module GameServersService {
  import opened Common
  import opened GameLifecycle
  import opened GameServers

  class GameServersService {
    var servers: map<ServerId, Server>
    var games: map<GameId, GameRecord>
    var assigning: Option<(GameId, ServerId)>
    var updates: seq<Update>
    ghost var history: seq<ServerEvent>

    ghost function View(): World
      reads this
    {
      World(servers, games, assigning, updates, history)
    }

    constructor ()
      ensures View() == EMPTY
    {
      servers, games, assigning, updates, history := map[], map[], None, [], [];
    }

    /** The clean, online, unassigned static server of the highest priority. */
    method FindFirstFreeGameServer() returns (best: Option<ServerId>)
      ensures best.Some? ==> IsFirstFree(View(), best.value)
      ensures best.None? ==> NoneFree(View())
    {
      best := None;
      var left := servers.Keys;
      while left != {}
        invariant left <= servers.Keys
        invariant best.Some? ==> IsFree(View(), best.value) && best.value !in left
        invariant forall t :: t in servers && t !in left && IsFree(View(), t) ==>
                    best.Some? && servers[t].priority <= servers[best.value].priority
        decreases left
      {
        var s :| s in left;
        left := left - {s};
        var v := servers[s];
        if v.kind == Static && v.isOnline && v.isClean && v.game.None? {
          if best.None? || servers[best.value].priority < v.priority {
            best := Some(s);
          }
        }
      }
    }

    /**
      Under the mutex, up to the write of the game.  The providers are asked in order: static
      servers, then a reservation (the key of the server it made, if it succeeded).
     */
    method BeginAssign(g: GameId, reservation: Option<ServerId>) returns (server: Option<ServerId>)
      requires assigning.None? && g in games
      requires reservation.Some? ==> reservation.value !in servers
      modifies this
      ensures server.None? ==> View() == old(View()) && NoneFree(View()) && reservation.None?
      ensures server.Some? ==>
                && View() == AssignStart(old(View()), g, server.value)
                && View().assigning == Some((g, server.value))
                && (IsFirstFree(old(View()), server.value) || (NoneFree(old(View())) && server == reservation))
    {
      server := FindFirstFreeGameServer();
      if server.None? {
        if reservation.None? {
          return None;
        }
        server := reservation;
        servers := servers[server.value := ReservedServer()];
      }
      var s := server.value;
      servers := servers[s := servers[s].(game := Some(g))];
      if servers[s].kind == Static {
        servers := servers[s := servers[s].(isClean := false)];
      }
      assigning := Some((g, s));
      history := history + [Assigned(s)];
    }

    method FinishAssign()
      requires assigning.Some? && assigning.value.0 in games
      modifies this
      ensures View() == AssignFinish(old(View()))
    {
      var (g, s) := assigning.value;
      games := games[g := games[g].(server := Some(s))];
      assigning := None;
    }

    /** The server part of a launch; a game that already has a server, or is over, is not refused. */
    method DoLaunch(g: GameId, reservation: Option<ServerId>) returns (server: Option<ServerId>)
      requires assigning.None? && g in games
      requires reservation.Some? ==> reservation.value !in servers
      modifies this
      ensures server.None? ==> View() == old(View()) && NoneFree(View()) && reservation.None?
      ensures server.Some? ==> View() == AssignFinish(AssignStart(old(View()), g, server.value))
      ensures server.Some? ==> server.value in servers && servers[server.value].game == Some(g)
      ensures server.Some? ==> g in games && games[g].server == server
    {
      server := BeginAssign(g, reservation);
      if server.Some? {
        FinishAssign();
      }
    }

    /** An update up to its first await; it has yet to read the record. */
    method BeginUpdate(s: ServerId, change: Change)
      modifies this`updates
      ensures View() == Begin(old(View()), s, Updating(change))
    {
      updates := updates + [Update(s, Updating(change))];
    }

    method SetUpdate(i: nat, stage: Stage)
      requires i < |updates|
      modifies this`updates
      ensures View() == SetStage(old(View()), i, stage)
    {
      updates := updates[i := updates[i].(stage := stage)];
    }

    /** Once the server of the ended game has been read: is it still the server of that game? */
    method MaybeReleaseGameServer(i: nat)
      requires i < |updates| && updates[i].stage.GameEnded?
      modifies this`updates
      ensures View() == Advance(old(View()), i)
      ensures updates[i].stage == Updating(UnsetGame) <==>
                updates[i].s in servers && servers[updates[i].s].game == Some(old(updates[i].stage.g))
    {
      var Update(s, stage) := updates[i];
      if s in servers && servers[s].game == Some(stage.g) {
        SetUpdate(i, Updating(UnsetGame));
      } else {
        SetUpdate(i, Done);
      }
    }

    /** Once the game that a server was seen with has been read: is it over? */
    method ReleaseIfOver(i: nat)
      requires i < |updates| && updates[i].stage.Seen?
      modifies this`updates
      ensures View() == Advance(old(View()), i)
    {
      var g := updates[i].stage.g;
      if g in games && !InProgress(games[g].state) {
        SetUpdate(i, Updating(UnsetGame));
      } else {
        SetUpdate(i, Done);
      }
    }

    /** The first read of an update. */
    method ReadOldGameServer(i: nat)
      requires i < |updates| && updates[i].stage.Updating?
      modifies this`updates
      ensures View() == Advance(old(View()), i)
    {
      var Update(s, stage) := updates[i];
      var sight := Absent;
      if s in servers {
        sight := if servers[s].game.Some? then Held else Idle;
      }
      SetUpdate(i, Writing(stage.change, sight));
    }

    /** The write of an update, and the two listeners of static servers. */
    method WriteGameServer(i: nat)
      requires i < |updates| && updates[i].stage.Writing?
      modifies this
      ensures View() == Advance(old(View()), i)
    {
      var Update(s, Writing(change, sight)) := updates[i];
      updates := updates[i := Update(s, Done)];
      if s in servers {
        match change {
          case UnsetGame =>
            if servers[s].game.Some? {
              history := history + [Released(s)];
            }
            servers := servers[s := servers[s].(game := None)];
          case GoOnline(priority) =>
            if servers[s].kind == Static {
              servers := servers[s := servers[s].(isOnline := true, priority := priority)];
            }
          case GoOffline =>
            if servers[s].kind == Static {
              servers := servers[s := servers[s].(isOnline := false)];
            }
        }
        if servers[s].kind == Static {
          if sight == Held && servers[s].game.None? {
            servers := servers[s := servers[s].(scheduled := servers[s].scheduled + 1)];
          } else if sight == Idle && servers[s].game.Some? {
            servers := servers[s := servers[s].(isClean := false)];
          }
        }
      } else if change.GoOnline? {
        servers := servers[s := NewStatic(change.priority)];
      }
    }

    /** Once a minute: reads all servers, and goes on with each that has a game on its own. */
    method CheckForGameServersToRelease() returns (ghost order: seq<ServerId>)
      modifies this`updates
      ensures View() == After(old(View()), CheckSteps(order))
      ensures forall s :: s in servers ==> s in order
      ensures |old(updates)| <= |updates|
      ensures forall s :: s in servers && servers[s].game.Some? ==>
                Update(s, Seen(servers[s].game.value)) in updates[|old(updates)|..]
    {
      order := [];
      var left := servers.Keys;
      while left != {}
        invariant View() == After(old(View()), CheckSteps(order))
        invariant |old(updates)| <= |updates|
        invariant forall s :: s in servers && s !in left ==> s in order
        invariant forall s :: s in servers && s !in left && servers[s].game.Some? ==>
                    Update(s, Seen(servers[s].game.value)) in updates[|old(updates)|..]
        invariant left <= servers.Keys
        decreases left
      {
        var s :| s in left;
        left := left - {s};
        ghost var before := updates;
        if servers[s].game.Some? {
          updates := updates + [Update(s, Seen(servers[s].game.value))];
          assert updates[|old(updates)|..] == before[|old(updates)|..] + [Update(s, Seen(servers[s].game.value))];
        }
        assert CheckSteps(order + [s])[..|order|] == CheckSteps(order);
        order := order + [s];
      }
    }

    /** A heartbeat of a static server. */
    method Heartbeat(s: ServerId, priority: int)
      modifies this`updates
      ensures View() == Next(old(View()), StepHeartbeat(s, priority))
    {
      BeginUpdate(s, GoOnline(priority));
    }

    /** One of the servers that sent no heartbeat for too long. */
    method MarkAsOffline(s: ServerId)
      modifies this`updates
      ensures View() == Next(old(View()), StepOffline(s))
    {
      BeginUpdate(s, GoOffline);
    }

    /** The delayed cleanup starts; the outcome is that of the commands sent to the server. */
    method BeginCleanup(s: ServerId)
      requires s in servers && servers[s].scheduled > 0
      modifies this`servers
      ensures View() == CleanupStart(old(View()), s)
    {
      var v := servers[s];
      servers := servers[s := v.(scheduled := v.scheduled - 1, cleaning := v.cleaning + 1)];
    }

    method FinishCleanup(s: ServerId, ok: bool)
      requires s in servers && servers[s].cleaning > 0
      modifies this`servers, this`history
      ensures View() == CleanupEnd(old(View()), s, ok)
    {
      servers := servers[s := servers[s].(cleaning := servers[s].cleaning - 1)];
      if ok {
        servers := servers[s := servers[s].(isClean := true)];
        history := history + [Cleaned(s)];
      }
    }

    /** Start-up: pending timers are gone; dirty servers without a game are declared clean. */
    method OnModuleInit()
      modifies this
      ensures View() == Restart(old(View()))
    {
      ghost var before := servers;
      var left := servers.Keys;
      while left != {}
        invariant left <= servers.Keys == before.Keys
        invariant forall s :: s in servers ==>
                    servers[s] == if s in left then before[s] else RestartedServer(before[s])
        invariant View() == old(View()).(servers := servers)
        decreases left
      {
        var s :| s in left;
        left := left - {s};
        servers := servers[s := servers[s].(scheduled := 0, cleaning := 0)];
        if servers[s].kind == Static && !servers[s].isClean && servers[s].game.None? {
          servers := servers[s := servers[s].(isClean := true)];
        }
      }
      assert servers == map s | s in before :: RestartedServer(before[s]);
      assigning, updates := None, [];
      history := history + [Restarted];
    }
  }
}
