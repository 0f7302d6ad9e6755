/**
  Assigning game servers to games, releasing them, and the dirty/clean protocol of static
  servers.  An update of a server reads the record, writes it, and tells the listeners what it read
  and what it left; the reads and the write are steps of their own, and any other step can fall
  between them.
 */
module GameServers {
  import opened Common
  import opened GameLifecycle

  type ServerId = nat

  /** A static server is kept and reused; a reserved one is made for a single game. */
  datatype Kind = Static | Reserved

  /** `scheduled` and `cleaning` count this server's delayed cleanups, not yet started and started. */
  datatype Server = Server(kind: Kind, game: Option<GameId>, isOnline: bool, isClean: bool, priority: int,
                           scheduled: nat, cleaning: nat)

  datatype GameRecord = GameRecord(state: GameState, server: Option<ServerId>)

  /** What an update writes. */
  datatype Change = UnsetGame | GoOnline(priority: int) | GoOffline

  /** What an update found when it read the record: no server, one without a game, one with a game. */
  datatype Sight = Absent | Idle | Held

  /**
    An update of server `s` between two of its awaits.  A release starts when the end of game `g` is
    published, or when the periodic check sees `s` with game `g`; either way it first looks whether
    there is something to do.
   */
  datatype Stage =
    | GameEnded(g: GameId) | Seen(g: GameId)
    | Updating(change: Change) | Writing(change: Change, sight: Sight) | Done

  datatype Update = Update(s: ServerId, stage: Stage)

  datatype ServerEvent = Assigned(s: ServerId) | Released(s: ServerId) | Cleaned(s: ServerId) | Restarted

  datatype World = World(
    servers: map<ServerId, Server>,
    games: map<GameId, GameRecord>,
    assigning: Option<(GameId, ServerId)>,  // the server points to the game, the game not yet back
    updates: seq<Update>,                   // all updates begun since start-up
    history: seq<ServerEvent>
  )

  predicate Playing(w: World, g: GameId) {
    g in w.games && InProgress(w.games[g].state)
  }

  predicate IsFree(w: World, s: ServerId) {
    && s in w.servers && w.servers[s].kind == Static && w.servers[s].isOnline && w.servers[s].isClean
    && w.servers[s].game.None?
  }

  /** The first of the clean servers in descending order of priority; the database orders equals. */
  predicate IsFirstFree(w: World, s: ServerId) {
    IsFree(w, s) && forall t :: t in w.servers && IsFree(w, t) ==> w.servers[t].priority <= w.servers[s].priority
  }

  predicate NoneFree(w: World) {
    forall t :: t in w.servers ==> !IsFree(w, t)
  }

  // ----- transitions

  function CreateGame(w: World, g: GameId): World {
    if g in w.games then w else w.(games := w.games[g := GameRecord(Launching, None)])
  }

  function StartGame(w: World, g: GameId): World {
    if g in w.games && w.games[g].state == Launching
    then w.(games := w.games[g := w.games[g].(state := Started)]) else w
  }

  /** The end is published only if the game was in progress; a game without a server has nothing to release. */
  function EndGame(w: World, g: GameId, interrupted: bool): World {
    if g !in w.games || (!interrupted && w.games[g].state != Started) then w
    else
      var r := w.games[g];
      w.(games := w.games[g := r.(state := if interrupted then Interrupted else Ended)],
         updates := if InProgress(r.state) && r.server.Some? then w.updates + [Update(r.server.value, GameEnded(g))]
                    else w.updates)
  }

  /**
    An end can be published again: a forced end, or any other update, read the game while it was
    still in progress and writes it when it is over.
   */
  function EndAgain(w: World, g: GameId): World {
    if g in w.games && !InProgress(w.games[g].state) && w.games[g].server.Some?
    then w.(updates := w.updates + [Update(w.games[g].server.value, GameEnded(g))]) else w
  }

  /** Points server `s` to the game and, if static, marks it dirty. */
  function Take(w: World, s: ServerId, g: GameId): World
    requires s in w.servers
  {
    var v := w.servers[s];
    w.(servers := w.servers[s := v.(game := Some(g), isClean := v.isClean && v.kind != Static)],
       assigning := Some((g, s)), history := w.history + [Assigned(s)])
  }

  function ReservedServer(): Server {
    Server(Reserved, None, true, true, 0, 0, 0)
  }

  /**
    First half of an assignment, under its mutex.  Any stored game may be assigned: one that
    has a server, one that is over.  Static servers come first; otherwise `s` is a new reservation.
   */
  function AssignStart(w: World, g: GameId, s: ServerId): World {
    if w.assigning.Some? || g !in w.games then w
    else if IsFirstFree(w, s) then Take(w, s, g)
    else if NoneFree(w) && s !in w.servers then Take(w.(servers := w.servers[s := ReservedServer()]), s, g)
    else w
  }

  function AssignFinish(w: World): World {
    match w.assigning
    case None => w
    case Some((g, s)) =>
      if g !in w.games then w
      else w.(assigning := None, games := w.games[g := w.games[g].(server := Some(s))])
  }

  function Begin(w: World, s: ServerId, stage: Stage): World {
    w.(updates := w.updates + [Update(s, stage)])
  }

  function SetStage(w: World, i: nat, stage: Stage): World
    requires i < |w.updates|
  {
    w.(updates := w.updates[i := w.updates[i].(stage := stage)])
  }

  function Look(w: World, s: ServerId): Sight {
    if s !in w.servers then Absent else if w.servers[s].game.None? then Idle else Held
  }

  function NewStatic(priority: int): Server {
    Server(Static, None, true, true, priority, 0, 0)
  }

  /** The stored fields an update changes.  The unset asks nothing. */
  function Changed(v: Server, change: Change): Server {
    match change
    case UnsetGame => v.(game := None)
    case GoOnline(priority) => if v.kind == Static then v.(isOnline := true, priority := priority) else v
    case GoOffline => if v.kind == Static then v.(isOnline := false) else v
  }

  /**
    The listeners of a static server compare what the update read with what it left: a game that
    is gone schedules a cleanup, a game that is new makes the server dirty.
   */
  function Notified(v: Server, sight: Sight): Server {
    if v.kind == Static && sight == Held && v.game.None? then v.(scheduled := v.scheduled + 1)
    else if v.kind == Static && sight == Idle && v.game.Some? then v.(isClean := false)
    else v
  }

  function Write(w: World, s: ServerId, change: Change, sight: Sight): World {
    if s in w.servers then
      w.(servers := w.servers[s := Notified(Changed(w.servers[s], change), sight)],
         history := if change == UnsetGame && w.servers[s].game.Some? then w.history + [Released(s)] else w.history)
    else if change.GoOnline? then w.(servers := w.servers[s := NewStatic(change.priority)])
    else w
  }

  /** Update `i` goes on to its next await; updates overtake each other freely. */
  function Advance(w: World, i: nat): World
    requires i < |w.updates|
  {
    var Update(s, stage) := w.updates[i];
    match stage
    case GameEnded(g) =>
      SetStage(w, i, if s in w.servers && w.servers[s].game == Some(g) then Updating(UnsetGame) else Done)
    case Seen(g) => SetStage(w, i, if g in w.games && !InProgress(w.games[g].state) then Updating(UnsetGame) else Done)
    case Updating(change) => SetStage(w, i, Writing(change, Look(w, s)))
    case Writing(change, sight) => SetStage(Write(w, s, change, sight), i, Done)
    case Done => w
  }

  /** The periodic check reads server `s`; a server without a game needs nothing. */
  function SeeServer(w: World, s: ServerId): World {
    if s in w.servers && w.servers[s].game.Some? then Begin(w, s, Seen(w.servers[s].game.value)) else w
  }

  function CleanupStart(w: World, s: ServerId): World {
    if s !in w.servers || w.servers[s].scheduled == 0 then w
    else
      var v := w.servers[s];
      w.(servers := w.servers[s := v.(scheduled := v.scheduled - 1, cleaning := v.cleaning + 1)])
  }

  /** The server did what it was told, or could not be reached. */
  function CleanupEnd(w: World, s: ServerId, ok: bool): World {
    if s !in w.servers || w.servers[s].cleaning == 0 then w
    else
      var v := w.servers[s].(cleaning := w.servers[s].cleaning - 1);
      if ok then w.(servers := w.servers[s := v.(isClean := true)], history := w.history + [Cleaned(s)])
      else w.(servers := w.servers[s := v])
  }

  /** After a restart no timer and no update is left, and unassigned dirty servers are declared clean. */
  function RestartedServer(v: Server): Server {
    v.(scheduled := 0, cleaning := 0, isClean := v.isClean || (v.kind == Static && v.game.None?))
  }

  function Restart(w: World): World {
    w.(servers := map s | s in w.servers :: RestartedServer(w.servers[s]),
       assigning := None, updates := [], history := w.history + [Restarted])
  }

  // ----- runs

  datatype ServerStep =
    | StepCreate(g: GameId)
    | StepStart(g: GameId)
    | StepEnd(g: GameId, interrupted: bool)
    | StepEndAgain(g: GameId)
    | StepAssign(g: GameId, s: ServerId)
    | StepAssignFinish
    | StepAdvance(i: nat)
    | StepCheck(s: ServerId)
    | StepHeartbeat(s: ServerId, priority: int)
    | StepOffline(s: ServerId)
    | StepCleanupStart(s: ServerId)
    | StepCleanupEnd(s: ServerId, ok: bool)
    | StepRestart

  function Next(w: World, step: ServerStep): World {
    match step
    case StepCreate(g) => CreateGame(w, g)
    case StepStart(g) => StartGame(w, g)
    case StepEnd(g, interrupted) => EndGame(w, g, interrupted)
    case StepEndAgain(g) => EndAgain(w, g)
    case StepAssign(g, s) => AssignStart(w, g, s)
    case StepAssignFinish => AssignFinish(w)
    case StepAdvance(i) => if i < |w.updates| then Advance(w, i) else w
    case StepCheck(s) => SeeServer(w, s)
    case StepHeartbeat(s, priority) => Begin(w, s, Updating(GoOnline(priority)))
    case StepOffline(s) => Begin(w, s, Updating(GoOffline))
    case StepCleanupStart(s) => CleanupStart(w, s)
    case StepCleanupEnd(s, ok) => CleanupEnd(w, s, ok)
    case StepRestart => Restart(w)
  }

  function After(w: World, steps: seq<ServerStep>): World {
    if steps == [] then w else Next(After(w, steps[..|steps|-1]), steps[|steps|-1])
  }

  /** One periodic check reads every server, in whatever order the database lists them. */
  function CheckSteps(order: seq<ServerId>): (steps: seq<ServerStep>)
    ensures |steps| == |order|
    ensures forall k :: 0 <= k < |order| ==> steps[k] == StepCheck(order[k])
  {
    seq(|order|, k requires 0 <= k < |order| => StepCheck(order[k]))
  }

  const EMPTY := World(map[], map[], None, [], [])
}
