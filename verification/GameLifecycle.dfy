/**
  One game from creation to its end: substitutions, match events, forced end, and the
  `activeGame` mark of the players.  Each method of the services is one atomic step.
 */
module GameLifecycle {
  import opened Common
  import PT = PickTeams

  datatype SlotStatus = Active | WaitingForSubstitute | Replaced

  datatype GameState = Launching | Started | Ended | Interrupted

  datatype GameSlot = GameSlot(player: PlayerId, team: PT.Team, gameClass: ClassName, status: SlotStatus)

  /** `freeings` counts the timers that will free every player of the ended game. */
  datatype Game = Game(id: GameId, slots: seq<GameSlot>, state: GameState,
                       activeGame: map<PlayerId, GameId>, freeings: nat)

  datatype Refusal =
    | PlayerNotInThisGame | GameInWrongState | WrongGameSlotStatus
    | PlayerIsBanned | PlayerInvolvedInGame

  predicate InProgress(state: GameState) {
    state == Launching || state == Started
  }

  // ----- slots

  function FindSlot(slots: seq<GameSlot>, player: PlayerId): (i: nat)
    ensures i <= |slots|
    ensures i < |slots| ==> slots[i].player == player
    ensures forall j :: 0 <= j < i ==> slots[j].player != player
  {
    if slots == [] || slots[0].player == player then 0 else 1 + FindSlot(slots[1..], player)
  }

  function FindWaiting(slots: seq<GameSlot>, player: PlayerId): (i: nat)
    ensures i <= |slots|
    ensures i < |slots| ==> slots[i].player == player && slots[i].status == WaitingForSubstitute
    ensures forall j :: 0 <= j < i ==> !(slots[j].player == player && slots[j].status == WaitingForSubstitute)
  {
    if slots == [] || (slots[0].player == player && slots[0].status == WaitingForSubstitute) then 0
    else 1 + FindWaiting(slots[1..], player)
  }

  /** An array-filter update: it hits every slot of the player. */
  function SetStatusOf(slots: seq<GameSlot>, player: PlayerId, status: SlotStatus): (r: seq<GameSlot>)
    ensures |r| == |slots|
  {
    seq(|slots|, i requires 0 <= i < |slots| =>
      if slots[i].player == player then slots[i].(status := status) else slots[i])
  }

  /** An array-filter update: it hits every slot that waits for a substitute. */
  function Settle(slots: seq<GameSlot>): (r: seq<GameSlot>)
    ensures |r| == |slots|
  {
    seq(|slots|, i requires 0 <= i < |slots| =>
      if slots[i].status == WaitingForSubstitute then slots[i].(status := Active) else slots[i])
  }

  function Players(slots: seq<GameSlot>): set<PlayerId> {
    set s | s in slots :: s.player
  }

  function Medics(slots: seq<GameSlot>): set<PlayerId> {
    set s | s in slots && s.gameClass == Medic :: s.player
  }

  // ----- transitions

  function SubstituteRefusal(g: Game, player: PlayerId): Option<Refusal> {
    var i := FindSlot(g.slots, player);
    if i == |g.slots| then Some(PlayerNotInThisGame)
    else if !InProgress(g.state) then Some(GameInWrongState)
    else if g.slots[i].status == Replaced then Some(WrongGameSlotStatus)
    else None
  }

  function SubstitutePlayer(g: Game, player: PlayerId): Game {
    if SubstituteRefusal(g, player).Some? then g
    else if g.slots[FindSlot(g.slots, player)].status == WaitingForSubstitute then g
    else g.(slots := SetStatusOf(g.slots, player, WaitingForSubstitute))
  }

  function CancelSubstitution(g: Game, player: PlayerId): Game {
    if SubstituteRefusal(g, player).Some? then g
    else if g.slots[FindSlot(g.slots, player)].status == Active then g
    else g.(slots := SetStatusOf(g.slots, player, Active))
  }

  function ReplaceRefusal(g: Game, replacee: PlayerId, replacement: PlayerId, banned: bool): Option<Refusal> {
    if banned then Some(PlayerIsBanned)
    else if FindWaiting(g.slots, replacee) == |g.slots| then Some(PlayerNotInThisGame)
    else if replacee != replacement && replacement in g.activeGame then Some(PlayerInvolvedInGame)
    else None
  }

  function ReplacePlayer(g: Game, replacee: PlayerId, replacement: PlayerId, banned: bool): Game {
    if ReplaceRefusal(g, replacee, replacement, banned).Some? then g
    else if replacee == replacement then
      g.(slots := SetStatusOf(g.slots, replacee, Active))
    else
      var s := g.slots[FindWaiting(g.slots, replacee)];
      var pushed := g.slots + [GameSlot(replacement, s.team, s.gameClass, Active)];
      g.(slots := SetStatusOf(pushed, replacee, Replaced),
         activeGame := g.activeGame[replacement := g.id] - {replacee})
  }

  function MatchStarted(g: Game): Game {
    if g.state == Launching then g.(state := Started) else g
  }

  function MatchEnded(g: Game): Game {
    if g.state != Started then g
    else g.(state := Ended, slots := Settle(g.slots),
            activeGame := g.activeGame - Medics(g.slots), freeings := g.freeings + 1)
  }

  /** The timer armed by the end of the match. */
  function FreeAllPlayers(g: Game): Game {
    if g.freeings == 0 then g
    else g.(freeings := g.freeings - 1, activeGame := g.activeGame - Players(g.slots))
  }

  /** An administrator may do this to a game in any state. */
  function ForceEnd(g: Game): Game {
    g.(state := Interrupted, slots := Settle(g.slots), activeGame := g.activeGame - Players(g.slots))
  }

  /** Other games mark and free players; they never touch a mark of this game. */
  function OtherGame(g: Game, player: PlayerId, other: Option<GameId>): Game {
    if (player in g.activeGame && g.activeGame[player] == g.id) || other == Some(g.id) then g
    else if other.Some? then g.(activeGame := g.activeGame[player := other.value])
    else g.(activeGame := g.activeGame - {player})
  }

  /** At start-up, players still marked with a game that is over are freed. */
  function ReleaseStale(g: Game, player: PlayerId): Game {
    if player in g.activeGame && g.activeGame[player] == g.id && !InProgress(g.state)
    then g.(activeGame := g.activeGame - {player}) else g
  }

  // ----- runs

  datatype Step =
    | StepSubstitute(player: PlayerId)
    | StepCancel(player: PlayerId)
    | StepReplace(replacee: PlayerId, replacement: PlayerId, banned: bool)
    | StepMatchStarted
    | StepMatchEnded
    | StepFreeAll
    | StepForceEnd
    | StepOtherGame(player: PlayerId, other: Option<GameId>)
    | StepReleaseStale(player: PlayerId)

  function Apply(g: Game, step: Step): Game {
    match step
    case StepSubstitute(player) => SubstitutePlayer(g, player)
    case StepCancel(player) => CancelSubstitution(g, player)
    case StepReplace(replacee, replacement, banned) => ReplacePlayer(g, replacee, replacement, banned)
    case StepMatchStarted => MatchStarted(g)
    case StepMatchEnded => MatchEnded(g)
    case StepFreeAll => FreeAllPlayers(g)
    case StepForceEnd => ForceEnd(g)
    case StepOtherGame(player, other) => OtherGame(g, player, other)
    case StepReleaseStale(player) => ReleaseStale(g, player)
  }

  function Run(g: Game, steps: seq<Step>): Game {
    if steps == [] then g else Apply(Run(g, steps[..|steps|-1]), steps[|steps|-1])
  }

  /** The slots of a new game: the picked teams, everybody active. */
  function NewSlots(picked: seq<PT.PlayerSlotWithTeam>): (r: seq<GameSlot>)
    ensures |r| == |picked|
  {
    seq(|picked|, i requires 0 <= i < |picked| =>
      GameSlot(picked[i].slot.playerId, picked[i].team, picked[i].slot.gameClass, Active))
  }

  function Create(id: GameId, picked: seq<PT.PlayerSlotWithTeam>, activeGame: map<PlayerId, GameId>): Game {
    var slots := NewSlots(picked);
    Game(id, slots, Launching, activeGame + (map p | p in Players(slots) :: id), 0)
  }

  lemma SettleKeepsPlayers(slots: seq<GameSlot>)
    ensures Players(Settle(slots)) == Players(slots) && Medics(Settle(slots)) == Medics(slots)
  {
    var r := Settle(slots);
    forall s | s in slots ensures s.player in Players(r) && (s.gameClass == Medic ==> s.player in Medics(r)) {
      var i :| 0 <= i < |slots| && slots[i] == s;
      assert r[i] in r;
    }
    forall s | s in r ensures s.player in Players(slots) && (s.gameClass == Medic ==> s.player in Medics(slots)) {
      var i :| 0 <= i < |r| && r[i] == s;
      assert slots[i] in slots;
    }
  }
}
