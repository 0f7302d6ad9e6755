/** The whole way: from a full queue, through the team picker, to a game and its substitutions. */
module QueueToGame {
  import opened Common
  import PT = PickTeams
  import L = Lineups
  import TT = TeamTheorems
  import Q = QueueModel
  import QS = QueueSafety
  import F = Friends
  import LT = LobbyTheorems
  import opened GameLifecycle
  import opened LifecycleTheorems

  /** What the team picker returns for a selected lineup. */
  function Picked(l: PT.Lineup): seq<PT.PlayerSlotWithTeam> {
    PT.WithTeam(l.blu, PT.Blu) + PT.WithTeam(l.red, PT.Red)
  }

  lemma PickedAreDistinct(players: seq<PT.PlayerSlot>, l: PT.Lineup)
    requires L.DistinctIds(players) && L.IsSplit(players, l)
    ensures DistinctPlayers(Picked(l))
  {
    var all := l.blu + l.red;
    LT.ShuffledIds(players, all);
    assert |Picked(l)| == |all| && forall i :: 0 <= i < |all| ==> Picked(l)[i].slot == all[i];
  }

  // ----- team strength of the new game

  lemma OfClassConcat(a: seq<PT.PlayerSlot>, b: seq<PT.PlayerSlot>, c: ClassName)
    ensures PT.OfClass(a + b, c) == PT.OfClass(a, c) + PT.OfClass(b, c)
  {
    if a == [] {
      assert a + b == b;
    } else {
      assert (a + b)[1..] == a[1..] + b;
      OfClassConcat(a[1..], b, c);
    }
  }

  lemma {:induction false} StrengthConcat(a: seq<GameSlot>, b: seq<GameSlot>, team: PT.Team, c: ClassName)
    ensures Strength(a + b, team, c) == Strength(a, team, c) + Strength(b, team, c)
  {
    if b == [] {
      assert a + b == a;
    } else {
      assert (a + b)[..|a + b|-1] == a + b[..|b|-1];
      StrengthConcat(a, b[..|b|-1], team, c);
    }
  }

  lemma {:induction false} StrengthOfTeam(ps: seq<PT.PlayerSlot>, of: PT.Team, team: PT.Team, c: ClassName)
    ensures Strength(NewSlots(PT.WithTeam(ps, of)), team, c) == if team == of then |PT.OfClass(ps, c)| else 0
  {
    var slots := NewSlots(PT.WithTeam(ps, of));
    if ps != [] {
      var init, last := ps[..|ps|-1], ps[|ps|-1];
      assert slots[..|slots|-1] == NewSlots(PT.WithTeam(init, of));
      StrengthOfTeam(init, of, team, c);
      assert ps == init + [last];
      OfClassConcat(init, [last], c);
    }
  }

  lemma NewStrength(l: PT.Lineup, team: PT.Team, c: ClassName)
    ensures Strength(NewSlots(Picked(l)), team, c) == |PT.OfClass(if team == PT.Blu then l.blu else l.red, c)|
  {
    assert NewSlots(Picked(l)) == NewSlots(PT.WithTeam(l.blu, PT.Blu)) + NewSlots(PT.WithTeam(l.red, PT.Red));
    StrengthConcat(NewSlots(PT.WithTeam(l.blu, PT.Blu)), NewSlots(PT.WithTeam(l.red, PT.Red)), team, c);
    StrengthOfTeam(l.blu, PT.Blu, team, c);
    StrengthOfTeam(l.red, PT.Red, team, c);
  }

  // ----- the players of the new game

  ghost predicate PlaysIn(slots: seq<GameSlot>, player: PlayerId, c: ClassName) {
    exists j :: 0 <= j < |slots| && slots[j].player == player && slots[j].gameClass == c
  }

  /** The slots of the game are those of the queue, in another order and with teams. */
  lemma SamePlayersAndClasses(slots: seq<Q.Slot>, skill: LT.Skill, l: PT.Lineup)
    requires Q.Full(slots) && multiset(l.blu) + multiset(l.red) == multiset(LT.PlayersOf(slots, skill))
    ensures
      var made := NewSlots(Picked(l));
      && |made| == |slots|
      && (forall i :: 0 <= i < |slots| ==> PlaysIn(made, slots[i].player.value, slots[i].gameClass))
      && Players(made) == QS.Occupants(slots)
  {
    var players, all, made := LT.PlayersOf(slots, skill), l.blu + l.red, NewSlots(Picked(l));
    assert multiset(all) == multiset(players);
    assert |multiset(all)| == |all| && |multiset(players)| == |players|;
    assert |Picked(l)| == |all| && forall j :: 0 <= j < |all| ==> Picked(l)[j].slot == all[j];
    forall i | 0 <= i < |slots|
      ensures PlaysIn(made, slots[i].player.value, slots[i].gameClass) && slots[i].player.value in Players(made)
    {
      assert players[i] in multiset(all);
      assert players[i] in all;
      var j :| 0 <= j < |all| && all[j] == players[i];
      assert made[j].player == slots[i].player.value && made[j] in made;
    }
    forall s | s in made ensures s.player in QS.Occupants(slots) {
      var j :| 0 <= j < |made| && made[j] == s;
      assert all[j] in multiset(players);
      assert all[j] in players;
    }
  }

  // ----- the whole way

  /**
    Whatever happened in the lobby, whatever the skills and the shuffle: the game made from a full
    queue has exactly the queued players, each once and in the class of the queue slot, and after
    any further run of substitutions and match events each team still fields exactly the configured
    number of every class.
   */
  lemma FromQueueToGame(cfg: Q.Config, steps: seq<F.LobbyStep>, skill: LT.Skill, shuffled: seq<PT.PlayerSlot>,
                        overrides: PT.Overrides, id: GameId, marks: map<PlayerId, GameId>,
                        after: seq<Step>, team: PT.Team, c: Q.GameClass)
    requires |Q.EmptySlots(cfg.classes)| > 0 && LT.DistinctClasses(cfg) && LT.OneOrTwoEach(cfg) && c in cfg.classes
    requires Q.Full(F.RunLobby(F.FreshLobby(cfg), steps).q.slots)
    requires multiset(shuffled) == multiset(LT.PlayersOf(F.RunLobby(F.FreshLobby(cfg), steps).q.slots, skill))
    requires PT.Select(shuffled, overrides).Ok? && forall p :: p in marks ==> marks[p] != id
    ensures
      var g := Create(id, Picked(PT.Select(shuffled, overrides).value), marks);
      var slots := F.RunLobby(F.FreshLobby(cfg), steps).q.slots;
      && Created(g) && |g.slots| == |slots| && Players(g.slots) == QS.Occupants(slots)
      && (forall i :: 0 <= i < |slots| ==> PlaysIn(g.slots, slots[i].player.value, slots[i].gameClass))
      && Strength(Run(g, after).slots, team, c.name) == c.count
  {
    var l := PT.Select(shuffled, overrides).value;
    LT.QueueToTeams(cfg, steps, skill, shuffled, overrides);
    LT.LobbyQueue(cfg, steps);
    LT.FullQueuePool(F.RunLobby(F.FreshLobby(cfg), steps).q, skill, shuffled);
    TT.SelectedIsAcceptable(shuffled, overrides);
    PickedAreDistinct(shuffled, l);
    SamePlayersAndClasses(F.RunLobby(F.FreshLobby(cfg), steps).q.slots, skill, l);
    CreateIsCreated(id, Picked(l), marks);
    NewStrength(l, team, c.name);
    TeamsKeepStrength(Create(id, Picked(l), marks), after, team, c.name);
  }
}
