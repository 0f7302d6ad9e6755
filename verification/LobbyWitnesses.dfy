/** Runs of queue, friends and launches after which a launch finds no teams. */
module LobbyWitnesses {
  import opened Common
  import opened QueueModel
  import opened QueueSafety
  import opened QueueTheorems
  import opened Friends
  import opened LaunchLedger
  import opened LaunchTeams
  import opened LobbyTheorems
  import PT = PickTeams
  import TT = TeamTheorems
  import L = Lineups
  import FT = FriendTeams

  const MEDICS := GameClass(Medic, 1, [Scout])
  const SCOUTS := GameClass(Scout, 1, [])

  /** A medic and a scout a team: slots 0 and 1 are for medics, 2 and 3 for scouts. */
  const MIXED := Config([MEDICS, SCOUTS], 40000, 60000)

  lemma MixedSlots()
    ensures
      var slots := EmptySlots(MIXED.classes);
      && |slots| == 4
      && slots[0] == NewSlot(0, MEDICS) && slots[1] == NewSlot(1, MEDICS)
      && slots[2] == NewSlot(2, SCOUTS) && slots[3] == NewSlot(3, SCOUTS)
  {
    assert MIXED.classes[..1] == [MEDICS];
    assert [MEDICS][..0] == [] && EmptySlots([]) == [];
    assert EmptySlots([MEDICS]) == [] + ClassSlots(0, MEDICS, 2);
    assert EmptySlots(MIXED.classes) == EmptySlots([MEDICS]) + ClassSlots(2, SCOUTS, 2);
  }

  function Queued(s: Step): LoungeStep {
    OnLedger(LedgerStep.QueueStep(s))
  }

  ghost predicate Reached(x: Lounge) {
    exists steps :: x == DoAll(FreshLounge(MIXED), steps)
  }

  lemma Then(x: Lounge, step: LoungeStep)
    requires Reached(x)
    ensures Reached(Do(x, step))
  {
    var steps :| x == DoAll(FreshLounge(MIXED), steps);
    assert (steps + [step])[..|steps|] == steps;
    assert Do(x, step) == DoAll(FreshLounge(MIXED), steps + [step]);
  }

  lemma SlotFacts(q: Queue)
    requires Inv(q) && q.cfg == MIXED
    ensures |q.slots| == 4
    ensures forall i :: 0 <= i < 4 ==>
              && q.slots[i].gameClass == (if i < 2 then Medic else Scout)
              && q.slots[i].canMakeFriendsWith == (if i < 2 then [Scout] else [])
  {
    MixedSlots();
    forall i | 0 <= i < 4 ensures Clear(q.slots[i]) == EmptySlots(MIXED.classes)[i] {
    }
    assert forall i :: 0 <= i < 4 ==> q.slots[i].gameClass == Clear(q.slots[i]).gameClass;
  }

  lemma ReachedFacts(x: Lounge)
    requires Reached(x)
    ensures Inv(x.ledger.q) && x.ledger.q.cfg == MIXED && LobbyReached(MIXED, AsLobby(x))
    ensures |x.picks| == |x.ledger.launches|
  {
    MixedSlots();
    var steps :| x == DoAll(FreshLounge(MIXED), steps);
    LoungeKeeps(MIXED, steps);
  }

  /** A lobby in this phase, with these players in the four slots and so many callbacks. */
  ghost predicate Holding(x: Lounge, players: seq<Option<PlayerId>>, phase: Phase, immediates: nat) {
    && Reached(x) && PlayersAre(x.ledger.q, players)
    && x.ledger.q.phase == phase && x.ledger.q.immediates == immediates && x.ledger.q.joining.None?
  }

  ghost predicate PlayersAre(q: Queue, players: seq<Option<PlayerId>>) {
    |q.slots| == |players| == 4 && forall i :: 0 <= i < 4 ==> q.slots[i].player == players[i]
  }

  // ----- the calls of the runs

  /** Nothing but the queue and the friendships changes. */
  ghost predicate SameLaunches(x: Lounge, r: Lounge) {
    r.picks == x.picks && r.ledger.launches == x.ledger.launches && r.ledger.replaced == x.ledger.replaced
  }

  lemma Joining(q: Queue, id: nat, player: PlayerId)
    requires Inv(q) && q.phase == Waiting && q.joining.None? && id < |q.slots| && q.slots[id].player.None?
    ensures
      var r := JoinFinish(JoinStart(q, id, player), true);
      && r.phase == Waiting && r.joining.None? && |r.slots| == |q.slots|
      && r.changes > q.changes && r.immediates == q.immediates + 1 && r.launches == q.launches
      && forall i :: 0 <= i < |q.slots| ==>
           r.slots[i].player ==
           if i == id then Some(player) else if q.slots[i].player == Some(player) then None else q.slots[i].player
  {
    var s := JoinStart(q, id, player);
    JoinEffect(s, true);
    SlotById(s, id);
  }

  lemma QueueMoves(x: Lounge, s: Step)
    requires !s.StepLaunchCompletes? && !s.StepLaunchFails? && Apply(x.ledger.q, s).launches == x.ledger.q.launches
    ensures
      var q := Apply(x.ledger.q, s);
      Do(x, Queued(s)) ==
      x.(ledger := x.ledger.(q := q),
         friendships := if q.changes > x.ledger.q.changes then Cleanup(q.slots, x.friendships) else x.friendships)
  {
  }

  lemma JoinDoes(x: Lounge, id: nat, player: PlayerId)
    requires Inv(x.ledger.q) && x.ledger.q.phase == Waiting && x.ledger.q.joining.None?
    requires id < |x.ledger.q.slots| && x.ledger.q.slots[id].player.None?
    ensures
      var q := JoinFinish(JoinStart(x.ledger.q, id, player), true);
      var r := Do(Do(x, Queued(StepJoinStart(id, player))), Queued(StepJoinFinish(true)));
      r == x.(ledger := x.ledger.(q := q), friendships := Cleanup(q.slots, x.friendships))
  {
    Joining(x.ledger.q, id, player);
    QueueMoves(x, StepJoinStart(id, player));
    QueueMoves(Do(x, Queued(StepJoinStart(id, player))), StepJoinFinish(true));
  }

  /** A player takes an empty slot, out of another one perhaps. */
  lemma Join(x: Lounge, players: seq<Option<PlayerId>>, immediates: nat, id: nat, player: PlayerId,
             after: seq<Option<PlayerId>>)
    returns (r: Lounge)
    requires Holding(x, players, Waiting, immediates) && id < 4 && players[id].None? && |after| == 4
    requires forall i :: 0 <= i < 4 ==>
               after[i] == if i == id then Some(player) else if players[i] == Some(player) then None else players[i]
    ensures Holding(r, after, Waiting, immediates + 1) && SameLaunches(x, r)
    ensures r.friendships == Cleanup(r.ledger.q.slots, x.friendships)
  {
    ReachedFacts(x);
    Joining(x.ledger.q, id, player);
    JoinDoes(x, id, player);
    r := Do(Do(x, Queued(StepJoinStart(id, player))), Queued(StepJoinFinish(true)));
    Then(x, Queued(StepJoinStart(id, player)));
    Then(Do(x, Queued(StepJoinStart(id, player))), Queued(StepJoinFinish(true)));
  }

  lemma MedicAt(x: Lounge, players: seq<Option<PlayerId>>, i: nat, player: PlayerId)
    requires Reached(x) && PlayersAre(x.ledger.q, players) && i < 2 && players[i] == Some(player)
    ensures HoldsMedicSlot(x.ledger.q.slots, player)
  {
    ReachedFacts(x);
    SlotFacts(x.ledger.q);
    SlotByPlayer(x.ledger.q, player, i);
  }

  const PAIR := Friendship(10, 11)

  /** The medic keeps the friend through every join of others. */
  lemma KeepsPair(x: Lounge, players: seq<Option<PlayerId>>)
    requires Reached(x) && PlayersAre(x.ledger.q, players) && players[0] == Some(10)
    ensures Cleanup(x.ledger.q.slots, [PAIR]) == [PAIR]
  {
    MedicAt(x, players, 0, 10);
    assert [PAIR][1..] == [] && Cleanup(x.ledger.q.slots, []) == [];
  }

  // ----- a friend becomes a medic

  lemma MedicAndScout() returns (x: Lounge)
    ensures Holding(x, [Some(10), None, Some(11), None], Waiting, 2) && x.friendships == []
    ensures SameLaunches(FreshLounge(MIXED), x)
  {
    assert FreshLounge(MIXED) == DoAll(FreshLounge(MIXED), []);
    MixedSlots();
    x := Join(FreshLounge(MIXED), [None, None, None, None], 0, 0, 10, [Some(10), None, None, None]);
    x := Join(x, [Some(10), None, None, None], 1, 2, 11, [Some(10), None, Some(11), None]);
  }

  /** A medic and a scout join, and the medic marks the scout as a friend. */
  lemma MarkedScout() returns (x: Lounge)
    ensures Holding(x, [Some(10), None, Some(11), None], Waiting, 2) && x.friendships == [PAIR]
    ensures SameLaunches(FreshLounge(MIXED), x)
  {
    var before := MedicAndScout();
    ReachedFacts(before);
    SlotFacts(before.ledger.q);
    SlotByPlayer(before.ledger.q, 10, 0);
    SlotByPlayer(before.ledger.q, 11, 2);
    assert MarkRefusal(Waiting, before.ledger.q.slots, [], 10, Some(11)).None?;
    Then(before, OnMark(10, Some(11)));
    x := Do(before, OnMark(10, Some(11)));
  }

  /** The scout moves to the other medic slot, and the queue fills. */
  lemma FriendBecomesMedic() returns (x: Lounge)
    ensures Holding(x, [Some(10), Some(11), Some(12), Some(13)], Waiting, 5) && x.friendships == [PAIR]
  {
    x := MarkedScout();
    x := Join(x, [Some(10), None, Some(11), None], 2, 1, 11, [Some(10), Some(11), None, None]);
    KeepsPair(x, [Some(10), Some(11), None, None]);
    x := Join(x, [Some(10), Some(11), None, None], 3, 2, 12, [Some(10), Some(11), Some(12), None]);
    KeepsPair(x, [Some(10), Some(11), Some(12), None]);
    x := Join(x, [Some(10), Some(11), Some(12), None], 4, 3, 13, [Some(10), Some(11), Some(12), Some(13)]);
    KeepsPair(x, [Some(10), Some(11), Some(12), Some(13)]);
  }

  /** With these slots and friendships, no skills and no shuffle give two teams. */
  ghost predicate NoTeams(slots: seq<Slot>, fs: seq<Friendship>) {
    Full(slots) && forall skill: Skill, shuffled ::
      multiset(shuffled) == multiset(PlayersOf(slots, skill)) ==>
      PT.Select(shuffled, Some(FT.FriendLists(fs))) == Err(PT.NoLineup)
  }

  lemma MedicPairThrows(run: seq<LobbyStep>, skill: Skill, shuffled: seq<PT.PlayerSlot>)
    requires
      var l := RunLobby(FreshLobby(MIXED), run);
      && Full(l.q.slots) && l.friendships == [PAIR] && HoldsMedicSlot(l.q.slots, 11)
      && multiset(shuffled) == multiset(PlayersOf(l.q.slots, skill))
    ensures PT.Select(shuffled, Some(FT.FriendLists([PAIR]))) == Err(PT.NoLineup)
  {
    MixedSlots();
    MedicSlotIsMedic(RunLobby(FreshLobby(MIXED), run).q, skill, shuffled, 11);
    assert [PAIR][0] == PAIR && MEDICS in MIXED.classes;
    LaunchFindsTeamsExactly(MIXED, run, skill, shuffled);
    QueueToTeams(MIXED, run, skill, shuffled, Some(FT.FriendLists([PAIR])));
  }

  /** Each call obeys the rules, and yet the launch of the full queue will throw. */
  lemma FriendCanBecomeMedic()
    ensures exists steps ::
              var l := RunLobby(FreshLobby(MIXED), steps);
              NoTeams(l.q.slots, l.friendships)
  {
    var x := FriendBecomesMedic();
    ReachedFacts(x);
    MedicAt(x, [Some(10), Some(11), Some(12), Some(13)], 1, 11);
    var run :| AsLobby(x) == RunLobby(FreshLobby(MIXED), run);
    forall skill: Skill, shuffled | multiset(shuffled) == multiset(PlayersOf(x.ledger.q.slots, skill))
      ensures PT.Select(shuffled, Some(FT.FriendLists([PAIR]))) == Err(PT.NoLineup)
    {
      MedicPairThrows(run, skill, shuffled);
    }
    assert NoTeams(RunLobby(FreshLobby(MIXED), run).q.slots, RunLobby(FreshLobby(MIXED), run).friendships);
  }

  // ----- a launch with friends of an earlier moment

  /** The queue fills with the medic's friend still a scout. */
  lemma FilledWithFriends() returns (x: Lounge)
    ensures Holding(x, [Some(10), Some(12), Some(11), Some(13)], Waiting, 4) && x.friendships == [PAIR]
    ensures SameLaunches(FreshLounge(MIXED), x)
  {
    x := MarkedScout();
    x := Join(x, [Some(10), None, Some(11), None], 2, 1, 12, [Some(10), Some(12), Some(11), None]);
    KeepsPair(x, [Some(10), Some(12), Some(11), None]);
    x := Join(x, [Some(10), Some(12), Some(11), None], 3, 3, 13, [Some(10), Some(12), Some(11), Some(13)]);
    KeepsPair(x, [Some(10), Some(12), Some(11), Some(13)]);
  }

  lemma Calling(q: Queue)
    requires Inv(q) && q.immediates > 0
    ensures
      var r := RunImmediate(q);
      && r.slots == q.slots && r.immediates == q.immediates - 1 && r.joining == q.joining && r.changes == q.changes
      && (q.phase == Waiting && Full(q.slots) ==> r.phase == Ready && r.launches == q.launches)
      && (q.phase == Ready && AllReady(q.slots) ==> r.phase == Launching && r.launches == q.launches + 1)
      && (q.phase == Launching ==> r.phase == Waiting && r.launches == q.launches)
  {
    Counts(q.slots);
    CallbackLaunches(q);
  }

  /** A callback runs; in the ready phase it launches. */
  lemma Callback(x: Lounge, players: seq<Option<PlayerId>>, phase: Phase, immediates: nat) returns (r: Lounge)
    requires Holding(x, players, phase, immediates) && immediates > 0 && Full(x.ledger.q.slots)
    requires phase == Ready ==> AllReady(x.ledger.q.slots)
    ensures Holding(r, players, match phase case Waiting => Ready case Ready => Launching case Launching => Waiting,
                    immediates - 1)
    ensures r.ledger.q.slots == x.ledger.q.slots && r.ledger.replaced == x.ledger.replaced
    ensures r.friendships == x.friendships
    ensures if phase == Ready
            then && r.ledger.launches == x.ledger.launches + [Launch(|x.ledger.replaced|, Begun)]
                 && r.picks == x.picks + [Pick(x.friendships, x.ledger.q.slots, x.ledger.q.changes)]
            else r.ledger.launches == x.ledger.launches && r.picks == x.picks
  {
    ReachedFacts(x);
    Calling(x.ledger.q);
    Then(x, Queued(StepImmediate));
    r := Do(x, Queued(StepImmediate));
  }

  lemma ReadyingUp(q: Queue, i: nat, player: PlayerId)
    requires Inv(q) && q.phase == Ready && i < |q.slots| && q.slots[i].player == Some(player)
    ensures Apply(q, StepReadyUp(player)) == q.(slots := q.slots[i := q.slots[i].(ready := true)],
                                                immediates := q.immediates + 1, changes := q.changes + 1)
  {
    SlotByPlayer(q, player, i);
  }

  lemma ReadyUpOf(x: Lounge, players: seq<Option<PlayerId>>, immediates: nat, i: nat) returns (r: Lounge)
    requires Holding(x, players, Ready, immediates) && i < 4 && players[i].Some? && players[0] == Some(10)
    requires x.friendships == [PAIR]
    ensures Holding(r, players, Ready, immediates + 1) && SameLaunches(x, r) && r.friendships == [PAIR]
    ensures r.ledger.q.slots == x.ledger.q.slots[i := x.ledger.q.slots[i].(ready := true)]
  {
    ReachedFacts(x);
    var p := players[i].value;
    ReadyingUp(x.ledger.q, i, p);
    Then(x, Queued(StepReadyUp(p)));
    r := Do(x, Queued(StepReadyUp(p)));
    assert PlayersAre(r.ledger.q, players);
    KeepsPair(r, players);
  }

  lemma EveryoneReady() returns (x: Lounge)
    ensures Holding(x, [Some(10), Some(12), Some(11), Some(13)], Ready, 7) && x.friendships == [PAIR]
    ensures SameLaunches(FreshLounge(MIXED), x) && AllReady(x.ledger.q.slots) && Full(x.ledger.q.slots)
  {
    var players := [Some(10), Some(12), Some(11), Some(13)];
    x := FilledWithFriends();
    x := Callback(x, players, Waiting, 4);
    x := ReadyUpOf(x, players, 3, 0);
    x := ReadyUpOf(x, players, 4, 1);
    x := ReadyUpOf(x, players, 5, 2);
    x := ReadyUpOf(x, players, 6, 3);
  }

  /** A leftover callback ends the launching phase while the launch is under way. */
  lemma LaunchedAndWaiting() returns (x: Lounge)
    ensures Holding(x, [Some(10), Some(12), Some(11), Some(13)], Waiting, 5) && x.friendships == [PAIR]
    ensures x.ledger.replaced == [] && x.ledger.launches == [Launch(0, Begun)]
    ensures |x.picks| == 1 && x.picks[0].friends == [PAIR]
  {
    var players := [Some(10), Some(12), Some(11), Some(13)];
    var ready := EveryoneReady();
    var launching := Callback(ready, players, Ready, 7);
    x := Callback(launching, players, Launching, 6);
  }

  lemma Leave(x: Lounge, players: seq<Option<PlayerId>>, immediates: nat, i: nat, after: seq<Option<PlayerId>>)
    returns (r: Lounge)
    requires Holding(x, players, Waiting, immediates) && i < 4 && players[i].Some? && after == players[i := None]
    ensures Holding(r, after, Waiting, immediates + 1) && SameLaunches(x, r)
  {
    ReachedFacts(x);
    var p := players[i].value;
    LeaveEffect(x.ledger.q, p, i);
    SlotByPlayer(x.ledger.q, p, i);
    Then(x, Queued(StepLeave(p)));
    r := Do(x, Queued(StepLeave(p)));
  }

  /** The medic comes back as a scout beside the friend, and another medic fills the queue. */
  lemma FriendsAreScouts() returns (x: Lounge)
    ensures Holding(x, [Some(14), Some(12), Some(11), Some(10)], Waiting, 9)
    ensures x.ledger.replaced == [] && x.ledger.launches == [Launch(0, Begun)]
    ensures |x.picks| == 1 && x.picks[0].friends == [PAIR]
  {
    x := LaunchedAndWaiting();
    x := Leave(x, [Some(10), Some(12), Some(11), Some(13)], 5, 0, [None, Some(12), Some(11), Some(13)]);
    x := Leave(x, [None, Some(12), Some(11), Some(13)], 6, 3, [None, Some(12), Some(11), None]);
    x := Join(x, [None, Some(12), Some(11), None], 7, 3, 10, [None, Some(12), Some(11), Some(10)]);
    x := Join(x, [None, Some(12), Some(11), Some(10)], 8, 0, 14, [Some(14), Some(12), Some(11), Some(10)]);
  }

  lemma TwoOfAClass(team: seq<PT.PlayerSlot>, a: PT.PlayerSlot, b: PT.PlayerSlot)
    requires a in team && b in team && a != b && a.gameClass == b.gameClass
    ensures |PT.OfClass(team, a.gameClass)| >= 2
  {
    L.OfClassMembers(team, a.gameClass);
    var s := PT.OfClass(team, a.gameClass);
    assert a in s && b in s;
  }

  /** Two friends who are the only scouts cannot be on one team. */
  lemma ScoutsApart(x: Lounge, skill: Skill, shuffled: seq<PT.PlayerSlot>)
    requires Reached(x) && PlayersAre(x.ledger.q, [Some(14), Some(12), Some(11), Some(10)])
    requires multiset(shuffled) == multiset(PlayersOf(x.ledger.q.slots, skill))
    ensures PT.Select(shuffled, Some(FT.FriendLists([PAIR]))) == Err(PT.NoLineup)
  {
    ReachedFacts(x);
    SlotFacts(x.ledger.q);
    MixedSlots();
    var run :| AsLobby(x) == RunLobby(FreshLobby(MIXED), run);
    var overrides := Some(FT.FriendLists([PAIR]));
    QueueToTeams(MIXED, run, skill, shuffled, overrides);
    var r := PT.Select(shuffled, overrides);
    if r.Ok? {
      var players := PlayersOf(x.ledger.q.slots, skill);
      var a, b := players[3], players[2];
      assert a in multiset(shuffled) && b in multiset(shuffled);
      assert SCOUTS in MIXED.classes;
      FullQueuePool(x.ledger.q, skill, shuffled);
      TT.SelectedIsAcceptable(shuffled, overrides);
      SplitUp(shuffled, r.value, a, b);
    }
  }

  lemma SplitUp(players: seq<PT.PlayerSlot>, l: PT.Lineup, a: PT.PlayerSlot, b: PT.PlayerSlot)
    requires L.DistinctIds(players) && L.IsSplit(players, l)
    requires a.playerId == 10 && b.playerId == 11 && a.gameClass == b.gameClass
    requires |PT.OfClass(l.blu, a.gameClass)| == 1 && |PT.OfClass(l.red, a.gameClass)| == 1
    requires a in multiset(l.blu) + multiset(l.red) && b in multiset(l.blu) + multiset(l.red)
    ensures !PT.RespectsOverrides(l, Some(FT.FriendLists([PAIR])))
  {
    var pair := FT.FriendLists([PAIR])[0];
    assert pair == [10, 11];
    TT.RespectsMeans(l, pair);
    TT.OnOneTeam(players, l, 10);
    TT.OnOneTeam(players, l, 11);
    assert a in l.blu || a in l.red;
    assert b in l.blu || b in l.red;
    if a in l.blu && b in l.blu {
      TwoOfAClass(l.blu, a, b);
    } else if a in l.red && b in l.red {
      TwoOfAClass(l.red, a, b);
    } else if a in l.blu {
      assert PT.TeamOf(l, 10) == Some(PT.Blu) && PT.TeamOf(l, 11) == Some(PT.Red);
      assert !TT.KeepsTogether(l, pair);
    } else {
      assert PT.TeamOf(l, 11) == Some(PT.Blu) && PT.TeamOf(l, 10) == Some(PT.Red);
      assert !TT.KeepsTogether(l, pair);
    }
  }

  lemma NoTeamsOfScouts(x: Lounge)
    requires Reached(x) && PlayersAre(x.ledger.q, [Some(14), Some(12), Some(11), Some(10)])
    ensures NoTeams(x.ledger.q.slots, [PAIR])
  {
    forall skill: Skill, shuffled | multiset(shuffled) == multiset(PlayersOf(x.ledger.q.slots, skill))
      ensures PT.Select(shuffled, Some(FT.FriendLists([PAIR]))) == Err(PT.NoLineup)
    {
      ScoutsApart(x, skill, shuffled);
    }
  }

  /**
    A launch can throw for friends of an earlier moment: the friendship is gone from the lobby, the
    launch still has it, and by the time it reads the slots no teams can respect it.
   */
  lemma LaunchCanKeepOldFriends()
    ensures exists x ::
              && Reached(x) && |x.ledger.launches| == |x.picks| == 1
              && x.ledger.launches[0].stage == Checked(x.ledger.q.slots)
              && PAIR !in x.friendships && x.picks[0].friends == [PAIR] && NoTeams(x.ledger.q.slots, [PAIR])
  {
    var x := FriendsAreScouts();
    NoTeamsOfScouts(x);
    Counts(x.ledger.q.slots);
    Then(x, OnLedger(Check(0)));
    var r := Do(x, OnLedger(Check(0)));
    assert r.ledger.q == x.ledger.q && r.ledger.launches[0].stage == Checked(x.ledger.q.slots);
    NoLongerFriends(r, [Some(14), Some(12), Some(11), Some(10)]);
  }

  /** Only medics have friends, and the old medic is none. */
  lemma NoLongerFriends(x: Lounge, players: seq<Option<PlayerId>>)
    requires Reached(x) && PlayersAre(x.ledger.q, players) && players[3] == Some(10)
    ensures PAIR !in x.friendships
  {
    ReachedFacts(x);
    SlotFacts(x.ledger.q);
    MixedSlots();
    var run :| AsLobby(x) == RunLobby(FreshLobby(MIXED), run);
    FriendsOfQueuedMedics(MIXED, run);
    SlotByPlayer(x.ledger.q, 10, 3);
    forall i | 0 <= i < |x.friendships| ensures x.friendships[i] != PAIR {
      assert HoldsMedicSlot(x.ledger.q.slots, x.friendships[i].source);
    }
  }
}
