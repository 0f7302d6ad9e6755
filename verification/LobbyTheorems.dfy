/** Friendships over whole runs, and the way from a full queue to two teams. */
module LobbyTheorems {
  import opened Common
  import opened QueueModel
  import opened QueueSafety
  import opened QueueTheorems
  import opened Friends
  import PT = PickTeams
  import L = Lineups
  import TT = TeamTheorems
  import FT = FriendTeams

  // ----- nobody is the source of two friendships, nor the target of two

  ghost predicate OneFriendEach(fs: seq<Friendship>) {
    forall i, j :: 0 <= i < j < |fs| ==> fs[i].source != fs[j].source && fs[i].target != fs[j].target
  }

  lemma WithoutKeeps(fs: seq<Friendship>, source: PlayerId)
    requires OneFriendEach(fs)
    ensures OneFriendEach(Without(fs, source))
    ensures forall f :: f in Without(fs, source) <==> f in fs && f.source != source
  {
    if fs != [] {
      WithoutKeeps(fs[1..], source);
      assert forall f :: f in fs <==> f == fs[0] || f in fs[1..];
      Prepend(fs[0], Without(fs[1..], source), fs);
    }
  }

  lemma Prepend(f: Friendship, fs: seq<Friendship>, all: seq<Friendship>)
    requires all != [] && all[0] == f && OneFriendEach(all) && OneFriendEach(fs)
    requires forall g :: g in fs ==> g in all[1..]
    ensures OneFriendEach([f] + fs)
  {
    forall i | 0 <= i < |fs| ensures fs[i].source != f.source && fs[i].target != f.target {
      assert fs[i] in all[1..];
      var k :| 1 <= k < |all| && all[k] == fs[i];
    }
  }

  lemma CleanupKeeps(slots: seq<Slot>, fs: seq<Friendship>)
    requires OneFriendEach(fs)
    ensures OneFriendEach(Cleanup(slots, fs))
    ensures forall f :: f in Cleanup(slots, fs) <==> f in fs && HoldsMedicSlot(slots, f.source)
  {
    if fs != [] {
      CleanupKeeps(slots, fs[1..]);
      assert forall f :: f in fs <==> f == fs[0] || f in fs[1..];
      Prepend(fs[0], Cleanup(slots, fs[1..]), fs);
    }
  }

  lemma MarkKeeps(phase: Phase, slots: seq<Slot>, fs: seq<Friendship>, source: PlayerId, target: Option<PlayerId>)
    requires OneFriendEach(fs)
    ensures OneFriendEach(Mark(phase, slots, fs, source, target))
  {
    if MarkRefusal(phase, slots, fs, source, target).None? {
      WithoutKeeps(fs, source);
      var rest := Without(fs, source);
      forall i | 0 <= i < |rest|
        ensures rest[i].source != source
        ensures target.Some? ==> rest[i].target != target.value
      {
        assert rest[i] in rest;
      }
    }
  }

  /** An accepted mark replaces the friend the source had, and leaves the others alone. */
  lemma MarkEffect(phase: Phase, slots: seq<Slot>, fs: seq<Friendship>, source: PlayerId, target: Option<PlayerId>)
    requires OneFriendEach(fs) && MarkRefusal(phase, slots, fs, source, target).None?
    ensures forall f :: f in Mark(phase, slots, fs, source, target) <==>
              (f in fs && f.source != source) || (target.Some? && f == Friendship(source, target.value))
  {
    WithoutKeeps(fs, source);
  }

  lemma {:induction false} FriendsAreUnique(cfg: Config, steps: seq<LobbyStep>)
    ensures OneFriendEach(RunLobby(FreshLobby(cfg), steps).friendships)
  {
    if steps != [] {
      var init, last := steps[..|steps|-1], steps[|steps|-1];
      FriendsAreUnique(cfg, init);
      var l := RunLobby(FreshLobby(cfg), init);
      match last
      case QueueStep(s) => CleanupKeeps(Apply(l.q, s).slots, l.friendships);
      case MarkStep(source, target) => MarkKeeps(l.q.phase, l.q.slots, l.friendships, source, target);
    }
  }

  // ----- only queued medics have friends

  /** As in the default configuration: only medics may pick friends. */
  ghost predicate OnlyMedicsPick(cfg: Config) {
    forall c :: c in cfg.classes && c.canMakeFriendsWith != [] ==> c.name == Medic
  }

  ghost predicate FromClass(s: Slot, classes: seq<GameClass>) {
    exists c :: c in classes && s.gameClass == c.name && s.canMakeFriendsWith == c.canMakeFriendsWith
  }

  lemma AddedSlots(firstId: nat, c: GameClass, n: nat)
    ensures forall i :: 0 <= i < |ClassSlots(firstId, c, n)| ==> ClassSlots(firstId, c, n)[i] == NewSlot(firstId + i, c)
  {
  }

  lemma SlotClasses(classes: seq<GameClass>)
    ensures forall s :: s in EmptySlots(classes) ==> FromClass(s, classes)
  {
    if classes != [] {
      var init, c := classes[..|classes|-1], classes[|classes|-1];
      var added := ClassSlots(|EmptySlots(init)|, c, c.count * TEAM_COUNT);
      SlotClasses(init);
      AddedSlots(|EmptySlots(init)|, c, c.count * TEAM_COUNT);
      forall s | s in EmptySlots(classes) ensures FromClass(s, classes) {
        if s in EmptySlots(init) {
          var d :| d in init && s.gameClass == d.name && s.canMakeFriendsWith == d.canMakeFriendsWith;
          assert d in classes;
        } else {
          assert s in added && c in classes;
        }
      }
    }
  }

  lemma PickerIsMedic(q: Queue, i: nat)
    requires Layout(q.cfg, q.slots) && OnlyMedicsPick(q.cfg) && i < |q.slots| && q.slots[i].canMakeFriendsWith != []
    ensures q.slots[i].gameClass == Medic
  {
    SlotClasses(q.cfg.classes);
    assert Clear(q.slots[i]) == EmptySlots(q.cfg.classes)[i];
    assert FromClass(EmptySlots(q.cfg.classes)[i], q.cfg.classes);
  }

  ghost predicate MedicsOnly(l: Lobby) {
    forall i :: 0 <= i < |l.friendships| ==> HoldsMedicSlot(l.q.slots, l.friendships[i].source)
  }

  lemma {:induction false} LobbyQueue(cfg: Config, steps: seq<LobbyStep>)
    requires |EmptySlots(cfg.classes)| > 0
    ensures
      var l := RunLobby(FreshLobby(cfg), steps);
      Inv(l.q) && l.q.cfg == cfg
  {
    if steps == [] {
      Reachable(cfg, []);
    } else {
      var init, last := steps[..|steps|-1], steps[|steps|-1];
      LobbyQueue(cfg, init);
      if last.QueueStep? {
        StepKeeps(RunLobby(FreshLobby(cfg), init).q, last.step);
        StepKeepsConfig(RunLobby(FreshLobby(cfg), init).q, last.step);
      }
    }
  }

  lemma {:induction false} FriendsOfQueuedMedics(cfg: Config, steps: seq<LobbyStep>)
    requires |EmptySlots(cfg.classes)| > 0 && OnlyMedicsPick(cfg)
    ensures MedicsOnly(RunLobby(FreshLobby(cfg), steps))
  {
    if steps != [] {
      var init, last := steps[..|steps|-1], steps[|steps|-1];
      FriendsOfQueuedMedics(cfg, init);
      FriendsAreUnique(cfg, init);
      LobbyQueue(cfg, init);
      var l := RunLobby(FreshLobby(cfg), init);
      var r := ApplyLobby(l, last);
      match last
      case QueueStep(s) =>
        StepPublishes(l.q, s);
        CleanupKeeps(r.q.slots, l.friendships);
        forall i | 0 <= i < |r.friendships| ensures HoldsMedicSlot(r.q.slots, r.friendships[i].source) {
          assert r.friendships[i] in r.friendships;
        }
      case MarkStep(source, target) =>
        WithoutKeeps(l.friendships, source);
        forall i | 0 <= i < |r.friendships| ensures HoldsMedicSlot(r.q.slots, r.friendships[i].source) {
          if r.friendships[i] in l.friendships {
          } else {
            PickerIsMedic(l.q, FindPlayer(l.q.slots, Some(source)));
          }
        }
    }
  }

  // ----- from the queue to the game

  ghost predicate DistinctClasses(cfg: Config) {
    forall i, j :: 0 <= i < j < |cfg.classes| ==> cfg.classes[i].name != cfg.classes[j].name
  }

  ghost predicate OneOrTwoEach(cfg: Config) {
    forall c :: c in cfg.classes ==> c.count == 1 || c.count == 2
  }

  type Skill = (PlayerId, ClassName) -> real

  /** The players of a full queue, with the skill each has for the class of the slot. */
  ghost function PlayersOf(slots: seq<Slot>, skill: Skill): seq<PT.PlayerSlot>
    requires Full(slots)
  {
    seq(|slots|, i requires 0 <= i < |slots| =>
      PT.PlayerSlot(slots[i].player.value, slots[i].gameClass, skill(slots[i].player.value, slots[i].gameClass)))
  }

  ghost function ClassCount(slots: seq<Slot>, c: ClassName): nat {
    if slots == [] then 0 else (if slots[0].gameClass == c then 1 else 0) + ClassCount(slots[1..], c)
  }

  lemma ClassCountConcat(a: seq<Slot>, b: seq<Slot>, c: ClassName)
    ensures ClassCount(a + b, c) == ClassCount(a, c) + ClassCount(b, c)
  {
    if a == [] {
      assert a + b == b;
    } else {
      assert (a + b)[1..] == a[1..] + b;
      ClassCountConcat(a[1..], b, c);
    }
  }

  lemma ClassCountOfOne(slots: seq<Slot>, name: ClassName, c: ClassName)
    requires forall i :: 0 <= i < |slots| ==> slots[i].gameClass == name
    ensures ClassCount(slots, c) == if c == name then |slots| else 0
  {
  }

  /** One class more: its slots come after those of the classes before it. */
  lemma LayoutCountLast(classes: seq<GameClass>, name: ClassName)
    requires classes != []
    ensures
      var last := classes[|classes|-1];
      ClassCount(EmptySlots(classes), name) ==
      ClassCount(EmptySlots(classes[..|classes|-1]), name) + if name == last.name then TEAM_COUNT * last.count else 0
  {
    var last := classes[|classes|-1];
    var before := EmptySlots(classes[..|classes|-1]);
    var added := ClassSlots(|before|, last, last.count * TEAM_COUNT);
    assert EmptySlots(classes) == before + added;
    ClassCountConcat(before, added, name);
    AddedSlots(|before|, last, last.count * TEAM_COUNT);
    ClassCountOfOne(added, last.name, name);
  }

  lemma {:induction false} NoCount(classes: seq<GameClass>, name: ClassName)
    requires forall c :: c in classes ==> c.name != name
    ensures ClassCount(EmptySlots(classes), name) == 0
  {
    if classes != [] {
      LayoutCountLast(classes, name);
      NoCount(classes[..|classes|-1], name);
    }
  }

  lemma {:induction false} LayoutCount(classes: seq<GameClass>, k: nat)
    requires k < |classes|
    requires forall i, j :: 0 <= i < j < |classes| ==> classes[i].name != classes[j].name
    ensures ClassCount(EmptySlots(classes), classes[k].name) == TEAM_COUNT * classes[k].count
  {
    var init := classes[..|classes|-1];
    LayoutCountLast(classes, classes[k].name);
    if k < |init| {
      LayoutCount(init, k);
    } else {
      NoCount(init, classes[k].name);
    }
  }

  lemma SameClassCount(a: seq<Slot>, b: seq<Slot>, c: ClassName)
    requires |a| == |b| && forall i :: 0 <= i < |a| ==> a[i].gameClass == b[i].gameClass
    ensures ClassCount(a, c) == ClassCount(b, c)
  {
    if a != [] {
      SameClassCount(a[1..], b[1..], c);
    }
  }

  lemma PlayersCount(slots: seq<Slot>, skill: Skill, c: ClassName)
    requires Full(slots)
    ensures |PT.OfClass(PlayersOf(slots, skill), c)| == ClassCount(slots, c)
  {
    if slots != [] {
      PlayersCount(slots[1..], skill, c);
      assert PlayersOf(slots, skill)[1..] == PlayersOf(slots[1..], skill);
    }
  }

  lemma FullQueuePlayers(q: Queue, skill: Skill)
    requires Inv(q) && Full(q.slots) && DistinctClasses(q.cfg)
    ensures L.DistinctIds(PlayersOf(q.slots, skill))
    ensures forall c :: c in q.cfg.classes ==>
              |PT.OfClass(PlayersOf(q.slots, skill), c.name)| == TEAM_COUNT * c.count
    ensures forall x :: x in PlayersOf(q.slots, skill) ==> exists c :: c in q.cfg.classes && c.name == x.gameClass
  {
    var players := PlayersOf(q.slots, skill);
    assert forall i :: 0 <= i < |q.slots| ==> q.slots[i].gameClass == Clear(q.slots[i]).gameClass;
    forall c | c in q.cfg.classes
      ensures |PT.OfClass(players, c.name)| == TEAM_COUNT * c.count
    {
      var k :| 0 <= k < |q.cfg.classes| && q.cfg.classes[k] == c;
      LayoutCount(q.cfg.classes, k);
      SameClassCount(q.slots, EmptySlots(q.cfg.classes), c.name);
      PlayersCount(q.slots, skill, c.name);
    }
    SlotClasses(q.cfg.classes);
    forall x | x in players ensures exists c :: c in q.cfg.classes && c.name == x.gameClass {
      var i :| 0 <= i < |players| && players[i] == x;
      assert Clear(q.slots[i]) == EmptySlots(q.cfg.classes)[i];
      assert FromClass(EmptySlots(q.cfg.classes)[i], q.cfg.classes);
    }
  }

  lemma ShuffledIds(players: seq<PT.PlayerSlot>, shuffled: seq<PT.PlayerSlot>)
    requires L.DistinctIds(players) && multiset(players) == multiset(shuffled)
    ensures L.DistinctIds(shuffled)
  {
    forall i, j | 0 <= i < j < |shuffled| ensures shuffled[i].playerId != shuffled[j].playerId {
      if shuffled[i].playerId == shuffled[j].playerId {
        var x, y := shuffled[i], shuffled[j];
        assert x in multiset(players) && y in multiset(players);
        assert x in players && y in players;
        assert x == y;
        assert shuffled == shuffled[..i] + [x] + shuffled[i+1..j] + [x] + shuffled[j+1..];
        assert multiset(shuffled)[x] >= 2;
        TT.CountOnce(players, x);
      }
    }
  }

  /** What the team picker is given. */
  ghost predicate Pool(cfg: Config, players: seq<PT.PlayerSlot>) {
    && L.DistinctIds(players)
    && PT.Playable(players, PT.Classes(players))
    && forall c :: c in cfg.classes ==> |PT.OfClass(players, c.name)| == TEAM_COUNT * c.count
  }

  lemma FullQueuePool(q: Queue, skill: Skill, shuffled: seq<PT.PlayerSlot>)
    requires Inv(q) && Full(q.slots) && DistinctClasses(q.cfg) && OneOrTwoEach(q.cfg)
    requires multiset(shuffled) == multiset(PlayersOf(q.slots, skill))
    ensures Pool(q.cfg, shuffled)
  {
    var players := PlayersOf(q.slots, skill);
    FullQueuePlayers(q, skill);
    ShuffledIds(players, shuffled);
    forall c: ClassName ensures |PT.OfClass(players, c)| == |PT.OfClass(shuffled, c)| {
      TT.PermutedPlayers(players, shuffled, c);
    }
    L.ClassesFacts(shuffled);
    forall c | c in PT.Classes(shuffled)
      ensures |PT.OfClass(shuffled, c)| == 2 || |PT.OfClass(shuffled, c)| == 4
    {
      var x :| x in shuffled && x.gameClass == c;
      assert x in multiset(players);
      assert x in players;
    }
  }

  lemma TeamCounts(players: seq<PT.PlayerSlot>, l: PT.Lineup, c: ClassName)
    requires L.IsSplit(players, l)
    ensures 2 * |PT.OfClass(l.blu, c)| == |PT.OfClass(players, c)| == 2 * |PT.OfClass(l.red, c)|
  {
    TT.RestrictHalves(players, l, c);
    TT.HalfOf(PT.OfClass(players, c), L.Restrict(l, c));
  }

  /**
    For every run, every full queue and every shuffle: the picker raises neither the parity
    assertion nor `not implemented`, and the teams it finds are the queued players, `count` of
    each class a side, with every list of friends on one side.
   */
  lemma QueueToTeams(cfg: Config, steps: seq<LobbyStep>, skill: Skill, shuffled: seq<PT.PlayerSlot>,
                     overrides: PT.Overrides)
    requires |EmptySlots(cfg.classes)| > 0 && DistinctClasses(cfg) && OneOrTwoEach(cfg)
    requires Full(RunLobby(FreshLobby(cfg), steps).q.slots)
    requires multiset(shuffled) == multiset(PlayersOf(RunLobby(FreshLobby(cfg), steps).q.slots, skill))
    ensures
      var r := PT.Select(shuffled, overrides);
      && (r.Err? ==> r.error == PT.NoLineup)
      && (r.Ok? ==>
            && multiset(r.value.blu) + multiset(r.value.red) == multiset(shuffled)
            && PT.RespectsOverrides(r.value, overrides)
            && forall c :: c in cfg.classes ==>
                 |PT.OfClass(r.value.blu, c.name)| == c.count && |PT.OfClass(r.value.red, c.name)| == c.count)
  {
    LobbyQueue(cfg, steps);
    FullQueuePool(RunLobby(FreshLobby(cfg), steps).q, skill, shuffled);
    TT.SelectFacts(shuffled, overrides);
    var r := PT.Select(shuffled, overrides);
    if r.Ok? {
      TT.SelectedIsAcceptable(shuffled, overrides);
      forall c | c in cfg.classes
        ensures |PT.OfClass(r.value.blu, c.name)| == c.count && |PT.OfClass(r.value.red, c.name)| == c.count
      {
        TeamCounts(shuffled, r.value, c.name);
      }
    }
  }

  // ----- when the launch finds teams at all

  lemma MedicSlotIsMedic(q: Queue, skill: Skill, shuffled: seq<PT.PlayerSlot>, player: PlayerId)
    requires Full(q.slots) && HoldsMedicSlot(q.slots, player)
    requires multiset(shuffled) == multiset(PlayersOf(q.slots, skill))
    ensures FT.IsMedic(shuffled, player)
  {
    var i := FindPlayer(q.slots, Some(player));
    var x := PlayersOf(q.slots, skill)[i];
    assert x in PlayersOf(q.slots, skill);
    assert x in multiset(shuffled);
    assert x in shuffled;
    L.OfClassMembers(shuffled, Medic);
    FT.MemberPlays(PT.OfClass(shuffled, Medic), x);
  }

  /**
    With one medic a team, and only medics picking friends, a full queue splits into teams
    exactly if no medic's friend is the other medic.
   */
  lemma LaunchFindsTeamsExactly(cfg: Config, steps: seq<LobbyStep>, skill: Skill, shuffled: seq<PT.PlayerSlot>)
    requires |EmptySlots(cfg.classes)| > 0 && DistinctClasses(cfg) && OneOrTwoEach(cfg) && OnlyMedicsPick(cfg)
    requires exists c :: c in cfg.classes && c.name == Medic && c.count == 1
    requires Full(RunLobby(FreshLobby(cfg), steps).q.slots)
    requires multiset(shuffled) == multiset(PlayersOf(RunLobby(FreshLobby(cfg), steps).q.slots, skill))
    ensures
      var fs := RunLobby(FreshLobby(cfg), steps).friendships;
      PT.Select(shuffled, Some(FT.FriendLists(fs))).Ok? <==> FT.NoMedicPair(shuffled, fs)
  {
    var l := RunLobby(FreshLobby(cfg), steps);
    LobbyQueue(cfg, steps);
    FullQueuePool(l.q, skill, shuffled);
    FriendsAreUnique(cfg, steps);
    FriendsOfQueuedMedics(cfg, steps);
    forall i | 0 <= i < |l.friendships| ensures FT.IsMedic(shuffled, l.friendships[i].source) {
      MedicSlotIsMedic(l.q, skill, shuffled, l.friendships[i].source);
    }
    FT.TeamsExistExactly(shuffled, l.friendships);
  }
}
