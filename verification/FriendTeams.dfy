/** When the friends picked by the medics leave a lineup to choose from. */
module FriendTeams {
  import opened Common
  import opened PickTeams
  import opened Lineups
  import opened TeamTheorems

  /** Friendships as the game launcher passes them on. */
  function FriendLists(fs: seq<Friendship>): seq<seq<PlayerId>> {
    seq(|fs|, i requires 0 <= i < |fs| => [fs[i].source, fs[i].target])
  }

  ghost predicate IsMedic(players: seq<PlayerSlot>, id: PlayerId) {
    Plays(OfClass(players, Medic), id)
  }

  /** Two medics; friendships run from different medics to different players. */
  ghost predicate MedicFriends(players: seq<PlayerSlot>, fs: seq<Friendship>) {
    && |OfClass(players, Medic)| == 2
    && (forall i :: 0 <= i < |fs| ==> IsMedic(players, fs[i].source))
    && (forall i, j :: 0 <= i < j < |fs| ==> fs[i].source != fs[j].source && fs[i].target != fs[j].target)
  }

  /** Nobody picked the other medic. */
  ghost predicate NoMedicPair(players: seq<PlayerSlot>, fs: seq<Friendship>) {
    forall i :: 0 <= i < |fs| && IsMedic(players, fs[i].target) ==> fs[i].target == fs[i].source
  }

  // ----- a fitting option in every class

  /** Wants `a` on the first team, or absent, and `b` on the second, or absent. */
  ghost predicate Suits(o: Lineup, a: PlayerId, b: PlayerId) {
    !Plays(o.red, a) && !Plays(o.blu, b)
  }

  ghost predicate HasSuiting(ps: seq<PlayerSlot>, a: PlayerId, b: PlayerId)
    requires |ps| == 2 || |ps| == 4
  {
    exists k :: 0 <= k < |ClassOptions(ps)| && Suits(ClassOptions(ps)[k], a, b)
  }

  lemma TwoPlay(x: PlayerSlot, y: PlayerSlot, a: PlayerId)
    ensures Plays([x, y], a) <==> x.playerId == a || y.playerId == a
    ensures Plays([x], a) <==> x.playerId == a
  {
    if x.playerId == a {
      assert [x, y][0].playerId == a && [x][0].playerId == a;
    }
    if y.playerId == a {
      assert [x, y][1].playerId == a;
    }
  }

  lemma OptionPlays(ps: seq<PlayerSlot>, a: PlayerId)
    requires |ps| == 4
    ensures
      var o := ClassOptions(ps);
      && (Plays(o[0].blu, a) <==> ps[0].playerId == a || ps[1].playerId == a)
      && (Plays(o[0].red, a) <==> ps[2].playerId == a || ps[3].playerId == a)
      && (Plays(o[1].blu, a) <==> ps[0].playerId == a || ps[2].playerId == a)
      && (Plays(o[1].red, a) <==> ps[1].playerId == a || ps[3].playerId == a)
      && (Plays(o[2].blu, a) <==> ps[0].playerId == a || ps[3].playerId == a)
      && (Plays(o[2].red, a) <==> ps[1].playerId == a || ps[2].playerId == a)
      && (Plays(o[3].blu, a) <==> ps[2].playerId == a || ps[3].playerId == a)
      && (Plays(o[3].red, a) <==> ps[0].playerId == a || ps[1].playerId == a)
  {
    TwoPlay(ps[0], ps[1], a);
    TwoPlay(ps[2], ps[3], a);
    TwoPlay(ps[0], ps[2], a);
    TwoPlay(ps[1], ps[3], a);
    TwoPlay(ps[0], ps[3], a);
    TwoPlay(ps[1], ps[2], a);
  }

  lemma FourSuits(ps: seq<PlayerSlot>, a: PlayerId, b: PlayerId)
    requires |ps| == 4 && DistinctIds(ps) && a != b
    ensures exists k :: 0 <= k < 4 && (Suits(ClassOptions(ps)[k], a, b) || Suits(ClassOptions(ps)[k], b, a))
    ensures !Plays(ps, a) || !Plays(ps, b) ==>
              && (exists k :: 0 <= k < 4 && Suits(ClassOptions(ps)[k], a, b))
              && (exists k :: 0 <= k < 4 && Suits(ClassOptions(ps)[k], b, a))
  {
    OptionPlays(ps, a);
    OptionPlays(ps, b);
    var o := ClassOptions(ps);
    assert Suits(o[0], a, b) || Suits(o[1], a, b) || Suits(o[2], a, b) || Suits(o[3], a, b) ||
           Suits(o[1], b, a);
    if !Plays(ps, a) || !Plays(ps, b) {
      assert Suits(o[0], a, b) || Suits(o[1], a, b) || Suits(o[2], a, b) || Suits(o[3], a, b);
      assert Suits(o[0], b, a) || Suits(o[1], b, a) || Suits(o[2], b, a) || Suits(o[3], b, a);
    }
  }

  lemma TwoSuit(ps: seq<PlayerSlot>, a: PlayerId, b: PlayerId)
    requires |ps| == 2 && DistinctIds(ps) && a != b
    ensures HasSuiting(ps, a, b)
  {
    TwoPlay(ps[0], ps[1], a);
    TwoPlay(ps[0], ps[1], b);
    TwoPlay(ps[1], ps[0], a);
    TwoPlay(ps[1], ps[0], b);
    var o := ClassOptions(ps);
    assert Suits(o[0], a, b) || Suits(o[1], a, b);
  }

  lemma ClassSuits(ps: seq<PlayerSlot>, a: PlayerId, b: PlayerId)
    requires (|ps| == 2 || |ps| == 4) && DistinctIds(ps) && a != b
    ensures HasSuiting(ps, a, b) || HasSuiting(ps, b, a)
    ensures !Plays(ps, a) || !Plays(ps, b) ==> HasSuiting(ps, a, b) && HasSuiting(ps, b, a)
  {
    if |ps| == 2 {
      TwoSuit(ps, a, b);
      TwoSuit(ps, b, a);
    } else {
      FourSuits(ps, a, b);
      var k :| 0 <= k < 4 && (Suits(ClassOptions(ps)[k], a, b) || Suits(ClassOptions(ps)[k], b, a));
    }
  }

  lemma OneClassEach(players: seq<PlayerSlot>, c: ClassName, d: ClassName, id: PlayerId)
    requires DistinctIds(players) && Plays(OfClass(players, c), id) && Plays(OfClass(players, d), id)
    ensures c == d
  {
    OfClassMembers(players, c);
    OfClassMembers(players, d);
    var i :| 0 <= i < |OfClass(players, c)| && OfClass(players, c)[i].playerId == id;
    var j :| 0 <= j < |OfClass(players, d)| && OfClass(players, d)[j].playerId == id;
    assert OfClass(players, c)[i] in players && OfClass(players, d)[j] in players;
  }

  /** One orientation of the two medics suits every class at once. */
  lemma Orient(players: seq<PlayerSlot>, classes: seq<ClassName>, a: PlayerId, b: PlayerId)
    requires Playable(players, classes) && DistinctIds(players) && a != b
    ensures (forall c :: c in classes ==> HasSuiting(OfClass(players, c), a, b)) ||
            (forall c :: c in classes ==> HasSuiting(OfClass(players, c), b, a))
  {
    forall c | c in classes
      ensures
        var ps := OfClass(players, c);
        && (HasSuiting(ps, a, b) || HasSuiting(ps, b, a))
        && (!Plays(ps, a) || !Plays(ps, b) ==> HasSuiting(ps, a, b) && HasSuiting(ps, b, a))
    {
      DistinctOfClass(players, c);
      ClassSuits(OfClass(players, c), a, b);
    }
    if d :| d in classes && Plays(OfClass(players, d), a) && Plays(OfClass(players, d), b) {
      forall c | c in classes && Plays(OfClass(players, c), a) && Plays(OfClass(players, c), b) ensures c == d {
        OneClassEach(players, c, d, a);
      }
    }
  }

  // ----- putting the options together

  lemma MemberPlays(team: seq<PlayerSlot>, x: PlayerSlot)
    requires x in team
    ensures Plays(team, x.playerId)
  {
  }

  lemma AssembledFrom(players: seq<PlayerSlot>, choice: Choice, x: PlayerSlot)
    requires Halving(players, Classes(players), choice)
    ensures
      var a := Assemble(NOBODY, Classes(players), choice);
      && (x in a.blu <==> x.gameClass in Classes(players) && x in choice[x.gameClass].blu)
      && (x in a.red <==> x.gameClass in Classes(players) && x in choice[x.gameClass].red)
  {
    ClassesFacts(players);
    AssembleCount(players, NOBODY, Classes(players), choice, x);
    var a := Assemble(NOBODY, Classes(players), choice);
    assert x in a.blu <==> multiset(a.blu)[x] > 0;
    assert x in a.red <==> multiset(a.red)[x] > 0;
    if x.gameClass in Classes(players) {
      assert x in choice[x.gameClass].blu <==> multiset(choice[x.gameClass].blu)[x] > 0;
      assert x in choice[x.gameClass].red <==> multiset(choice[x.gameClass].red)[x] > 0;
    }
  }

  lemma PlaysMember(team: seq<PlayerSlot>, id: PlayerId) returns (x: PlayerSlot)
    requires Plays(team, id)
    ensures x in team && x.playerId == id
  {
    var i :| 0 <= i < |team| && team[i].playerId == id;
    x := team[i];
  }

  lemma AssembledSuits(players: seq<PlayerSlot>, choice: Choice, a: PlayerId, b: PlayerId)
    requires Halving(players, Classes(players), choice)
    requires forall c :: c in Classes(players) ==> Suits(choice[c], a, b)
    ensures Suits(Assemble(NOBODY, Classes(players), choice), a, b)
  {
    var l := Assemble(NOBODY, Classes(players), choice);
    if Plays(l.red, a) {
      var x := PlaysMember(l.red, a);
      AssembledFrom(players, choice, x);
      MemberPlays(choice[x.gameClass].red, x);
    }
    if Plays(l.blu, b) {
      var x := PlaysMember(l.blu, b);
      AssembledFrom(players, choice, x);
      MemberPlays(choice[x.gameClass].blu, x);
    }
  }

  lemma MedicsFaceOff(players: seq<PlayerSlot>, choice: Choice, m: PlayerSlot, n: PlayerSlot)
    requires Halving(players, Classes(players), choice) && DistinctIds(players) && |OfClass(players, Medic)| == 2
    requires Medic in choice && choice[Medic] == Lineup([m], [n])
    ensures
      var l := Assemble(NOBODY, Classes(players), choice);
      && Plays(l.blu, m.playerId) && !Plays(l.red, m.playerId)
      && Plays(l.red, n.playerId) && !Plays(l.blu, n.playerId)
  {
    var l := Assemble(NOBODY, Classes(players), choice);
    MedicInClasses(players);
    HalvesMembers(players, Medic, choice[Medic]);
    assert m in choice[Medic].blu && n in choice[Medic].red;
    AssembledFrom(players, choice, m);
    AssembledFrom(players, choice, n);
    MemberPlays(l.blu, m);
    MemberPlays(l.red, n);
    AssembledIsSplit(players, choice);
    OnOneTeam(players, l, m.playerId);
    OnOneTeam(players, l, n.playerId);
  }

  /** The medic of `a` plays with `a`, the medic of `b` with `b`. */
  ghost predicate Serves(l: Lineup, m: PlayerId, a: PlayerId, n: PlayerId, b: PlayerId) {
    && Plays(l.blu, m) && !Plays(l.red, m) && !Plays(l.red, a)
    && Plays(l.red, n) && !Plays(l.blu, n) && !Plays(l.blu, b)
  }

  lemma Serve(players: seq<PlayerSlot>, m: PlayerSlot, a: PlayerId, n: PlayerSlot, b: PlayerId)
    requires Playable(players, Classes(players)) && DistinctIds(players) && |OfClass(players, Medic)| == 2
    requires Lineup([m], [n]) in ClassOptions(OfClass(players, Medic))
    requires a != n.playerId && b != m.playerId
    requires forall c :: c in Classes(players) ==> HasSuiting(OfClass(players, c), a, b)
    ensures exists l :: l in Product(NOBODY, players, Classes(players)) &&
                        Serves(l, m.playerId, a, n.playerId, b)
  {
    var classes := Classes(players);
    var choice: Choice := map c | c in classes ::
      if c == Medic then Lineup([m], [n])
      else var k :| 0 <= k < |ClassOptions(OfClass(players, c))| &&
                    Suits(ClassOptions(OfClass(players, c))[k], a, b);
           ClassOptions(OfClass(players, c))[k];
    assert Listed(players, classes, choice);
    ListedHalves(players, classes, choice);
    AssembledIsGenerated(NOBODY, players, classes, choice);
    TwoPlay(m, m, b);
    TwoPlay(n, n, a);
    AssembledSuits(players, choice, a, b);
    MedicInClasses(players);
    MedicsFaceOff(players, choice, m, n);
  }

  lemma MedicInClasses(players: seq<PlayerSlot>)
    requires OfClass(players, Medic) != []
    ensures Medic in Classes(players)
  {
    ClassesFacts(players);
    OfClassMembers(players, Medic);
    assert OfClass(players, Medic)[0] in OfClass(players, Medic);
  }

  // ----- friends

  /** The player a medic wants to play with: the friend if there is one. */
  ghost function Wish(fs: seq<Friendship>, medic: PlayerId): PlayerId {
    if fs == [] then medic
    else if fs[0].source == medic then fs[0].target
    else Wish(fs[1..], medic)
  }

  lemma WishMeans(fs: seq<Friendship>, medic: PlayerId)
    ensures (exists i :: 0 <= i < |fs| && fs[i].source == medic && fs[i].target == Wish(fs, medic)) ||
            ((forall i :: 0 <= i < |fs| ==> fs[i].source != medic) && Wish(fs, medic) == medic)
  {
    if fs != [] && fs[0].source != medic {
      WishMeans(fs[1..], medic);
      if i :| 0 <= i < |fs[1..]| && fs[1..][i].source == medic && fs[1..][i].target == Wish(fs[1..], medic) {
        assert fs[i+1].source == medic && fs[i+1].target == Wish(fs, medic);
      } else {
        assert forall i :: 1 <= i < |fs| ==> fs[i] == fs[1..][i-1];
      }
    }
  }

  lemma WishOf(fs: seq<Friendship>, i: nat)
    requires i < |fs|
    requires forall i, j :: 0 <= i < j < |fs| ==> fs[i].source != fs[j].source
    ensures Wish(fs, fs[i].source) == fs[i].target
  {
    if i > 0 {
      WishOf(fs[1..], i - 1);
    }
  }

  lemma ServingRespects(players: seq<PlayerSlot>, fs: seq<Friendship>, l: Lineup, m: PlayerId, n: PlayerId)
    requires MedicFriends(players, fs)
    requires forall id :: IsMedic(players, id) ==> id == m || id == n
    requires Serves(l, m, Wish(fs, m), n, Wish(fs, n)) || Serves(l, n, Wish(fs, n), m, Wish(fs, m))
    ensures RespectsOverrides(l, Some(FriendLists(fs)))
  {
    forall i | 0 <= i < |fs| ensures |TeamsOf(l, FriendLists(fs)[i])| < 2 {
      var list := FriendLists(fs)[i];
      WishOf(fs, i);
      assert fs[i].source == m || fs[i].source == n;
      assert forall f :: f in list ==> f == fs[i].source || f == fs[i].target;
      RespectsMeans(l, list);
    }
  }

  lemma MedicIds(players: seq<PlayerSlot>)
    requires |OfClass(players, Medic)| == 2
    ensures
      var ms := OfClass(players, Medic);
      forall id :: IsMedic(players, id) <==> id == ms[0].playerId || id == ms[1].playerId
  {
    var ms := OfClass(players, Medic);
    forall id ensures IsMedic(players, id) <==> id == ms[0].playerId || id == ms[1].playerId {
      assert ms == [ms[0], ms[1]];
      TwoPlay(ms[0], ms[1], id);
    }
  }

  lemma WishesApart(players: seq<PlayerSlot>, fs: seq<Friendship>, m: PlayerId, n: PlayerId)
    requires MedicFriends(players, fs) && NoMedicPair(players, fs)
    requires IsMedic(players, m) && IsMedic(players, n) && m != n
    ensures Wish(fs, m) != Wish(fs, n) && Wish(fs, m) != n && Wish(fs, n) != m
  {
    WishMeans(fs, m);
    WishMeans(fs, n);
  }

  lemma FriendsCanPlay(players: seq<PlayerSlot>, fs: seq<Friendship>)
    requires Playable(players, Classes(players)) && DistinctIds(players)
    requires MedicFriends(players, fs) && NoMedicPair(players, fs)
    ensures exists l :: l in Product(NOBODY, players, Classes(players)) &&
                        RespectsOverrides(l, Some(FriendLists(fs)))
  {
    var ms := OfClass(players, Medic);
    var m, n := ms[0].playerId, ms[1].playerId;
    MedicIds(players);
    DistinctOfClass(players, Medic);
    WishesApart(players, fs, m, n);
    var a, b := Wish(fs, m), Wish(fs, n);
    Orient(players, Classes(players), a, b);
    var options := ClassOptions(ms);
    assert options[0] in options && options[1] in options;
    if forall c :: c in Classes(players) ==> HasSuiting(OfClass(players, c), a, b) {
      Serve(players, ms[0], a, ms[1], b);
      var l :| l in Product(NOBODY, players, Classes(players)) && Serves(l, m, a, n, b);
      ServingRespects(players, fs, l, m, n);
    } else {
      Serve(players, ms[1], b, ms[0], a);
      var l :| l in Product(NOBODY, players, Classes(players)) && Serves(l, n, b, m, a);
      ServingRespects(players, fs, l, m, n);
    }
  }

  // ----- the other direction: a medic cannot play with the other medic

  lemma OneMedicEach(players: seq<PlayerSlot>, l: Lineup)
    requires IsSplit(players, l) && |OfClass(players, Medic)| == 2
    ensures |OfClass(l.blu, Medic)| == 1 && |OfClass(l.red, Medic)| == 1
  {
    RestrictHalves(players, l, Medic);
    HalfOf(OfClass(players, Medic), Restrict(l, Medic));
  }

  lemma MedicTeam(players: seq<PlayerSlot>, l: Lineup, m: PlayerSlot)
    requires IsSplit(players, l) && DistinctIds(players) && m in OfClass(players, Medic)
    ensures
      || (TeamOf(l, m.playerId) == Some(Blu) && m in OfClass(l.blu, Medic))
      || (TeamOf(l, m.playerId) == Some(Red) && m in OfClass(l.red, Medic))
  {
    RestrictHalves(players, l, Medic);
    assert m in multiset(OfClass(players, Medic));
    OnOneTeam(players, l, m.playerId);
    if m in OfClass(l.blu, Medic) {
      OfClassMembers(l.blu, Medic);
      MemberPlays(l.blu, m);
    } else {
      assert m in OfClass(l.red, Medic);
      OfClassMembers(l.red, Medic);
      MemberPlays(l.red, m);
    }
  }

  lemma MedicsApart(players: seq<PlayerSlot>, l: Lineup)
    requires IsSplit(players, l) && DistinctIds(players) && |OfClass(players, Medic)| == 2
    ensures
      var ms := OfClass(players, Medic);
      || (TeamOf(l, ms[0].playerId) == Some(Blu) && TeamOf(l, ms[1].playerId) == Some(Red))
      || (TeamOf(l, ms[0].playerId) == Some(Red) && TeamOf(l, ms[1].playerId) == Some(Blu))
  {
    var ms := OfClass(players, Medic);
    DistinctOfClass(players, Medic);
    MedicsNotTogether(players, l, ms[0], ms[1]);
  }

  lemma MedicsNotTogether(players: seq<PlayerSlot>, l: Lineup, m: PlayerSlot, n: PlayerSlot)
    requires IsSplit(players, l) && DistinctIds(players) && |OfClass(players, Medic)| == 2
    requires m in OfClass(players, Medic) && n in OfClass(players, Medic) && m != n
    ensures
      || (TeamOf(l, m.playerId) == Some(Blu) && TeamOf(l, n.playerId) == Some(Red))
      || (TeamOf(l, m.playerId) == Some(Red) && TeamOf(l, n.playerId) == Some(Blu))
  {
    OneMedicEach(players, l);
    MedicTeam(players, l, m);
    MedicTeam(players, l, n);
    NotBothIn(OfClass(l.blu, Medic), m, n);
    NotBothIn(OfClass(l.red, Medic), m, n);
  }

  lemma NotBothIn<T>(s: seq<T>, x: T, y: T)
    requires |s| == 1 && x != y
    ensures x !in s || y !in s
  {
  }

  lemma MedicPairClashes(players: seq<PlayerSlot>, fs: seq<Friendship>, i: nat, l: Lineup)
    requires DistinctIds(players) && MedicFriends(players, fs) && IsSplit(players, l)
    requires i < |fs| && IsMedic(players, fs[i].target) && fs[i].target != fs[i].source
    ensures !RespectsOverrides(l, Some(FriendLists(fs)))
  {
    MedicIds(players);
    MedicsApart(players, l);
    var list := FriendLists(fs)[i];
    assert list[0] == fs[i].source && list[1] == fs[i].target;
    assert fs[i].source in list && fs[i].target in list;
    RespectsMeans(l, list);
  }

  /** Teams are found exactly if no medic picked the other medic. */
  lemma TeamsExistExactly(players: seq<PlayerSlot>, fs: seq<Friendship>)
    requires Playable(players, Classes(players)) && DistinctIds(players) && MedicFriends(players, fs)
    ensures Select(players, Some(FriendLists(fs))).Ok? <==> NoMedicPair(players, fs)
  {
    var overrides := Some(FriendLists(fs));
    SelectFacts(players, overrides);
    if NoMedicPair(players, fs) {
      FriendsCanPlay(players, fs);
    } else if Select(players, overrides).Ok? {
      var i :| 0 <= i < |fs| && IsMedic(players, fs[i].target) && fs[i].target != fs[i].source;
      GeneratedIsSplit(players, Select(players, overrides).value);
      MedicPairClashes(players, fs, i, Select(players, overrides).value);
    }
  }
}
