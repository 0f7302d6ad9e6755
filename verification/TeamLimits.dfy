/**
  The generator lists four of the six ways to split four players.  With a single class of
  four that loses nothing; with two such classes the best split can be missed.
 */
module TeamLimits {
  import opened Common
  import opened PickTeams
  import opened Lineups
  import opened TeamTheorems

  // ----- the same players with other skills

  ghost predicate SameRoster(a: seq<PlayerSlot>, b: seq<PlayerSlot>) {
    && |a| == |b|
    && forall i :: 0 <= i < |a| ==> a[i].playerId == b[i].playerId && a[i].gameClass == b[i].gameClass
  }

  ghost function Reskill(ps: seq<PlayerSlot>, skill: PlayerId -> real): seq<PlayerSlot> {
    seq(|ps|, i requires 0 <= i < |ps| => ps[i].(skill := skill(ps[i].playerId)))
  }

  lemma {:induction false} SameRosterClass(a: seq<PlayerSlot>, b: seq<PlayerSlot>, c: ClassName)
    requires SameRoster(a, b)
    ensures SameRoster(OfClass(a, c), OfClass(b, c))
  {
    if a != [] {
      SameRosterClass(a[1..], b[1..], c);
      var ra, rb := OfClass(a[1..], c), OfClass(b[1..], c);
      assert a[0].gameClass == b[0].gameClass;
      if a[0].gameClass == c {
        assert OfClass(a, c) == [a[0]] + ra && OfClass(b, c) == [b[0]] + rb;
      } else {
        assert OfClass(a, c) == ra && OfClass(b, c) == rb;
      }
    }
  }

  lemma SameRosterClasses(a: seq<PlayerSlot>, b: seq<PlayerSlot>)
    requires SameRoster(a, b)
    ensures Classes(a) == Classes(b)
  {
    if a != [] {
      SameRosterClasses(a[..|a|-1], b[..|b|-1]);
    }
  }

  lemma ReskillClass(ps: seq<PlayerSlot>, skill: PlayerId -> real, c: ClassName)
    ensures OfClass(Reskill(ps, skill), c) == Reskill(OfClass(ps, c), skill)
  {
    if ps != [] {
      ReskillClass(ps[1..], skill, c);
      assert Reskill(ps, skill)[1..] == Reskill(ps[1..], skill);
    }
  }

  // ----- the gap between the teams, class by class

  lemma SumZero(ps: seq<PlayerSlot>)
    requires forall x :: x in ps ==> x.skill == 0.0
    ensures Sum(ps) == 0.0
  {
  }

  ghost function GapIn(classes: seq<ClassName>, choice: Choice, c: ClassName): real
    requires forall e :: e in classes ==> e in choice
  {
    if c in classes then Gap(choice[c]) else 0.0
  }

  lemma JoinGap(a: Lineup, b: Lineup)
    ensures Gap(Join(a, b)) == Gap(a) + Gap(b)
  {
    SumConcat(a.blu, b.blu);
    SumConcat(a.red, b.red);
  }

  lemma GapInRest(classes: seq<ClassName>, choice: Choice, c: ClassName)
    requires NoRepeats(classes) && classes != [] && forall e :: e in classes ==> e in choice
    ensures GapIn(classes, choice, c) ==
            (if c == classes[0] then Gap(choice[c]) else 0.0) + GapIn(classes[1..], choice, c)
  {
    assert forall f :: f in classes <==> f == classes[0] || f in classes[1..];
  }

  /** When only the classes `c` and `d` have skills, their gaps add up to that of the lineup. */
  lemma {:induction false} AssembleGap(prev: Lineup, classes: seq<ClassName>, choice: Choice, c: ClassName,
                                       d: ClassName)
    requires NoRepeats(classes) && c != d && forall e :: e in classes ==> e in choice
    requires forall e :: e in classes && e != c && e != d ==> Gap(choice[e]) == 0.0
    ensures Gap(Assemble(prev, classes, choice)) ==
            Gap(prev) + GapIn(classes, choice, c) + GapIn(classes, choice, d)
    decreases |classes|
  {
    if classes != [] {
      JoinGap(prev, choice[classes[0]]);
      GapInRest(classes, choice, c);
      GapInRest(classes, choice, d);
      AssembleGap(Join(prev, choice[classes[0]]), classes[1..], choice, c, d);
    }
  }

  // ----- skills that defeat the generator

  ghost predicate Skills(ps: seq<PlayerSlot>, s0: real, s1: real, s2: real, s3: real) {
    |ps| == 4 && ps[0].skill == s0 && ps[1].skill == s1 && ps[2].skill == s2 && ps[3].skill == s3
  }

  lemma PairSum(a: PlayerSlot, b: PlayerSlot)
    ensures Sum([a, b]) == a.skill + b.skill
  {
    assert [a, b][1..] == [b] && [b][1..] == [];
    assert Sum([b]) == b.skill;
  }

  lemma FourGaps(ps: seq<PlayerSlot>)
    requires |ps| == 4
    ensures
      var o := ClassOptions(ps);
      var a, b, c, d := ps[0].skill, ps[1].skill, ps[2].skill, ps[3].skill;
      && Gap(o[0]) == a + b - c - d && Gap(o[1]) == a + c - b - d
      && Gap(o[2]) == a + d - b - c && Gap(o[3]) == c + d - a - b
  {
    PairSum(ps[0], ps[1]);
    PairSum(ps[2], ps[3]);
    PairSum(ps[0], ps[2]);
    PairSum(ps[1], ps[3]);
    PairSum(ps[0], ps[3]);
    PairSum(ps[1], ps[2]);
  }

  /** Skills under which the two classes balance exactly, but by no pair of listed options. */
  ghost predicate Defeating(players: seq<PlayerSlot>, c: ClassName, d: ClassName) {
    && c != d
    && Skills(OfClass(players, c), 0.0, 2.0, 7.0, 2.0)
    && Skills(OfClass(players, d), 0.0, 1.0, 6.0, 10.0)
    && forall x :: x in players && x.gameClass != c && x.gameClass != d ==> x.skill == 0.0
  }

  ghost function DefeatingSkill(ps: seq<PlayerSlot>, qs: seq<PlayerSlot>, id: PlayerId): real
    requires |ps| == 4 && |qs| == 4
  {
    if id == ps[1].playerId then 2.0 else if id == ps[2].playerId then 7.0
    else if id == ps[3].playerId then 2.0 else if id == qs[1].playerId then 1.0
    else if id == qs[2].playerId then 6.0 else if id == qs[3].playerId then 10.0 else 0.0
  }

  lemma DifferentClassesApart(players: seq<PlayerSlot>, c: ClassName, d: ClassName)
    requires DistinctIds(players) && c != d
    ensures forall x, y :: x in OfClass(players, c) && y in OfClass(players, d) ==> x.playerId != y.playerId
  {
    OfClassMembers(players, c);
    OfClassMembers(players, d);
  }

  lemma DefeatingSkills(ps: seq<PlayerSlot>, qs: seq<PlayerSlot>, skill: PlayerId -> real)
    requires |ps| == 4 && |qs| == 4 && DistinctIds(ps) && DistinctIds(qs)
    requires forall x, y :: x in ps && y in qs ==> x.playerId != y.playerId
    requires skill == ((id: PlayerId) => DefeatingSkill(ps, qs, id))
    ensures Skills(Reskill(ps, skill), 0.0, 2.0, 7.0, 2.0)
    ensures Skills(Reskill(qs, skill), 0.0, 1.0, 6.0, 10.0)
  {
    assert forall i, j :: 0 <= i < 4 && 0 <= j < 4 ==> ps[i].playerId != qs[j].playerId;
    assert skill(ps[0].playerId) == 0.0 && skill(ps[1].playerId) == 2.0;
    assert skill(ps[2].playerId) == 7.0 && skill(ps[3].playerId) == 2.0;
    assert skill(qs[0].playerId) == 0.0 && skill(qs[1].playerId) == 1.0;
    assert skill(qs[2].playerId) == 6.0 && skill(qs[3].playerId) == 10.0;
  }

  lemma NotOfClass(players: seq<PlayerSlot>, c: ClassName, i: nat)
    requires DistinctIds(players) && i < |players| && players[i].gameClass != c
    ensures forall x :: x in OfClass(players, c) ==> x.playerId != players[i].playerId
  {
    OfClassMembers(players, c);
  }

  lemma OthersUnskilled(players: seq<PlayerSlot>, c: ClassName, d: ClassName, skill: PlayerId -> real)
    requires DistinctIds(players) && |OfClass(players, c)| == 4 && |OfClass(players, d)| == 4
    requires forall id :: skill(id) == DefeatingSkill(OfClass(players, c), OfClass(players, d), id)
    ensures
      var q := Reskill(players, skill);
      forall i :: 0 <= i < |q| && q[i].gameClass != c && q[i].gameClass != d ==> q[i].skill == 0.0
  {
    var q := Reskill(players, skill);
    forall i | 0 <= i < |q| && q[i].gameClass != c && q[i].gameClass != d ensures q[i].skill == 0.0 {
      NotOfClass(players, c, i);
      NotOfClass(players, d, i);
    }
  }

  lemma Defeat(players: seq<PlayerSlot>, c: ClassName, d: ClassName)
    requires DistinctIds(players) && c != d && |OfClass(players, c)| == 4 && |OfClass(players, d)| == 4
    ensures exists q :: SameRoster(players, q) && Defeating(q, c, d)
  {
    var ps, qs := OfClass(players, c), OfClass(players, d);
    var skill := (id: PlayerId) => DefeatingSkill(ps, qs, id);
    var q := Reskill(players, skill);
    DistinctOfClass(players, c);
    DistinctOfClass(players, d);
    DifferentClassesApart(players, c, d);
    DefeatingSkills(ps, qs, skill);
    ReskillClass(players, skill, c);
    ReskillClass(players, skill, d);
    OthersUnskilled(players, c, d, skill);
    assert SameRoster(players, q);
    assert Defeating(q, c, d);
  }

  lemma OtherClassesEven(players: seq<PlayerSlot>, c: ClassName, d: ClassName, choice: Choice)
    requires Defeating(players, c, d) && Halving(players, Classes(players), choice)
    ensures forall e :: e in Classes(players) && e != c && e != d ==> Gap(choice[e]) == 0.0
  {
    forall e | e in Classes(players) && e != c && e != d ensures Gap(choice[e]) == 0.0 {
      HalvesMembers(players, e, choice[e]);
      SumZero(choice[e].blu);
      SumZero(choice[e].red);
    }
  }

  lemma ClassesOfDefeat(players: seq<PlayerSlot>, c: ClassName, d: ClassName)
    requires Defeating(players, c, d)
    ensures c in Classes(players) && d in Classes(players)
  {
    ClassesFacts(players);
    OfClassMembers(players, c);
    OfClassMembers(players, d);
    assert OfClass(players, c)[0] in OfClass(players, c) && OfClass(players, d)[0] in OfClass(players, d);
  }

  lemma ListedGaps(ps: seq<PlayerSlot>, qs: seq<PlayerSlot>, o: Lineup, p: Lineup)
    requires Skills(ps, 0.0, 2.0, 7.0, 2.0) && Skills(qs, 0.0, 1.0, 6.0, 10.0)
    requires o in ClassOptions(ps) && p in ClassOptions(qs)
    ensures Gap(o) + Gap(p) != 0.0
  {
    FourGaps(ps);
    FourGaps(qs);
    var os, qo := ClassOptions(ps), ClassOptions(qs);
    assert o == os[0] || o == os[1] || o == os[2] || o == os[3];
    assert p == qo[0] || p == qo[1] || p == qo[2] || p == qo[3];
  }

  /** The gap of a lineup put together for a defeating roster. */
  lemma DefeatGap(players: seq<PlayerSlot>, c: ClassName, d: ClassName, choice: Choice)
    requires Defeating(players, c, d) && Halving(players, Classes(players), choice)
    ensures c in choice && d in choice
    ensures Gap(Assemble(NOBODY, Classes(players), choice)) == Gap(choice[c]) + Gap(choice[d])
  {
    var classes := Classes(players);
    ClassesFacts(players);
    ClassesOfDefeat(players, c, d);
    OtherClassesEven(players, c, d, choice);
    AssembleGap(NOBODY, classes, choice, c, d);
  }

  /** No generated lineup is balanced. */
  lemma GeneratedIsUneven(players: seq<PlayerSlot>, c: ClassName, d: ClassName, l: Lineup)
    requires Playable(players, Classes(players)) && Defeating(players, c, d)
    requires l in Product(NOBODY, players, Classes(players))
    ensures Gap(l) != 0.0
  {
    ClassesFacts(players);
    ClassesOfDefeat(players, c, d);
    var choice := GeneratedIsAssembled(NOBODY, players, Classes(players), l);
    ListedHalves(players, Classes(players), choice);
    DefeatGap(players, c, d, choice);
    ListedGaps(OfClass(players, c), OfClass(players, d), choice[c], choice[d]);
  }

  lemma BalancedOptions(ps: seq<PlayerSlot>, qs: seq<PlayerSlot>)
    requires Skills(ps, 0.0, 2.0, 7.0, 2.0) && Skills(qs, 0.0, 1.0, 6.0, 10.0)
    ensures exists o, p :: HalvesClass(ps, o) && HalvesClass(qs, p) && Gap(o) + Gap(p) == 0.0
  {
    FourGaps(ps);
    FourGaps(qs);
    var o, p := Flip(ClassOptions(ps)[1]), ClassOptions(qs)[2];
    MiddleHalves(ps);
    MiddleHalves(qs);
    FlipHalves(ps, ClassOptions(ps)[1]);
    assert HalvesClass(ps, o) && HalvesClass(qs, p) && Gap(o) + Gap(p) == 0.0;
  }

  /** The first option of every class, except for two given ones. */
  ghost function ChoiceWith(players: seq<PlayerSlot>, c: ClassName, o: Lineup, d: ClassName, p: Lineup): Choice
    requires Playable(players, Classes(players))
  {
    map e | e in Classes(players) ::
      if e == c then o else if e == d then p else ClassOptions(OfClass(players, e))[0]
  }

  lemma ChoiceWithHalves(players: seq<PlayerSlot>, c: ClassName, o: Lineup, d: ClassName, p: Lineup)
    requires Playable(players, Classes(players))
    requires HalvesClass(OfClass(players, c), o) && HalvesClass(OfClass(players, d), p)
    ensures Halving(players, Classes(players), ChoiceWith(players, c, o, d, p))
  {
    forall e | e in Classes(players)
      ensures HalvesClass(OfClass(players, e), ChoiceWith(players, c, o, d, p)[e])
    {
      if e != c && e != d {
        OptionsHalve(OfClass(players, e), ClassOptions(OfClass(players, e))[0]);
      }
    }
  }

  /** Yet some split is. */
  lemma SomeSplitIsEven(players: seq<PlayerSlot>, c: ClassName, d: ClassName)
    requires Playable(players, Classes(players)) && Defeating(players, c, d)
    ensures exists l :: IsSplit(players, l) && Gap(l) == 0.0
  {
    BalancedOptions(OfClass(players, c), OfClass(players, d));
    var o, p :| HalvesClass(OfClass(players, c), o) && HalvesClass(OfClass(players, d), p) && Gap(o) + Gap(p) == 0.0;
    var choice := ChoiceWith(players, c, o, d, p);
    ChoiceWithHalves(players, c, o, d, p);
    AssembledIsSplit(players, choice);
    DefeatGap(players, c, d, choice);
    assert IsSplit(players, Assemble(NOBODY, Classes(players), choice));
  }

  lemma DefeatedSelection(players: seq<PlayerSlot>, c: ClassName, d: ClassName)
    requires Playable(players, Classes(players)) && Defeating(players, c, d)
    ensures !SelectsBest(players, None)
  {
    SomeSplitIsEven(players, c, d);
    var l :| IsSplit(players, l) && Gap(l) == 0.0;
    assert Acceptable(players, None, l);
    SelectFacts(players, None);
    if Select(players, None).Ok? {
      GeneratedIsUneven(players, c, d, Select(players, None).value);
    }
  }

  lemma SameRosterFacts(a: seq<PlayerSlot>, b: seq<PlayerSlot>)
    requires SameRoster(a, b) && Playable(a, Classes(a)) && DistinctIds(a)
    ensures Playable(b, Classes(b)) && DistinctIds(b)
    ensures AtMostOneFour(a) ==> AtMostOneFour(b)
  {
    SameRosterClasses(a, b);
    forall c: ClassName ensures |OfClass(a, c)| == |OfClass(b, c)| {
      SameRosterClass(a, b, c);
    }
  }

  /**
    The selection is best over all splits, whatever the skills and the friends, exactly if
    at most one class has four players.
   */
  lemma BestExactlyWithOneFour(players: seq<PlayerSlot>)
    requires Playable(players, Classes(players)) && DistinctIds(players)
    ensures (forall q, overrides :: SameRoster(players, q) ==> SelectsBest(q, overrides)) <==>
            AtMostOneFour(players)
  {
    if AtMostOneFour(players) {
      forall q, overrides | SameRoster(players, q) ensures SelectsBest(q, overrides) {
        SameRosterFacts(players, q);
        GlobalMinimality(q, overrides);
      }
    } else {
      var c, d :| |OfClass(players, c)| == 4 && |OfClass(players, d)| == 4 && c != d;
      Defeat(players, c, d);
      var q :| SameRoster(players, q) && Defeating(q, c, d);
      SameRosterFacts(players, q);
      DefeatedSelection(q, c, d);
    }
  }
}
