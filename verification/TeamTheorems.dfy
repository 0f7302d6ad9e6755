/** What the selected teams promise. */
module TeamTheorems {
  import opened Common
  import opened PickTeams
  import opened Lineups

  // ----- what does not depend on the order in which a team is listed

  lemma {:induction false} SumWithout(s: seq<PlayerSlot>, i: nat)
    requires i < |s|
    ensures Sum(s) == s[i].skill + Sum(s[..i] + s[i+1..])
  {
    if i == 0 {
      assert s[..0] + s[1..] == s[1..];
    } else {
      SumWithout(s[1..], i - 1);
      assert s[1..][..i-1] + s[1..][i..] == (s[..i] + s[i+1..])[1..];
    }
  }

  lemma MultisetWithout<T>(s: seq<T>, i: nat)
    requires i < |s|
    ensures multiset(s[..i] + s[i+1..]) == multiset(s) - multiset{s[i]}
  {
    assert s == s[..i] + [s[i]] + s[i+1..];
  }

  lemma FindFirst<T>(a: seq<T>, b: seq<T>) returns (i: nat)
    requires multiset(a) == multiset(b) && a != []
    ensures i < |b| && b[i] == a[0] && multiset(a[1..]) == multiset(b[..i] + b[i+1..])
  {
    assert a[0] in multiset(b);
    i :| 0 <= i < |b| && b[i] == a[0];
    MultisetWithout(b, i);
    assert a == [a[0]] + a[1..];
  }

  lemma {:induction false} SumSame(a: seq<PlayerSlot>, b: seq<PlayerSlot>)
    requires multiset(a) == multiset(b)
    ensures Sum(a) == Sum(b)
  {
    assert |multiset(a)| == |a| && |multiset(b)| == |b|;
    if a != [] {
      var i := FindFirst(a, b);
      SumWithout(b, i);
      SumSame(a[1..], b[..i] + b[i+1..]);
    }
  }

  // ----- what the difference measures

  /** How far the total skills of the teams are apart. */
  ghost function Gap(l: Lineup): real {
    Sum(l.blu) - Sum(l.red)
  }

  ghost function Abs(x: real): real {
    if x < 0.0 then -x else x
  }

  lemma SumConcat(a: seq<PlayerSlot>, b: seq<PlayerSlot>)
    ensures Sum(a + b) == Sum(a) + Sum(b)
  {
    if a == [] {
      assert a + b == b;
    } else {
      assert (a + b)[1..] == a[1..] + b;
      SumConcat(a[1..], b);
    }
  }

  /** The sum is determined by single players and concatenation. */
  lemma SumIs(a: seq<PlayerSlot>, b: seq<PlayerSlot>, x: PlayerSlot)
    ensures Sum([]) == 0.0 && Sum([x]) == x.skill && Sum(a + b) == Sum(a) + Sum(b)
  {
    assert [x][1..] == [];
    SumConcat(a, b);
  }

  lemma AverageIs(team: seq<PlayerSlot>)
    ensures AverageSkill(team) * |team| as real == Sum(team)
  {
  }

  /** The difference is the distance of the teams' means. */
  lemma DifferenceIs(l: Lineup, x: real, y: real)
    requires l.blu != [] && l.red != []
    requires x * |l.blu| as real == Sum(l.blu) && y * |l.red| as real == Sum(l.red)
    ensures Difference(l) == Abs(x - y)
  {
    AverageIs(l.blu);
    AverageIs(l.red);
    OneFactor(x, AverageSkill(l.blu), |l.blu| as real);
    OneFactor(y, AverageSkill(l.red), |l.red| as real);
  }

  lemma OneFactor(x: real, y: real, k: real)
    requires k > 0.0 && x * k == y * k
    ensures x == y
  {
    assert (x - y) * k == 0.0;
  }

  lemma AbsTimes(x: real, k: real)
    requires k > 0.0
    ensures Abs(x) * k == Abs(x * k)
  {
    if x < 0.0 { assert x * k < 0.0; } else { assert x * k >= 0.0; }
  }

  lemma EvenDifference(l: Lineup)
    requires |l.blu| == |l.red|
    ensures Difference(l) * |l.blu| as real == Abs(Gap(l))
  {
    if l.blu != [] {
      var n := |l.blu| as real;
      AverageIs(l.blu);
      AverageIs(l.red);
      var d := AverageSkill(l.blu) - AverageSkill(l.red);
      assert d * n == Gap(l);
      AbsTimes(d, n);
    }
  }

  /** A team is its classes. */
  lemma SizeByClass(team: seq<PlayerSlot>)
    ensures |team| == |OfClass(team, Scout)| + |OfClass(team, Soldier)| + |OfClass(team, Pyro)| +
                      |OfClass(team, Demoman)| + |OfClass(team, Heavy)| + |OfClass(team, Engineer)| +
                      |OfClass(team, Medic)| + |OfClass(team, Sniper)| + |OfClass(team, Spy)|
  {
  }

  lemma SplitSizes(players: seq<PlayerSlot>, l: Lineup)
    requires IsSplit(players, l)
    ensures |l.blu| == |l.red| && 2 * |l.blu| == |players|
  {
    SizeByClass(l.blu);
    SizeByClass(l.red);
    assert |multiset(l.blu) + multiset(l.red)| == |l.blu| + |l.red|;
    assert |multiset(players)| == |players|;
  }

  /** Of two splits of the same players, the one of smaller difference has the smaller gap in total skill. */
  lemma DifferenceOrders(players: seq<PlayerSlot>, l: Lineup, m: Lineup)
    requires IsSplit(players, l) && IsSplit(players, m)
    ensures Difference(l) <= Difference(m) <==> Abs(Gap(l)) <= Abs(Gap(m))
  {
    SplitSizes(players, l);
    SplitSizes(players, m);
    EvenDifference(l);
    EvenDifference(m);
    if |l.blu| > 0 {
      Scaled(Difference(l), Difference(m), Abs(Gap(l)), Abs(Gap(m)), |l.blu| as real);
    } else {
      NobodyIsEven(l);
      NobodyIsEven(m);
    }
  }

  lemma Scaled(x: real, y: real, a: real, b: real, k: real)
    requires k > 0.0 && x * k == a && y * k == b
    ensures x <= y <==> a <= b
  {
    if x <= y { assert (y - x) * k >= 0.0; } else { assert (x - y) * k > 0.0; }
  }

  lemma NobodyIsEven(l: Lineup)
    requires |l.blu| == |l.red| == 0
    ensures Difference(l) == 0.0 && Gap(l) == 0.0
  {
    assert l.blu == l.red == [];
  }

  lemma SameGap(a: Lineup, b: Lineup)
    requires SameTeams(a, b)
    ensures Gap(a) == Gap(b)
  {
    SumSame(a.blu, b.blu);
    SumSame(a.red, b.red);
  }

  lemma SamePlayers(a: seq<PlayerSlot>, b: seq<PlayerSlot>, player: PlayerId)
    requires multiset(a) == multiset(b)
    ensures Plays(a, player) == Plays(b, player)
  {
    if Plays(a, player) {
      var i :| 0 <= i < |a| && a[i].playerId == player;
      assert a[i] in multiset(b);
      assert a[i] in b;
    }
    if Plays(b, player) {
      var i :| 0 <= i < |b| && b[i].playerId == player;
      assert b[i] in multiset(a);
      assert b[i] in a;
    }
  }

  lemma SmallTeamSet(s: set<Team>)
    ensures |s| < 2 <==> !(Blu in s && Red in s)
  {
    if Blu in s && Red in s {
      assert {Blu, Red} <= s;
      assert |{Blu, Red}| <= |s - {Blu, Red}| + |{Blu, Red}| == |s|;
    } else {
      var t := if Blu in s then Blu else Red;
      forall u | u in s ensures u == t {}
      if s != {} {
        assert s == {t};
      }
    }
  }

  /** The friends check in plain words: no list names players of both teams. */
  ghost predicate KeepsTogether(l: Lineup, friends: seq<PlayerId>) {
    forall f, g :: f in friends && g in friends ==> !(TeamOf(l, f) == Some(Blu) && TeamOf(l, g) == Some(Red))
  }

  lemma RespectsMeans(l: Lineup, friends: seq<PlayerId>)
    ensures |TeamsOf(l, friends)| < 2 <==> KeepsTogether(l, friends)
  {
    SmallTeamSet(TeamsOf(l, friends));
    assert forall t :: t in TeamsOf(l, friends) <==> exists f :: f in friends && TeamOf(l, f) == Some(t);
  }

  lemma SameRespect(a: Lineup, b: Lineup, overrides: Overrides)
    requires forall p :: TeamOf(a, p) == TeamOf(b, p)
    ensures RespectsOverrides(a, overrides) == RespectsOverrides(b, overrides)
  {
    if overrides.Some? {
      forall i | 0 <= i < |overrides.value|
        ensures TeamsOf(a, overrides.value[i]) == TeamsOf(b, overrides.value[i])
      {
      }
    }
  }

  lemma SameTeamsRespect(a: Lineup, b: Lineup, overrides: Overrides)
    requires SameTeams(a, b)
    ensures RespectsOverrides(a, overrides) == RespectsOverrides(b, overrides)
  {
    forall p ensures TeamOf(a, p) == TeamOf(b, p) {
      SamePlayers(a.blu, b.blu, p);
      SamePlayers(a.red, b.red, p);
    }
    SameRespect(a, b, overrides);
  }

  // ----- nobody plays twice

  lemma CountOnce(s: seq<PlayerSlot>, x: PlayerSlot)
    requires NoRepeats(s)
    ensures multiset(s)[x] <= 1
  {
    if s != [] {
      assert s == [s[0]] + s[1..];
      CountOnce(s[1..], x);
      if x == s[0] {
        assert x !in s[1..];
        assert x !in multiset(s[1..]);
      }
    }
  }

  lemma OnOneTeam(players: seq<PlayerSlot>, l: Lineup, player: PlayerId)
    requires DistinctIds(players) && IsSplit(players, l)
    ensures !(Plays(l.blu, player) && Plays(l.red, player))
  {
    if Plays(l.blu, player) && Plays(l.red, player) {
      var i :| 0 <= i < |l.blu| && l.blu[i].playerId == player;
      var j :| 0 <= j < |l.red| && l.red[j].playerId == player;
      var x, y := l.blu[i], l.red[j];
      assert x in multiset(l.blu) && y in multiset(l.red);
      assert x in multiset(players) && y in multiset(players);
      assert x in players && y in players;
      assert x == y;
      assert (multiset(l.blu) + multiset(l.red))[x] >= 2;
      CountOnce(players, x);
    }
  }

  lemma FlipRespects(players: seq<PlayerSlot>, l: Lineup, overrides: Overrides)
    requires DistinctIds(players) && IsSplit(players, l)
    ensures RespectsOverrides(Flip(l), overrides) == RespectsOverrides(l, overrides)
  {
    if overrides.Some? {
      forall p
        ensures TeamOf(Flip(l), p) == Some(Blu) <==> TeamOf(l, p) == Some(Red)
        ensures TeamOf(Flip(l), p) == Some(Red) <==> TeamOf(l, p) == Some(Blu)
      {
        OnOneTeam(players, l, p);
      }
      forall i | 0 <= i < |overrides.value|
        ensures |TeamsOf(Flip(l), overrides.value[i])| < 2 <==> |TeamsOf(l, overrides.value[i])| < 2
      {
        RespectsMeans(l, overrides.value[i]);
        RespectsMeans(Flip(l), overrides.value[i]);
      }
    }
  }

  /** For a split: a list is respected exactly if it has no two players on different teams. */
  lemma RespectsExactly(players: seq<PlayerSlot>, l: Lineup, lists: seq<seq<PlayerId>>)
    requires DistinctIds(players) && IsSplit(players, l)
    ensures RespectsOverrides(l, Some(lists)) <==>
            forall i, f, g :: 0 <= i < |lists| && f in lists[i] && g in lists[i] ==>
              !(Plays(l.blu, f) && Plays(l.red, g))
  {
    forall p
      ensures (TeamOf(l, p) == Some(Blu) <==> Plays(l.blu, p)) && (TeamOf(l, p) == Some(Red) <==> Plays(l.red, p))
    {
      OnOneTeam(players, l, p);
    }
    forall i | 0 <= i < |lists|
      ensures |TeamsOf(l, lists[i])| < 2 <==>
              forall f, g :: f in lists[i] && g in lists[i] ==> !(Plays(l.blu, f) && Plays(l.red, g))
    {
      RespectsMeans(l, lists[i]);
    }
  }

  // ----- the errors, and the options of a class

  /** The error is that of the first class of a size other than two or four. */
  lemma {:induction false} FirstErrorIs(players: seq<PlayerSlot>, classes: seq<ClassName>, k: nat)
    requires k < |classes| && forall i :: 0 <= i < k ==> |OfClass(players, classes[i])| in {2, 4}
    requires |OfClass(players, classes[k])| !in {2, 4}
    ensures FirstError(players, classes) ==
            Some(if |OfClass(players, classes[k])| % 2 == 1 then OddClass else NotImplemented)
  {
    if k > 0 {
      assert |OfClass(players, classes[0])| in {2, 4};
      assert classes[1..][k-1] == classes[k];
      FirstErrorIs(players, classes[1..], k - 1);
    }
  }

  /** The first three options of four players pair the first player with each other one; the last swaps the first. */
  lemma OptionsListed(ps: seq<PlayerSlot>)
    ensures |ps| == 2 ==>
              |ClassOptions(ps)| == 2 && ClassOptions(ps)[0] == Lineup(ps[..1], ps[1..]) &&
              ClassOptions(ps)[1] == Flip(ClassOptions(ps)[0])
    ensures |ps| == 4 ==>
              && |ClassOptions(ps)| == 4
              && (forall k :: 0 <= k < 3 ==>
                    ClassOptions(ps)[k] == Lineup([ps[0], ps[k+1]], ps[1..k+1] + ps[k+2..]))
              && ClassOptions(ps)[3] == Flip(ClassOptions(ps)[0])
  {
    if |ps| == 4 {
      assert ps[1..1] + ps[2..] == [ps[2], ps[3]];
      assert ps[1..2] + ps[3..] == [ps[1], ps[3]];
      assert ps[1..3] + ps[4..] == [ps[1], ps[2]];
    }
  }

  // ----- a listed option for every halving of a class, up to the order of the teams

  lemma RestReds(ps: seq<PlayerSlot>, a: Lineup, b: Lineup)
    requires HalvesClass(ps, a) && HalvesClass(ps, b) && multiset(a.blu) == multiset(b.blu)
    ensures SameTeams(a, b)
  {
    assert multiset(a.red) == multiset(ps) - multiset(a.blu);
    assert multiset(b.red) == multiset(ps) - multiset(b.blu);
  }

  lemma PairSame(a: seq<PlayerSlot>, b: seq<PlayerSlot>)
    requires |a| == 2 && |b| == 2
    requires (a[0] == b[0] && a[1] == b[1]) || (a[0] == b[1] && a[1] == b[0])
    ensures multiset(a) == multiset(b)
  {
    assert a == [a[0]] + [a[1]];
    assert b == [b[0]] + [b[1]];
  }

  lemma HalfOf(ps: seq<PlayerSlot>, o: Lineup)
    requires HalvesClass(ps, o)
    ensures |o.blu| * 2 == |ps|
  {
    assert |multiset(o.blu) + multiset(o.red)| == |o.blu| + |o.red|;
    assert |multiset(ps)| == |ps|;
  }

  lemma BluFrom(ps: seq<PlayerSlot>, o: Lineup)
    requires NoRepeats(ps) && HalvesClass(ps, o) && |ps| == 4
    ensures |o.blu| == 2 && o.blu[0] in ps && o.blu[1] in ps && o.blu[0] != o.blu[1]
  {
    HalfOf(ps, o);
    var u, v := o.blu[0], o.blu[1];
    assert u in multiset(o.blu) && v in multiset(o.blu);
    assert u in multiset(ps) && v in multiset(ps);
    if u == v {
      assert o.blu == [u] + [v];
      assert multiset(o.blu)[u] == 2;
      assert (multiset(o.blu) + multiset(o.red))[u] >= 2;
      CountOnce(ps, u);
    }
  }

  lemma MatchTwo(ps: seq<PlayerSlot>, o: Lineup)
    requires |ps| == 2 && HalvesClass(ps, o)
    ensures exists k :: 0 <= k < 2 && SameTeams(ClassOptions(ps)[k], o)
  {
    HalfOf(ps, o);
    assert o.blu == [o.blu[0]];
    assert o.blu[0] in multiset(o.blu);
    assert o.blu[0] in multiset(ps);
    TwoHalve(ps);
    var k := if o.blu[0] == ps[0] then 0 else 1;
    RestReds(ps, ClassOptions(ps)[k], o);
  }

  /** Option `k` is this halving, or the halving with the teams swapped. */
  ghost predicate Matches(ps: seq<PlayerSlot>, k: nat, o: Lineup)
    requires |ps| == 4 && k < 4
  {
    SameTeams(ClassOptions(ps)[k], o)
  }

  lemma MatchBlu(ps: seq<PlayerSlot>, k: nat, o: Lineup)
    requires |ps| == 4 && k < 4 && HalvesClass(ps, o) && |o.blu| == 2
    requires var b := ClassOptions(ps)[k].blu;
             (b[0] == o.blu[0] && b[1] == o.blu[1]) || (b[0] == o.blu[1] && b[1] == o.blu[0])
    ensures Matches(ps, k, o)
  {
    OptionsHalve(ps, ClassOptions(ps)[k]);
    PairSame(ClassOptions(ps)[k].blu, o.blu);
    RestReds(ps, ClassOptions(ps)[k], o);
  }

  lemma FlipHalves(ps: seq<PlayerSlot>, o: Lineup)
    requires HalvesClass(ps, o)
    ensures HalvesClass(ps, Flip(o))
  {
  }

  lemma MatchRed(ps: seq<PlayerSlot>, k: nat, o: Lineup)
    requires |ps| == 4 && k < 4 && HalvesClass(ps, o) && |o.blu| == 2
    requires var r := ClassOptions(ps)[k].red;
             (r[0] == o.blu[0] && r[1] == o.blu[1]) || (r[0] == o.blu[1] && r[1] == o.blu[0])
    ensures Matches(ps, k, Flip(o))
  {
    var q := ClassOptions(ps)[k];
    OptionsHalve(ps, q);
    FlipHalves(ps, q);
    PairSame(q.red, o.blu);
    RestReds(ps, Flip(q), o);
  }

  lemma MatchFour(ps: seq<PlayerSlot>, o: Lineup)
    requires |ps| == 4 && NoRepeats(ps) && HalvesClass(ps, o)
    ensures exists k :: 0 <= k < 4 && (Matches(ps, k, o) || Matches(ps, k, Flip(o)))
  {
    BluFrom(ps, o);
    var i :| 0 <= i < 4 && ps[i] == o.blu[0];
    var j :| 0 <= j < 4 && ps[j] == o.blu[1];
    if {
      case i + j == 1 => MatchBlu(ps, 0, o);
      case i + j == 2 => MatchBlu(ps, 1, o);
      case i + j == 3 && (i == 0 || j == 0) => MatchBlu(ps, 2, o);
      case i + j == 3 && i != 0 && j != 0 => MatchRed(ps, 2, o);
      case i + j == 4 => MatchRed(ps, 1, o);
      case i + j == 5 => MatchBlu(ps, 3, o);
    }
  }

  // ----- at most one four-player class: every split is generated, up to the order of the teams

  ghost predicate AtMostOneFour(players: seq<PlayerSlot>) {
    forall c, d :: |OfClass(players, c)| == 4 && |OfClass(players, d)| == 4 ==> c == d
  }

  lemma RestrictHalves(players: seq<PlayerSlot>, l: Lineup, c: ClassName)
    requires IsSplit(players, l)
    ensures HalvesClass(OfClass(players, c), Restrict(l, c))
  {
    var ps, o := OfClass(players, c), Restrict(l, c);
    forall x ensures (multiset(o.blu) + multiset(o.red))[x] == multiset(ps)[x] {
      OfClassCount(players, c, x);
      OfClassCount(l.blu, c, x);
      OfClassCount(l.red, c, x);
      assert multiset(players)[x] == (multiset(l.blu) + multiset(l.red))[x];
    }
    assert multiset(o.blu) + multiset(o.red) == multiset(ps);
  }

  lemma FlipSplits(players: seq<PlayerSlot>, l: Lineup)
    requires IsSplit(players, l)
    ensures IsSplit(players, Flip(l))
  {
    assert multiset(l.red) + multiset(l.blu) == multiset(l.blu) + multiset(l.red);
  }

  ghost predicate HasOption(players: seq<PlayerSlot>, l: Lineup, c: ClassName)
    requires Playable(players, [c])
  {
    exists o :: o in ClassOptions(OfClass(players, c)) && SameTeams(o, Restrict(l, c))
  }

  lemma OneOrientation(players: seq<PlayerSlot>, l: Lineup, c: ClassName)
    requires Playable(players, [c]) && DistinctIds(players) && IsSplit(players, l)
    ensures HasOption(players, l, c) || HasOption(players, Flip(l), c)
    ensures |OfClass(players, c)| == 2 ==> HasOption(players, l, c) && HasOption(players, Flip(l), c)
  {
    var ps := OfClass(players, c);
    assert c in [c];
    DistinctOfClass(players, c);
    FlipSplits(players, l);
    RestrictHalves(players, l, c);
    RestrictHalves(players, Flip(l), c);
    assert Restrict(Flip(l), c) == Flip(Restrict(l, c));
    if |ps| == 2 {
      MatchTwo(ps, Restrict(l, c));
      MatchTwo(ps, Flip(Restrict(l, c)));
      var k :| 0 <= k < 2 && SameTeams(ClassOptions(ps)[k], Restrict(l, c));
      assert ClassOptions(ps)[k] in ClassOptions(ps);
      var m :| 0 <= m < 2 && SameTeams(ClassOptions(ps)[m], Restrict(Flip(l), c));
      assert ClassOptions(ps)[m] in ClassOptions(ps);
    } else {
      MatchFour(ps, Restrict(l, c));
      var k :| 0 <= k < 4 && (Matches(ps, k, Restrict(l, c)) || Matches(ps, k, Flip(Restrict(l, c))));
      assert ClassOptions(ps)[k] in ClassOptions(ps);
    }
  }

  ghost predicate Follows(players: seq<PlayerSlot>, l: Lineup, choice: Choice)
    requires forall c :: c in Classes(players) ==> c in choice
  {
    forall c :: c in Classes(players) ==> SameTeams(choice[c], Restrict(l, c))
  }

  lemma AssembledFollows(players: seq<PlayerSlot>, l: Lineup, choice: Choice)
    requires IsSplit(players, l) && Halving(players, Classes(players), choice) && Follows(players, l, choice)
    ensures SameTeams(Assemble(NOBODY, Classes(players), choice), l)
  {
    var classes := Classes(players);
    var a := Assemble(NOBODY, classes, choice);
    ClassesFacts(players);
    forall x
      ensures multiset(a.blu)[x] == multiset(l.blu)[x]
      ensures multiset(a.red)[x] == multiset(l.red)[x]
    {
      AssembleCount(players, NOBODY, classes, choice, x);
      OfClassCount(l.blu, x.gameClass, x);
      OfClassCount(l.red, x.gameClass, x);
      if x.gameClass !in classes {
        assert x !in players;
        assert x !in multiset(players);
        assert (multiset(l.blu) + multiset(l.red))[x] == 0;
      }
    }
    assert multiset(a.blu) == multiset(l.blu);
    assert multiset(a.red) == multiset(l.red);
  }

  lemma GenerateOriented(players: seq<PlayerSlot>, l: Lineup)
    requires Playable(players, Classes(players)) && IsSplit(players, l)
    requires forall c :: c in Classes(players) ==> HasOption(players, l, c)
    ensures exists g :: g in Product(NOBODY, players, Classes(players)) && SameTeams(g, l)
  {
    var classes := Classes(players);
    var choice := map c | c in classes ::
      var o :| o in ClassOptions(OfClass(players, c)) && SameTeams(o, Restrict(l, c)); o;
    ListedHalves(players, classes, choice);
    AssembledFollows(players, l, choice);
    AssembledIsGenerated(NOBODY, players, classes, choice);
  }

  lemma SplitIsGenerated(players: seq<PlayerSlot>, l: Lineup)
    requires Playable(players, Classes(players)) && DistinctIds(players) && AtMostOneFour(players)
    requires IsSplit(players, l)
    ensures exists g :: g in Product(NOBODY, players, Classes(players)) && (SameTeams(g, l) || SameTeams(g, Flip(l)))
  {
    var classes := Classes(players);
    FlipSplits(players, l);
    forall c | c in classes
      ensures HasOption(players, l, c) || HasOption(players, Flip(l), c)
      ensures |OfClass(players, c)| == 2 ==> HasOption(players, l, c) && HasOption(players, Flip(l), c)
    {
      OneOrientation(players, l, c);
    }
    if forall c :: c in classes ==> HasOption(players, l, c) {
      GenerateOriented(players, l);
    } else {
      var d :| d in classes && !HasOption(players, l, d);
      assert |OfClass(players, d)| == 4;
      forall c | c in classes ensures HasOption(players, Flip(l), c) {
        if |OfClass(players, c)| == 4 {
          assert c == d;
        }
      }
      GenerateOriented(players, Flip(l));
    }
  }

  // ----- selection

  lemma RespectingMembers(ls: seq<Lineup>, overrides: Overrides)
    ensures forall l :: l in Respecting(ls, overrides) <==> l in ls && RespectsOverrides(l, overrides)
  {
    if ls != [] {
      assert forall l :: l in ls <==> l == ls[0] || l in ls[1..];
      RespectingMembers(ls[1..], overrides);
    }
  }

  ghost predicate Ascending(ls: seq<Lineup>) {
    forall i, j :: 0 <= i < j < |ls| ==> Difference(ls[i]) <= Difference(ls[j])
  }

  lemma {:induction false} InsertMembers(l: Lineup, sorted: seq<Lineup>)
    ensures multiset(Insert(l, sorted)) == multiset(sorted) + multiset{l}
    ensures forall x :: x in Insert(l, sorted) <==> x == l || x in sorted
  {
    if sorted != [] && Difference(l) > Difference(sorted[0]) {
      assert sorted == [sorted[0]] + sorted[1..];
      InsertMembers(l, sorted[1..]);
    }
  }

  lemma AscendingFrom(x: Lineup, ls: seq<Lineup>)
    requires Ascending(ls) && forall l :: l in ls ==> Difference(x) <= Difference(l)
    ensures Ascending([x] + ls)
  {
  }

  lemma {:induction false} InsertAscends(l: Lineup, sorted: seq<Lineup>)
    requires Ascending(sorted)
    ensures Ascending(Insert(l, sorted))
  {
    assert forall x :: x in sorted ==> Difference(sorted[0]) <= Difference(x);
    if sorted == [] || Difference(l) <= Difference(sorted[0]) {
      AscendingFrom(l, sorted);
    } else {
      InsertAscends(l, sorted[1..]);
      InsertMembers(l, sorted[1..]);
      AscendingFrom(sorted[0], Insert(l, sorted[1..]));
    }
  }

  lemma SortKeeps(ls: seq<Lineup>)
    ensures Ascending(SortByDifference(ls)) && multiset(SortByDifference(ls)) == multiset(ls)
    ensures forall x :: x in SortByDifference(ls) <==> x in ls
  {
    if ls != [] {
      assert ls == [ls[0]] + ls[1..];
      SortKeeps(ls[1..]);
      InsertMembers(ls[0], SortByDifference(ls[1..]));
      InsertAscends(ls[0], SortByDifference(ls[1..]));
    }
  }

  /** The lineups of one difference, in order. */
  ghost function WithDifference(ls: seq<Lineup>, d: real): seq<Lineup> {
    if ls == [] then []
    else (if Difference(ls[0]) == d then [ls[0]] else []) + WithDifference(ls[1..], d)
  }

  lemma WithDifferenceFirst(l: Lineup, rest: seq<Lineup>, d: real)
    ensures WithDifference([l] + rest, d) == (if Difference(l) == d then [l] else []) + WithDifference(rest, d)
  {
    assert ([l] + rest)[0] == l && ([l] + rest)[1..] == rest;
  }

  lemma {:induction false} InsertIsStable(l: Lineup, sorted: seq<Lineup>, d: real)
    requires Ascending(sorted)
    ensures WithDifference(Insert(l, sorted), d) == (if Difference(l) == d then [l] else []) + WithDifference(sorted, d)
  {
    if sorted == [] || Difference(l) <= Difference(sorted[0]) {
      WithDifferenceFirst(l, sorted, d);
    } else {
      InsertIsStable(l, sorted[1..], d);
      WithDifferenceFirst(sorted[0], Insert(l, sorted[1..]), d);
      Overtakes(l, sorted[0], WithDifference(sorted[1..], d), d);
    }
  }

  /** Lineups of different difference cannot both be of difference `d`, so their order does not show. */
  lemma Overtakes(l: Lineup, first: Lineup, rest: seq<Lineup>, d: real)
    requires Difference(l) != Difference(first)
    ensures
      var a, b := if Difference(l) == d then [l] else [], if Difference(first) == d then [first] else [];
      b + (a + rest) == a + (b + rest)
  {
  }

  /** Sorting keeps lineups of equal difference in the order in which they were generated. */
  lemma {:induction false} SortIsStable(ls: seq<Lineup>, d: real)
    ensures WithDifference(SortByDifference(ls), d) == WithDifference(ls, d)
  {
    if ls != [] {
      SortIsStable(ls[1..], d);
      SortKeeps(ls[1..]);
      InsertIsStable(ls[0], SortByDifference(ls[1..]), d);
    }
  }

  /** So of all lineups with the least difference the first generated one is selected. */
  lemma SelectsFirst(players: seq<PlayerSlot>, overrides: Overrides)
    requires Playable(players, Classes(players)) && Select(players, overrides).Ok?
    ensures
      var r := Select(players, overrides).value;
      var equals := WithDifference(Respecting(Product(NOBODY, players, Classes(players)), overrides), Difference(r));
      equals != [] && r == equals[0]
  {
    ErrorMeans(players, Classes(players));
    var candidates := Respecting(Product(NOBODY, players, Classes(players)), overrides);
    SortIsStable(candidates, Difference(Select(players, overrides).value));
  }

  /** Among the generated lineups the check lets through, the selected one has the least difference. */
  lemma SelectFacts(players: seq<PlayerSlot>, overrides: Overrides)
    requires Playable(players, Classes(players))
    ensures
      var all := Product(NOBODY, players, Classes(players));
      var r := Select(players, overrides);
      && (r.Ok? <==> exists l :: l in all && RespectsOverrides(l, overrides))
      && (r.Err? ==> r.error == NoLineup)
      && (r.Ok? ==>
            && r.value in all && RespectsOverrides(r.value, overrides)
            && forall l :: l in all && RespectsOverrides(l, overrides) ==>
                 Difference(r.value) <= Difference(l) && Abs(Gap(r.value)) <= Abs(Gap(l)))
  {
    ErrorMeans(players, Classes(players));
    var all := Product(NOBODY, players, Classes(players));
    RespectingMembers(all, overrides);
    SortKeeps(Respecting(all, overrides));
    var candidates := SortByDifference(Respecting(all, overrides));
    if candidates != [] {
      assert candidates[0] in candidates;
      forall l | l in candidates
        ensures Difference(candidates[0]) <= Difference(l) && Abs(Gap(candidates[0])) <= Abs(Gap(l))
      {
        var i :| 0 <= i < |candidates| && candidates[i] == l;
        GeneratedIsSplit(players, candidates[0]);
        GeneratedIsSplit(players, l);
        DifferenceOrders(players, candidates[0], l);
      }
    }
  }

  ghost predicate Acceptable(players: seq<PlayerSlot>, overrides: Overrides, l: Lineup) {
    IsSplit(players, l) && RespectsOverrides(l, overrides)
  }

  /** The selected teams beat or match every acceptable split of the players, generated or not. */
  ghost predicate SelectsBest(players: seq<PlayerSlot>, overrides: Overrides) {
    var r := Select(players, overrides);
    && (r.Ok? <==> exists l :: Acceptable(players, overrides, l))
    && (r.Ok? ==>
          && Acceptable(players, overrides, r.value)
          && forall l :: Acceptable(players, overrides, l) ==> Abs(Gap(r.value)) <= Abs(Gap(l)))
  }

  lemma SelectBeats(players: seq<PlayerSlot>, overrides: Overrides, l: Lineup)
    requires Playable(players, Classes(players)) && DistinctIds(players) && AtMostOneFour(players)
    requires Acceptable(players, overrides, l)
    ensures Select(players, overrides).Ok?
    ensures Abs(Gap(Select(players, overrides).value)) <= Abs(Gap(l))
  {
    SelectFacts(players, overrides);
    SplitIsGenerated(players, l);
    var g :| g in Product(NOBODY, players, Classes(players)) && (SameTeams(g, l) || SameTeams(g, Flip(l)));
    if SameTeams(g, l) {
      SameTeamsRespect(g, l, overrides);
      SameGap(g, l);
    } else {
      FlipRespects(players, l, overrides);
      SameTeamsRespect(g, Flip(l), overrides);
      SameGap(g, Flip(l));
    }
  }

  lemma SelectedIsAcceptable(players: seq<PlayerSlot>, overrides: Overrides)
    requires Playable(players, Classes(players)) && Select(players, overrides).Ok?
    ensures Acceptable(players, overrides, Select(players, overrides).value)
  {
    SelectFacts(players, overrides);
    GeneratedIsSplit(players, Select(players, overrides).value);
  }

  lemma GlobalMinimality(players: seq<PlayerSlot>, overrides: Overrides)
    requires Playable(players, Classes(players)) && DistinctIds(players) && AtMostOneFour(players)
    ensures SelectsBest(players, overrides)
  {
    forall l | Acceptable(players, overrides, l)
      ensures Select(players, overrides).Ok? && Abs(Gap(Select(players, overrides).value)) <= Abs(Gap(l))
    {
      SelectBeats(players, overrides, l);
    }
    if Select(players, overrides).Ok? {
      SelectedIsAcceptable(players, overrides);
    }
  }

  lemma PermutedPlayers(players: seq<PlayerSlot>, shuffled: seq<PlayerSlot>, c: ClassName)
    requires multiset(players) == multiset(shuffled)
    ensures |OfClass(players, c)| == |OfClass(shuffled, c)|
  {
    forall x ensures multiset(OfClass(players, c))[x] == multiset(OfClass(shuffled, c))[x] {
      OfClassCount(players, c, x);
      OfClassCount(shuffled, c, x);
    }
    assert multiset(OfClass(players, c)) == multiset(OfClass(shuffled, c));
    assert |multiset(OfClass(players, c))| == |multiset(OfClass(shuffled, c))|;
  }

  /** Shuffling the players first changes neither whether teams are found nor how balanced they are. */
  lemma ShuffleDoesNotMatter(players: seq<PlayerSlot>, shuffled: seq<PlayerSlot>, overrides: Overrides)
    requires multiset(players) == multiset(shuffled) && DistinctIds(players) && DistinctIds(shuffled)
    requires Playable(players, Classes(players)) && AtMostOneFour(players)
    ensures
      var r, s := Select(players, overrides), Select(shuffled, overrides);
      r.Ok? == s.Ok? && (r.Ok? ==> Abs(Gap(r.value)) == Abs(Gap(s.value)))
  {
    forall c: ClassName ensures |OfClass(players, c)| == |OfClass(shuffled, c)| {
      PermutedPlayers(players, shuffled, c);
    }
    ClassesFacts(players);
    ClassesFacts(shuffled);
    forall c | c in Classes(shuffled) ensures c in Classes(players) {
      var x :| x in shuffled && x.gameClass == c;
      assert x in multiset(players);
      assert x in players;
    }
    GlobalMinimality(players, overrides);
    GlobalMinimality(shuffled, overrides);
    assert forall l :: Acceptable(players, overrides, l) <==> Acceptable(shuffled, overrides, l);
  }
}
