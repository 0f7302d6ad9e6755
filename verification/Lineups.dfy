/** Which lineups the generator makes, and what every one of them looks like. */
module Lineups {
  import opened Common
  import opened PickTeams

  // ----- players by class

  lemma OfClassCount(ps: seq<PlayerSlot>, c: ClassName, x: PlayerSlot)
    ensures multiset(OfClass(ps, c))[x] == if x.gameClass == c then multiset(ps)[x] else 0
  {
    if ps != [] {
      assert ps == [ps[0]] + ps[1..];
      OfClassCount(ps[1..], c, x);
    }
  }

  lemma OfClassMembers(ps: seq<PlayerSlot>, c: ClassName)
    ensures forall x :: x in OfClass(ps, c) <==> x in ps && x.gameClass == c
  {
    forall x ensures x in OfClass(ps, c) <==> x in ps && x.gameClass == c {
      OfClassCount(ps, c, x);
      assert x in OfClass(ps, c) <==> x in multiset(OfClass(ps, c));
      assert x in ps <==> x in multiset(ps);
    }
  }

  ghost predicate NoRepeats<T>(s: seq<T>) {
    forall i, j :: 0 <= i < j < |s| ==> s[i] != s[j]
  }

  lemma ClassesFacts(players: seq<PlayerSlot>)
    ensures NoRepeats(Classes(players))
    ensures forall c :: c in Classes(players) <==> exists x :: x in players && x.gameClass == c
  {
    if players != [] {
      var init, last := players[..|players|-1], players[|players|-1];
      assert players == init + [last];
      ClassesFacts(init);
    }
  }

  ghost predicate DistinctIds(players: seq<PlayerSlot>) {
    forall i, j :: 0 <= i < j < |players| ==> players[i].playerId != players[j].playerId
  }

  // ----- splits

  /** Everybody plays, and each class is halved between the teams. */
  ghost predicate IsSplit(players: seq<PlayerSlot>, l: Lineup) {
    && multiset(l.blu) + multiset(l.red) == multiset(players)
    && forall c: ClassName :: |OfClass(l.blu, c)| == |OfClass(l.red, c)|
  }

  /** The same two teams, listed in any order. */
  ghost predicate SameTeams(a: Lineup, b: Lineup) {
    multiset(a.blu) == multiset(b.blu) && multiset(a.red) == multiset(b.red)
  }

  ghost function Flip(l: Lineup): Lineup {
    Lineup(l.red, l.blu)
  }

  ghost function Restrict(l: Lineup, c: ClassName): Lineup {
    Lineup(OfClass(l.blu, c), OfClass(l.red, c))
  }

  /** A lineup of one class that halves it; `ClassOptions` lists some of these. */
  ghost predicate HalvesClass(ps: seq<PlayerSlot>, o: Lineup) {
    multiset(o.blu) + multiset(o.red) == multiset(ps) && |o.blu| == |o.red|
  }

  // ----- one lineup per class, put together

  type Choice = map<ClassName, Lineup>

  ghost function Assemble(prev: Lineup, classes: seq<ClassName>, choice: Choice): Lineup
    requires forall c :: c in classes ==> c in choice
    decreases |classes|
  {
    if classes == [] then prev
    else Assemble(Join(prev, choice[classes[0]]), classes[1..], choice)
  }

  ghost predicate Halving(players: seq<PlayerSlot>, classes: seq<ClassName>, choice: Choice) {
    forall c :: c in classes ==> c in choice && HalvesClass(OfClass(players, c), choice[c])
  }

  ghost predicate Listed(players: seq<PlayerSlot>, classes: seq<ClassName>, choice: Choice)
    requires Playable(players, classes)
  {
    forall c :: c in classes ==> c in choice && choice[c] in ClassOptions(OfClass(players, c))
  }

  lemma SwapKeeps<T>(s: seq<T>, t: seq<T>, i: nat, j: nat)
    requires |s| == |t| && i < |s| && j < |s| && t[i] == s[j] && t[j] == s[i]
    requires forall k :: 0 <= k < |s| && k != i && k != j ==> t[k] == s[k]
    ensures multiset(t) == multiset(s)
  {
    assert t == s[i := s[j]][j := s[i]];
  }

  ghost function Deal(s: seq<PlayerSlot>): Lineup
    requires |s| == 4
  {
    Lineup([s[0], s[1]], [s[2], s[3]])
  }

  lemma DealHalves(ps: seq<PlayerSlot>, s: seq<PlayerSlot>)
    requires |ps| == 4 && |s| == 4 && multiset(s) == multiset(ps)
    ensures HalvesClass(ps, Deal(s))
  {
    assert s == Deal(s).blu + Deal(s).red;
  }

  lemma MiddleHalves(ps: seq<PlayerSlot>)
    requires |ps| == 4
    ensures HalvesClass(ps, ClassOptions(ps)[1]) && HalvesClass(ps, ClassOptions(ps)[2])
  {
    var s := [ps[0], ps[2], ps[1], ps[3]];
    var t := [ps[0], ps[3], ps[1], ps[2]];
    SwapKeeps(ps, s, 1, 2);
    SwapKeeps(s, t, 1, 3);
    DealHalves(ps, s);
    DealHalves(ps, t);
  }

  lemma OuterHalves(ps: seq<PlayerSlot>)
    requires |ps| == 4
    ensures HalvesClass(ps, ClassOptions(ps)[0]) && HalvesClass(ps, ClassOptions(ps)[3])
  {
    var s := [ps[2], ps[1], ps[0], ps[3]];
    var t := [ps[2], ps[3], ps[0], ps[1]];
    SwapKeeps(ps, s, 0, 2);
    SwapKeeps(s, t, 1, 3);
    DealHalves(ps, ps);
    DealHalves(ps, t);
  }

  lemma TwoHalve(ps: seq<PlayerSlot>)
    requires |ps| == 2
    ensures HalvesClass(ps, ClassOptions(ps)[0]) && HalvesClass(ps, ClassOptions(ps)[1])
  {
    assert ps == [ps[0]] + [ps[1]];
  }

  lemma OptionsHalve(ps: seq<PlayerSlot>, o: Lineup)
    requires |ps| == 2 || |ps| == 4
    requires o in ClassOptions(ps)
    ensures HalvesClass(ps, o)
  {
    var all := ClassOptions(ps);
    if |ps| == 2 {
      TwoHalve(ps);
      assert o == all[0] || o == all[1];
    } else {
      assert o == all[0] || o == all[1] || o == all[2] || o == all[3];
      OuterHalves(ps);
      MiddleHalves(ps);
    }
  }

  lemma ListedHalves(players: seq<PlayerSlot>, classes: seq<ClassName>, choice: Choice)
    requires Playable(players, classes) && Listed(players, classes, choice)
    ensures Halving(players, classes, choice)
  {
    forall c | c in classes ensures HalvesClass(OfClass(players, c), choice[c]) {
      OptionsHalve(OfClass(players, c), choice[c]);
    }
  }

  lemma HalvesMembers(players: seq<PlayerSlot>, c: ClassName, o: Lineup)
    requires HalvesClass(OfClass(players, c), o)
    ensures forall x :: x in o.blu || x in o.red ==> x in players && x.gameClass == c
  {
    forall x | x in o.blu || x in o.red ensures x in players && x.gameClass == c {
      assert x in multiset(o.blu) + multiset(o.red);
      assert x in OfClass(players, c);
      OfClassMembers(players, c);
    }
  }

  lemma {:induction false} AssembleCount(players: seq<PlayerSlot>, prev: Lineup, classes: seq<ClassName>,
                                         choice: Choice, x: PlayerSlot)
    requires NoRepeats(classes) && Halving(players, classes, choice)
    ensures
      var a := Assemble(prev, classes, choice);
      && multiset(a.blu)[x] == multiset(prev.blu)[x] +
           (if x.gameClass in classes then multiset(choice[x.gameClass].blu)[x] else 0)
      && multiset(a.red)[x] == multiset(prev.red)[x] +
           (if x.gameClass in classes then multiset(choice[x.gameClass].red)[x] else 0)
    decreases |classes|
  {
    if classes != [] {
      var c := classes[0];
      AssembleCount(players, Join(prev, choice[c]), classes[1..], choice, x);
      HalvesMembers(players, c, choice[c]);
      assert forall d :: d in classes <==> d == c || d in classes[1..];
      if x.gameClass == c {
        assert c !in classes[1..];
      } else {
        assert x !in choice[c].blu && x !in choice[c].red;
        assert x !in multiset(choice[c].blu) && x !in multiset(choice[c].red);
      }
    }
  }

  lemma AssembleRestrictsCount(players: seq<PlayerSlot>, choice: Choice, c: ClassName, x: PlayerSlot)
    requires Halving(players, Classes(players), choice)
    ensures
      var a := Restrict(Assemble(NOBODY, Classes(players), choice), c);
      && multiset(a.blu)[x] == (if c in Classes(players) then multiset(choice[c].blu)[x] else 0)
      && multiset(a.red)[x] == (if c in Classes(players) then multiset(choice[c].red)[x] else 0)
  {
    var classes := Classes(players);
    var a := Assemble(NOBODY, classes, choice);
    ClassesFacts(players);
    AssembleCount(players, NOBODY, classes, choice, x);
    OfClassCount(a.blu, c, x);
    OfClassCount(a.red, c, x);
    if c in classes && x.gameClass != c {
      HalvesMembers(players, c, choice[c]);
      assert x !in choice[c].blu && x !in choice[c].red;
    }
  }

  lemma AssembleRestricts(players: seq<PlayerSlot>, choice: Choice, c: ClassName)
    requires Halving(players, Classes(players), choice)
    ensures
      var a := Restrict(Assemble(NOBODY, Classes(players), choice), c);
      SameTeams(a, if c in Classes(players) then choice[c] else NOBODY)
  {
    var a := Restrict(Assemble(NOBODY, Classes(players), choice), c);
    var b := if c in Classes(players) then choice[c] else NOBODY;
    forall x
      ensures multiset(a.blu)[x] == multiset(b.blu)[x]
      ensures multiset(a.red)[x] == multiset(b.red)[x]
    {
      AssembleRestrictsCount(players, choice, c, x);
    }
    assert multiset(a.blu) == multiset(b.blu);
    assert multiset(a.red) == multiset(b.red);
  }

  lemma SameTeamsSizes(a: Lineup, b: Lineup)
    requires SameTeams(a, b)
    ensures |a.blu| == |b.blu| && |a.red| == |b.red|
  {
    assert |multiset(a.blu)| == |a.blu| && |multiset(b.blu)| == |b.blu|;
    assert |multiset(a.red)| == |a.red| && |multiset(b.red)| == |b.red|;
  }

  lemma AssembledIsSplit(players: seq<PlayerSlot>, choice: Choice)
    requires Halving(players, Classes(players), choice)
    ensures IsSplit(players, Assemble(NOBODY, Classes(players), choice))
  {
    var classes := Classes(players);
    var a := Assemble(NOBODY, classes, choice);
    ClassesFacts(players);
    forall x ensures multiset(a.blu)[x] + multiset(a.red)[x] == multiset(players)[x] {
      AssembleCount(players, NOBODY, classes, choice, x);
      OfClassCount(players, x.gameClass, x);
      if x.gameClass in classes {
        var o := choice[x.gameClass];
        assert (multiset(o.blu) + multiset(o.red))[x] == multiset(OfClass(players, x.gameClass))[x];
      } else {
        assert x !in players;
        assert x !in multiset(players);
      }
    }
    assert multiset(a.blu) + multiset(a.red) == multiset(players);
    forall c: ClassName ensures |OfClass(a.blu, c)| == |OfClass(a.red, c)| {
      AssembleRestricts(players, choice, c);
      SameTeamsSizes(Restrict(a, c), if c in classes then choice[c] else NOBODY);
    }
  }

  // ----- the generator is the product of the options

  lemma {:induction false} ProductOverHas(prev: Lineup, players: seq<PlayerSlot>, options: seq<Lineup>,
                                          rest: seq<ClassName>, l: Lineup)
    requires Playable(players, rest)
    ensures l in ProductOver(prev, players, options, rest) <==>
            exists k :: 0 <= k < |options| && l in Product(Join(prev, options[k]), players, rest)
  {
    if options != [] {
      ProductOverHas(prev, players, options[..|options|-1], rest, l);
    }
  }

  lemma {:induction false} AssembledIsGenerated(prev: Lineup, players: seq<PlayerSlot>, classes: seq<ClassName>,
                                                choice: Choice)
    requires Playable(players, classes) && Listed(players, classes, choice)
    ensures Assemble(prev, classes, choice) in Product(prev, players, classes)
    decreases |classes|
  {
    if classes != [] {
      var c := classes[0];
      var options := ClassOptions(OfClass(players, c));
      AssembledIsGenerated(Join(prev, choice[c]), players, classes[1..], choice);
      ProductOverHas(prev, players, options, classes[1..], Assemble(prev, classes, choice));
    }
  }

  lemma AssembleFrame(prev: Lineup, classes: seq<ClassName>, a: Choice, b: Choice)
    requires forall c :: c in classes ==> c in a && c in b && a[c] == b[c]
    ensures Assemble(prev, classes, a) == Assemble(prev, classes, b)
    decreases |classes|
  {
    if classes != [] {
      AssembleFrame(Join(prev, a[classes[0]]), classes[1..], a, b);
    }
  }

  lemma {:induction false} GeneratedIsAssembled(prev: Lineup, players: seq<PlayerSlot>, classes: seq<ClassName>, l: Lineup)
    returns (choice: Choice)
    requires Playable(players, classes) && NoRepeats(classes) && l in Product(prev, players, classes)
    ensures Listed(players, classes, choice) && l == Assemble(prev, classes, choice)
    decreases |classes|
  {
    choice := map[];
    if classes != [] {
      var c, rest := classes[0], classes[1..];
      var options := ClassOptions(OfClass(players, c));
      ProductOverHas(prev, players, options, rest, l);
      var k :| 0 <= k < |options| && l in Product(Join(prev, options[k]), players, rest);
      var tail := GeneratedIsAssembled(Join(prev, options[k]), players, rest, l);
      choice := tail[c := options[k]];
      assert forall d :: d in classes <==> d == c || d in rest;
      assert forall d :: d in rest ==> d != c;
      AssembleFrame(Join(prev, options[k]), rest, tail, choice);
    }
  }

  /** A lineup is generated exactly if it puts together one listed option of each class. */
  lemma GeneratedExactly(players: seq<PlayerSlot>, l: Lineup)
    requires Playable(players, Classes(players))
    ensures l in Product(NOBODY, players, Classes(players)) <==>
            exists choice: Choice :: Listed(players, Classes(players), choice) &&
                                     l == Assemble(NOBODY, Classes(players), choice)
  {
    ClassesFacts(players);
    if l in Product(NOBODY, players, Classes(players)) {
      var choice := GeneratedIsAssembled(NOBODY, players, Classes(players), l);
    }
    forall choice: Choice | Listed(players, Classes(players), choice)
      ensures Assemble(NOBODY, Classes(players), choice) in Product(NOBODY, players, Classes(players))
    {
      AssembledIsGenerated(NOBODY, players, Classes(players), choice);
    }
  }

  /** Every generated lineup is a split: all players, and half of every class on each side. */
  lemma GeneratedIsSplit(players: seq<PlayerSlot>, l: Lineup)
    requires Playable(players, Classes(players)) && l in Product(NOBODY, players, Classes(players))
    ensures IsSplit(players, l)
  {
    ClassesFacts(players);
    var choice := GeneratedIsAssembled(NOBODY, players, Classes(players), l);
    ListedHalves(players, Classes(players), choice);
    AssembledIsSplit(players, choice);
  }

  // ----- how many, and each once

  ghost function Power(base: nat, n: nat): nat {
    if n == 0 then 1 else base * Power(base, n - 1)
  }

  ghost function SizedClasses(players: seq<PlayerSlot>, classes: seq<ClassName>, n: nat): nat {
    if classes == [] then 0
    else (if |OfClass(players, classes[0])| == n then 1 else 0) + SizedClasses(players, classes[1..], n)
  }

  lemma {:induction false} ProductOverSize(prev: Lineup, players: seq<PlayerSlot>, options: seq<Lineup>,
                                           rest: seq<ClassName>, n: nat)
    requires Playable(players, rest)
    requires forall l: Lineup :: |Product(l, players, rest)| == n
    ensures |ProductOver(prev, players, options, rest)| == |options| * n
  {
    if options != [] {
      ProductOverSize(prev, players, options[..|options|-1], rest, n);
      assert |options| * n == (|options| - 1) * n + n;
    }
  }

  lemma {:induction false} ProductSize(prev: Lineup, players: seq<PlayerSlot>, classes: seq<ClassName>)
    requires Playable(players, classes)
    ensures |Product(prev, players, classes)| ==
            Power(2, SizedClasses(players, classes, 2)) * Power(4, SizedClasses(players, classes, 4))
    decreases |classes|
  {
    if classes != [] {
      var rest := classes[1..];
      var options := ClassOptions(OfClass(players, classes[0]));
      var p, q := Power(2, SizedClasses(players, rest, 2)), Power(4, SizedClasses(players, rest, 4));
      forall l: Lineup ensures |Product(l, players, rest)| == p * q {
        ProductSize(l, players, rest);
      }
      ProductOverSize(prev, players, options, rest, p * q);
      if |options| == 2 {
        assert 2 * (p * q) == (2 * p) * q;
      } else {
        assert 4 * (p * q) == p * (4 * q);
      }
    }
  }

  ghost predicate Extends(l: Lineup, prev: Lineup) {
    prev.blu <= l.blu && prev.red <= l.red
  }

  lemma {:induction false} ProductOverExtends(prev: Lineup, players: seq<PlayerSlot>, options: seq<Lineup>,
                                              rest: seq<ClassName>)
    requires Playable(players, rest)
    ensures forall l :: l in ProductOver(prev, players, options, rest) ==>
              exists k :: 0 <= k < |options| && Extends(l, Join(prev, options[k]))
  {
    forall l | l in ProductOver(prev, players, options, rest)
      ensures exists k :: 0 <= k < |options| && Extends(l, Join(prev, options[k]))
    {
      ProductOverHas(prev, players, options, rest, l);
      var k :| 0 <= k < |options| && l in Product(Join(prev, options[k]), players, rest);
      ProductExtends(Join(prev, options[k]), players, rest, l);
    }
  }

  lemma {:induction false} ProductExtends(prev: Lineup, players: seq<PlayerSlot>, classes: seq<ClassName>, l: Lineup)
    requires Playable(players, classes) && l in Product(prev, players, classes)
    ensures Extends(l, prev)
    decreases |classes|
  {
    if classes != [] {
      var options := ClassOptions(OfClass(players, classes[0]));
      ProductOverHas(prev, players, options, classes[1..], l);
      var k :| 0 <= k < |options| && l in Product(Join(prev, options[k]), players, classes[1..]);
      ProductExtends(Join(prev, options[k]), players, classes[1..], l);
    }
  }

  /** Options that send teams of one size into different directions. */
  ghost predicate Apart(options: seq<Lineup>) {
    forall i, j :: 0 <= i < j < |options| ==>
      |options[i].blu| == |options[j].blu| && options[i].blu != options[j].blu
  }

  lemma ConcatOnce<T>(a: seq<T>, b: seq<T>)
    requires NoRepeats(a) && NoRepeats(b) && forall x :: x in a ==> x !in b
    ensures NoRepeats(a + b)
  {
    forall i, j | 0 <= i < j < |a + b| ensures (a + b)[i] != (a + b)[j] {
      assert i < |a| ==> (a + b)[i] in a;
      assert j >= |a| ==> (a + b)[j] in b;
    }
  }

  lemma {:induction false} ProductOverOnce(prev: Lineup, players: seq<PlayerSlot>, options: seq<Lineup>,
                                           rest: seq<ClassName>)
    requires Playable(players, rest) && Apart(options)
    requires forall l: Lineup :: NoRepeats(Product(l, players, rest))
    ensures NoRepeats(ProductOver(prev, players, options, rest))
  {
    if options != [] {
      var n := |options| - 1;
      var init, last := options[..n], Join(prev, options[n]);
      ProductOverOnce(prev, players, init, rest);
      ProductOverExtends(prev, players, init, rest);
      forall l | l in ProductOver(prev, players, init, rest) ensures l !in Product(last, players, rest) {
        var k :| 0 <= k < n && Extends(l, Join(prev, init[k]));
        if l in Product(last, players, rest) {
          ProductExtends(last, players, rest, l);
          SamePrefix(prev.blu, options[k].blu, options[n].blu, l.blu);
        }
      }
      ConcatOnce(ProductOver(prev, players, init, rest), Product(last, players, rest));
    }
  }

  lemma SamePrefix<T>(prev: seq<T>, a: seq<T>, b: seq<T>, s: seq<T>)
    requires prev + a <= s && prev + b <= s && |a| == |b|
    ensures a == b
  {
    assert a == s[|prev|..|prev|+|a|] == b;
  }

  lemma OptionsApart(ps: seq<PlayerSlot>)
    requires (|ps| == 2 || |ps| == 4) && NoRepeats(ps)
    ensures Apart(ClassOptions(ps))
  {
    var o := ClassOptions(ps);
    if |ps| == 4 {
      forall i, j | 0 <= i < j < |o| ensures |o[i].blu| == |o[j].blu| && o[i].blu != o[j].blu {
        assert ps[0] != ps[1] && ps[0] != ps[2] && ps[0] != ps[3] && ps[1] != ps[2] && ps[1] != ps[3] && ps[2] != ps[3];
        assert o[i].blu[0] == ps[0] || i == 3;
        assert o[i].blu[1] != o[j].blu[1] || o[i].blu[0] != o[j].blu[0];
      }
    } else {
      assert o[0].blu[0] != o[1].blu[0];
    }
  }

  lemma DistinctOfClass(players: seq<PlayerSlot>, c: ClassName)
    requires DistinctIds(players)
    ensures DistinctIds(OfClass(players, c)) && NoRepeats(OfClass(players, c))
  {
    if players != [] {
      DistinctOfClass(players[1..], c);
      OfClassMembers(players[1..], c);
    }
  }

  lemma {:induction false} ProductOnce(prev: Lineup, players: seq<PlayerSlot>, classes: seq<ClassName>)
    requires Playable(players, classes) && DistinctIds(players)
    ensures NoRepeats(Product(prev, players, classes))
    decreases |classes|
  {
    if classes != [] {
      DistinctOfClass(players, classes[0]);
      OptionsApart(OfClass(players, classes[0]));
      forall l: Lineup ensures NoRepeats(Product(l, players, classes[1..])) {
        ProductOnce(l, players, classes[1..]);
      }
      ProductOverOnce(prev, players, ClassOptions(OfClass(players, classes[0])), classes[1..]);
    }
  }

  /** 2^a * 4^b lineups for a two-player and b four-player classes, none of them twice. */
  lemma GeneratedOnce(players: seq<PlayerSlot>)
    requires Playable(players, Classes(players)) && DistinctIds(players)
    ensures
      var classes := Classes(players);
      var all := Product(NOBODY, players, classes);
      && |all| == Power(2, SizedClasses(players, classes, 2)) * Power(4, SizedClasses(players, classes, 4))
      && forall i, j :: 0 <= i < j < |all| ==> all[i] != all[j]
  {
    ProductSize(NOBODY, players, Classes(players));
    ProductOnce(NOBODY, players, Classes(players));
  }

  // ----- in which order

  ghost predicate FirstSeenAt(players: seq<PlayerSlot>, classes: seq<ClassName>, k: nat, i: nat)
    requires k < |classes| && i < |players|
  {
    players[i].gameClass == classes[k] && forall j :: 0 <= j < i ==> players[j].gameClass in classes[..k]
  }

  /** The classes stand in the order in which the players show them. */
  lemma {:induction false} ClassesInOrder(players: seq<PlayerSlot>, k: nat) returns (i: nat)
    requires k < |Classes(players)|
    ensures i < |players| && FirstSeenAt(players, Classes(players), k, i)
  {
    var init := players[..|players|-1];
    if k < |Classes(init)| {
      i := ClassesInOrder(init, k);
      assert Classes(players)[..k] == Classes(init)[..k];
    } else {
      i := |init|;
      ClassesFacts(init);
      assert Classes(players)[..k] == Classes(init);
    }
  }

  lemma {:induction false} ProductOverAt(prev: Lineup, players: seq<PlayerSlot>, options: seq<Lineup>,
                                         rest: seq<ClassName>, n: nat, k: nat, j: nat)
    requires Playable(players, rest) && k < |options| && j < n
    requires forall l: Lineup :: |Product(l, players, rest)| == n
    ensures k * n + j < |ProductOver(prev, players, options, rest)|
    ensures ProductOver(prev, players, options, rest)[k * n + j] == Product(Join(prev, options[k]), players, rest)[j]
  {
    var init := options[..|options|-1];
    ProductOverSize(prev, players, init, rest, n);
    if k < |init| {
      ProductOverAt(prev, players, init, rest, n, k, j);
    }
  }

  /** The first class varies slowest: each option of it comes with all lineups of the rest, in their order. */
  lemma GeneratedInOrder(prev: Lineup, players: seq<PlayerSlot>, classes: seq<ClassName>, k: nat, j: nat)
    requires classes != [] && Playable(players, classes) && k < |ClassOptions(OfClass(players, classes[0]))|
    requires j < |Product(prev, players, classes[1..])|
    ensures
      var options, rest := ClassOptions(OfClass(players, classes[0])), classes[1..];
      var n := |Product(prev, players, rest)|;
      var next := Product(Join(prev, options[k]), players, rest);
      && |next| == n && |Product(prev, players, classes)| == |options| * n
      && k * n + j < |options| * n && Product(prev, players, classes)[k * n + j] == next[j]
  {
    var options, rest := ClassOptions(OfClass(players, classes[0])), classes[1..];
    var n := |Product(prev, players, rest)|;
    ProductSize(prev, players, rest);
    forall l: Lineup ensures |Product(l, players, rest)| == n {
      ProductSize(l, players, rest);
    }
    ProductOverSize(prev, players, options, rest, n);
    ProductOverAt(prev, players, options, rest, n, k, j);
  }
}
