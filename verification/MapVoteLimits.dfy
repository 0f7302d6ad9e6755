/** What overlapping wins and late draws do to the map rotation. */
module MapVoteLimits {
  import opened Common
  import opened MapVote
  import opened MapVoteTheorems

  ghost predicate Reached(cooldown: nat, names: set<MapName>, v: MapVote) {
    exists steps :: v == Run(NewVote(cooldown, names), steps)
  }

  lemma Then(cooldown: nat, names: set<MapName>, v: MapVote, step: VoteStep)
    requires Reached(cooldown, names, v)
    ensures Reached(cooldown, names, Apply(v, step))
  {
    var steps :| v == Run(NewVote(cooldown, names), steps);
    assert (steps + [step])[..|steps|] == steps;
    assert Apply(v, step) == Run(NewVote(cooldown, names), steps + [step]);
  }

  lemma ReachedOk(cooldown: nat, names: set<MapName>, v: MapVote)
    requires Reached(cooldown, names, v)
    ensures Inv(v) && v.pool.Keys == names && v.cooldown == cooldown
  {
    var steps :| v == Run(NewVote(cooldown, names), steps);
    RunKeeps(cooldown, names, steps);
  }

  // ----- drawing and winning

  lemma Listed(ms: set<MapName>) returns (s: seq<MapName>)
    ensures Distinct(s) && |s| == |ms| && forall m :: m in s <==> m in ms
    decreases |ms|
  {
    if ms == {} {
      s := [];
    } else {
      var m :| m in ms;
      var rest := Listed(ms - {m});
      s := [m] + rest;
    }
  }

  lemma NoVotes(options: seq<MapName>)
    ensures
      var results := Results(options, []);
      MaxCount(results) == 0 && WithCount(results, 0) == results
  {
    var results := Results(options, []);
    if options != [] {
      var init := options[..|options|-1];
      NoVotes(init);
      assert results[..|results|-1] == Results(init, []);
      assert results == results[..|results|-1] + [results[|results|-1]];
    }
  }

  lemma AnyOptionWins(v: MapVote)
    requires v.results == Results(v.options, [])
    ensures forall i :: 0 <= i < |v.options| ==> Winner(v, i) == Some(v.options[i])
  {
    NoVotes(v.options);
  }

  lemma OfferedAre(shuffled: seq<MapName>, pool: map<MapName, int>)
    requires IsShuffle(pool, shuffled) && forall m :: m in pool ==> pool[m] >= 0
    ensures forall m :: m in Offered(shuffled) ==> m in pool && pool[m] == 0
  {
    forall m | m in Offered(shuffled) ensures m in pool && pool[m] == 0 {
      assert m in shuffled;
      assert m in Eligible(pool);
    }
  }

  /** A draw that nothing falls into: the options are eligible, and every one can win. */
  lemma Draws(v: MapVote, shuffled: seq<MapName>) returns (r: MapVote)
    requires Inv(v) && IsShuffle(v.pool, shuffled)
    ensures r == Apply(Apply(v, StepRead(shuffled)), StepPublish(|v.draws|))
    ensures Inv(r) && r.pool == v.pool && r.wins == v.wins && r.cooldown == v.cooldown && r.options == Offered(shuffled)
    ensures r.orderly == v.orderly && r.drawn == AllSettled(v.wins) && |r.draws| == |v.draws| + 1
    ensures forall i :: 0 <= i < |r.options| ==> Winner(r, i) == Some(r.options[i])
    ensures forall m :: m in r.options ==> m in r.pool && r.pool[m] == 0
  {
    var a := Apply(v, StepRead(shuffled));
    ReadKeeps(v, shuffled);
    PublishKeeps(a, |v.draws|);
    r := Publish(a, |v.draws|);
    AnyOptionWins(r);
    OfferedAre(shuffled, v.pool);
  }

  /** A win from its decision to its last write, with nothing in between. */
  lemma Wins(v: MapVote, roll: nat) returns (r: MapVote)
    requires Inv(v) && Winner(v, roll).Some?
    ensures r == Apply(Apply(Apply(v, StepDecide(roll)), StepWin(|v.wins|)), StepWin(|v.wins|))
    ensures Inv(r) && r.cooldown == v.cooldown && r.pool.Keys == v.pool.Keys
    ensures forall m :: m in v.pool ==>
              r.pool[m] == if Some(m) == Winner(v, roll) then v.cooldown
                           else if v.pool[m] > 0 then v.pool[m] - 1 else v.pool[m]
  {
    WinnerIsUnbeaten(v, roll);
    DecideKeeps(v, roll);
    var a := Decide(v, roll);
    AdvanceKeeps(a, |v.wins|);
    var b := Advance(a, |v.wins|);
    AdvanceKeeps(b, |v.wins|);
    r := Advance(b, |v.wins|);
  }

  // ----- the price of two maps with the full cooldown

  /** Some continuation leaves fewer maps to draw from than the cooldown allows for. */
  ghost predicate CanRunShort(v: MapVote) {
    exists more :: |Eligible(Run(v, more).pool)| < |v.pool| - v.cooldown
  }

  lemma ShortNow(v: MapVote)
    requires |Eligible(v.pool)| < |v.pool| - v.cooldown
    ensures CanRunShort(v)
  {
    assert Run(v, []) == v;
  }

  lemma RunThen(v: MapVote, steps: seq<VoteStep>, last: VoteStep)
    ensures Run(v, steps + [last]) == Apply(Run(v, steps), last)
  {
    assert (steps + [last])[..|steps|] == steps;
  }

  lemma {:induction false} RunMore(v: MapVote, steps: seq<VoteStep>, more: seq<VoteStep>)
    ensures Run(v, steps + more) == Run(Run(v, steps), more)
  {
    if more == [] {
      assert steps + more == steps;
    } else {
      var init, last := more[..|more|-1], more[|more|-1];
      RunMore(v, steps, init);
      RunThen(v, steps + init, last);
      RunThen(Run(v, steps), init, last);
      Snoc(more);
      AppendLater(steps, init, last);
    }
  }

  lemma ShortLater(v: MapVote, step: VoteStep)
    requires BoundsOk(v) && CanRunShort(Apply(v, step))
    ensures CanRunShort(v)
  {
    StepKeepsPool(v, step);
    var r := Apply(v, step);
    var more :| |Eligible(Run(r, more).pool)| < |r.pool| - r.cooldown;
    RunMore(v, [step], more);
    RunThen(v, [], step);
    assert [] + [step] == [step];
    assert |r.pool| == |r.pool.Keys| == |v.pool.Keys| == |v.pool|;
    assert |Eligible(Run(v, [step] + more).pool)| < |v.pool| - v.cooldown;
  }

  lemma Crowded(v: MapVote, ms: set<MapName>)
    requires ms <= v.pool.Keys && |ms| > v.cooldown && forall m :: m in ms ==> v.pool[m] > 0
    ensures |Eligible(v.pool)| < |v.pool| - v.cooldown
  {
    assert Eligible(v.pool) <= v.pool.Keys - ms;
    SubsetSize(Eligible(v.pool), v.pool.Keys - ms);
    assert |v.pool.Keys - ms| == |v.pool.Keys| - |ms|;
  }

  lemma SubsetSize(a: set<MapName>, b: set<MapName>)
    requires a <= b
    ensures |a| <= |b|
  {
    assert b == a + (b - a);
  }

  /** Too many maps that cool down long enough: some more wins, one at a time, and too few are left. */
  lemma {:induction false} RunsShort(v: MapVote, ms: set<MapName>, k: nat)
    requires Inv(v) && |v.pool| > v.cooldown && k <= v.cooldown
    requires ms <= v.pool.Keys && |ms| + k > v.cooldown && forall m :: m in ms ==> v.pool[m] > k
    ensures CanRunShort(v)
    decreases k
  {
    if k == 0 {
      Crowded(v, ms);
      ShortNow(v);
    } else if Eligible(v.pool) == {} {
      ShortNow(v);
    } else {
      var shuffled := Listed(Eligible(v.pool));
      var d := Draws(v, shuffled);
      var x := d.options[0];
      var r := Wins(d, 0);
      assert x !in ms;
      assert |ms + {x}| == |ms| + 1;
      RunsShort(r, ms + {x}, k - 1);
      BackThroughWin(d, 0);
      BackThroughDraw(v, shuffled);
    }
  }

  lemma BackThroughWin(v: MapVote, roll: nat)
    requires Inv(v)
    requires CanRunShort(Apply(Apply(Apply(v, StepDecide(roll)), StepWin(|v.wins|)), StepWin(|v.wins|)))
    ensures CanRunShort(v)
  {
    var a := Apply(v, StepDecide(roll));
    StepKeeps(v, StepDecide(roll));
    StepKeeps(a, StepWin(|v.wins|));
    ShortLater(Apply(a, StepWin(|v.wins|)), StepWin(|v.wins|));
    ShortLater(a, StepWin(|v.wins|));
    ShortLater(v, StepDecide(roll));
  }

  lemma BackThroughDraw(v: MapVote, shuffled: seq<MapName>)
    requires Inv(v) && CanRunShort(Apply(Apply(v, StepRead(shuffled)), StepPublish(|v.draws|)))
    ensures CanRunShort(v)
  {
    StepKeeps(v, StepRead(shuffled));
    ShortLater(Apply(v, StepRead(shuffled)), StepPublish(|v.draws|));
    ShortLater(v, StepRead(shuffled));
  }

  ghost predicate BothFull(v: MapVote) {
    exists m, n :: m in v.pool && n in v.pool && m != n && v.pool[m] == v.cooldown && v.pool[n] == v.cooldown
  }

  lemma FullRunsShort(v: MapVote)
    requires Inv(v) && v.cooldown > 0 && |v.pool| > v.cooldown && BothFull(v)
    ensures CanRunShort(v)
  {
    var m, n :| m in v.pool && n in v.pool && m != n && v.pool[m] == v.cooldown && v.pool[n] == v.cooldown;
    assert |{m, n}| == 2;
    RunsShort(v, {m, n}, v.cooldown - 1);
  }

  /**
    The condition of ScrambleOffersEnough cannot be dropped: once two wins have settled together,
    some continuation leaves fewer than pool size minus cooldown maps to draw from.
   */
  lemma TogetherRunsShort(cooldown: nat, names: set<MapName>, steps: seq<VoteStep>, step: VoteStep)
    requires |names| > cooldown && SettlesTogether(Run(NewVote(cooldown, names), steps), step)
    ensures CanRunShort(Apply(Run(NewVote(cooldown, names), steps), step))
  {
    RunKeeps(cooldown, names, steps);
    var v := Run(NewVote(cooldown, names), steps);
    var n :| n in v.pool && n != v.wins[step.i].name && v.pool[n] == v.cooldown;
    StepKeeps(v, step);
    StepKeepsPool(v, step);
    var r := Apply(v, step);
    assert |r.pool| == |r.pool.Keys| == |names|;
    assert r.pool[n] == r.pool[v.wins[step.i].name] == cooldown;
    FullRunsShort(r);
  }

  // ----- two wins that overlap

  /** The first options of a new vote; every map can be among them. */
  lemma FirstDraw(cooldown: nat, names: set<MapName>) returns (d: MapVote, shuffled: seq<MapName>)
    ensures Reached(cooldown, names, d) && d.cooldown == cooldown && d.pool == NewVote(cooldown, names).pool
    ensures IsShuffle(d.pool, shuffled) && |shuffled| == |names| && d.options == Offered(shuffled)
    ensures d.wins == [] && |d.draws| == 1 && d.drawn && d.orderly && Distinct(d.options)
    ensures forall i :: 0 <= i < |d.options| ==> Winner(d, i) == Some(d.options[i])
  {
    var start := NewVote(cooldown, names);
    assert start == Run(start, []);
    RunKeeps(cooldown, names, []);
    assert Eligible(start.pool) == names;
    shuffled := Listed(names);
    d := Draws(start, shuffled);
    Then(cooldown, names, start, StepRead(shuffled));
    Then(cooldown, names, Apply(start, StepRead(shuffled)), StepPublish(0));
  }

  /**
    One queue launched twice decides two winners before the first is stored.  From any new vote with
    a cooldown and two maps, the two decisions can differ, and then both maps get the full cooldown.
   */
  lemma OverlappingWinsCollide(cooldown: nat, names: set<MapName>)
    requires cooldown > 0 && |names| >= 2
    ensures exists v :: Reached(cooldown, names, v) && BothFull(v) && |v.wins| == 2 && AllSettled(v.wins)
  {
    var d, shuffled := FirstDraw(cooldown, names);
    var a := Apply(d, StepDecide(0));
    Then(cooldown, names, d, StepDecide(0));
    assert Winner(a, 1) == Winner(d, 1);
    var b := Apply(a, StepDecide(1));
    Then(cooldown, names, a, StepDecide(1));
    assert b.wins == [Win(d.options[0], Decided), Win(d.options[1], Decided)];
    BothDecidedCollide(cooldown, names, b);
  }

  lemma BothDecidedCollide(cooldown: nat, names: set<MapName>, v: MapVote)
    requires cooldown > 0 && Reached(cooldown, names, v)
    requires |v.wins| == 2 && v.wins[0].stage == v.wins[1].stage == Decided && v.wins[0].name != v.wins[1].name
    ensures exists r :: Reached(cooldown, names, r) && BothFull(r) && |r.wins| == 2 && AllSettled(r.wins)
  {
    var a := Apply(v, StepWin(1));
    Then(cooldown, names, v, StepWin(1));
    var b := Apply(a, StepWin(0));
    Then(cooldown, names, a, StepWin(0));
    var c := Apply(b, StepWin(1));
    Then(cooldown, names, b, StepWin(1));
    var r := Apply(c, StepWin(0));
    Then(cooldown, names, c, StepWin(0));
    BothSettle(v);
    BothFullNow(cooldown, names, a);
    assert Reached(cooldown, names, r) && BothFull(r);
  }

  lemma BothFullNow(cooldown: nat, names: set<MapName>, v: MapVote)
    requires cooldown > 0 && Reached(cooldown, names, v)
    requires |v.wins| == 2 && v.wins[0].name != v.wins[1].name
    requires v.wins[0].stage == Decided && v.wins[1].stage == Decremented
    ensures BothFull(Apply(Apply(Apply(v, StepWin(0)), StepWin(1)), StepWin(0)))
  {
    ReachedOk(cooldown, names, v);
    var steps :| v == Run(NewVote(cooldown, names), steps);
    OverlapCollides(cooldown, names, steps, 0, 1);
    var r := Apply(Apply(Apply(v, StepWin(0)), StepWin(1)), StepWin(0));
    StepKeeps(v, StepWin(0));
    assert r.cooldown == cooldown;
    Collided(r, v.wins[0].name, v.wins[1].name);
  }

  lemma BothSettle(v: MapVote)
    requires |v.wins| == 2 && v.wins[0].stage == v.wins[1].stage == Decided
    ensures
      var r := Apply(Apply(Apply(Apply(v, StepWin(1)), StepWin(0)), StepWin(1)), StepWin(0));
      |r.wins| == 2 && AllSettled(r.wins)
  {
  }

  lemma Collided(v: MapVote, m: MapName, n: MapName)
    requires m in v.pool && n in v.pool && m != n && v.pool[m] == v.pool[n] == v.cooldown > 0
    ensures BothFull(v) && !CooldownsDiffer(v)
  {
  }

  /** So with more maps than the cooldown, some run has too few left to draw from. */
  lemma TooFewCanBeLeft(cooldown: nat, names: set<MapName>)
    requires cooldown > 0 && |names| >= 2 && |names| > cooldown
    ensures exists v :: Reached(cooldown, names, v) && |Eligible(v.pool)| < |names| - cooldown
  {
    OverlappingWinsCollide(cooldown, names);
    var v :| Reached(cooldown, names, v) && BothFull(v);
    ReachedOk(cooldown, names, v);
    FullRunsShort(v);
    var more :| |Eligible(Run(v, more).pool)| < |v.pool| - v.cooldown;
    var steps :| v == Run(NewVote(cooldown, names), steps);
    RunMore(NewVote(cooldown, names), steps, more);
    assert Reached(cooldown, names, Run(v, more));
    assert |v.pool| == |v.pool.Keys|;
  }

  // ----- draws that read too early, or not at all

  lemma WinsOnce(cooldown: nat, names: set<MapName>, v: MapVote) returns (r: MapVote)
    requires Reached(cooldown, names, v) && Winner(v, 0).Some? && Winner(v, 0).value in v.pool
    ensures Reached(cooldown, names, r)
    ensures r == v.(pool := r.pool, wins := v.wins + [Win(Winner(v, 0).value, Settled)], kept := true, drawn := false,
                    orderly := v.orderly && v.drawn)
    ensures r.pool.Keys == v.pool.Keys && r.pool[Winner(v, 0).value] == v.cooldown
  {
    var n := |v.wins|;
    var a := Apply(v, StepDecide(0));
    Then(cooldown, names, v, StepDecide(0));
    var b := Apply(a, StepWin(n));
    Then(cooldown, names, a, StepWin(n));
    r := Apply(b, StepWin(n));
    Then(cooldown, names, b, StepWin(n));
    assert r.wins == v.wins + [Win(Winner(v, 0).value, Settled)];
  }

  /** Without a draw in between, the cooldown does not stop the same map from winning again. */
  lemma UndrawnWinnerCanRepeat(cooldown: nat, names: set<MapName>)
    requires names != {}
    ensures exists v ::
              && Reached(cooldown, names, v) && |v.wins| == 2 && AllSettled(v.wins)
              && v.wins[0].name == v.wins[1].name
  {
    var d, shuffled := FirstDraw(cooldown, names);
    ReachedOk(cooldown, names, d);
    WinnerIsUnbeaten(d, 0);
    var w := WinsOnce(cooldown, names, d);
    assert Winner(w, 0) == Winner(d, 0);
    var r := WinsOnce(cooldown, names, w);
    assert r.wins == [Win(d.options[0], Settled), Win(d.options[0], Settled)];
  }

  /** A draw has read the pool, and then a map wins on the options before it. */
  lemma WonMeanwhile(cooldown: nat, names: set<MapName>) returns (w: MapVote, shuffled: seq<MapName>)
    requires names != {}
    ensures Reached(cooldown, names, w) && w.orderly && w.cooldown == cooldown && shuffled != []
    ensures w.wins == [Win(shuffled[0], Settled)] && shuffled[0] in w.pool && w.pool[shuffled[0]] == cooldown
    ensures |w.draws| == 2 && w.draws[1] == Draw(shuffled, true, 0, false)
  {
    var d;
    d, shuffled := FirstDraw(cooldown, names);
    ReachedOk(cooldown, names, d);
    var a := Apply(d, StepRead(shuffled));
    Then(cooldown, names, d, StepRead(shuffled));
    assert a == d.(draws := d.draws + [Draw(shuffled, true, 0, false)]);
    assert Winner(a, 0) == Winner(d, 0);
    WinnerIsUnbeaten(d, 0);
    w := WinsOnce(cooldown, names, a);
  }

  /** Published after it, the draw offers the winner again. */
  lemma LateDrawOffersWinner(cooldown: nat, names: set<MapName>)
    requires cooldown > 0 && names != {}
    ensures
      exists v ::
        && Reached(cooldown, names, v) && v.orderly && AllSettled(v.wins) && |v.wins| == 1
        && !v.kept && v.wins[0].name in v.options && v.wins[0].name !in Eligible(v.pool)
  {
    var w, shuffled := WonMeanwhile(cooldown, names);
    var late := Apply(w, StepPublish(1));
    Then(cooldown, names, w, StepPublish(1));
    assert late.options == Offered(shuffled) && late.options[0] == shuffled[0];
    assert shuffled[0] in late.options && shuffled[0] !in Eligible(late.pool);
    assert late.wins == w.wins && late.orderly && !late.kept;
  }
}
