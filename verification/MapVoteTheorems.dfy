/** What voters and the map rotation can rely on, in every run. */
module MapVoteTheorems {
  import opened Common
  import opened MapVote

  // ----- votes

  ghost predicate Distinct<T>(s: seq<T>) {
    forall i, j :: 0 <= i < j < |s| ==> s[i] != s[j]
  }

  ghost predicate OneVoteEach(votes: seq<Vote>) {
    forall i, j :: 0 <= i < j < |votes| ==> votes[i].player != votes[j].player
  }

  ghost predicate VotesOk(v: MapVote) {
    && v.results == Results(v.options, v.votes)
    && Distinct(v.options)
    && OneVoteEach(v.votes)
    && forall i :: 0 <= i < |v.votes| ==> v.votes[i].name in v.options
  }

  lemma {:induction false} WithoutPlayerKeeps(votes: seq<Vote>, player: PlayerId)
    requires OneVoteEach(votes)
    ensures OneVoteEach(WithoutPlayer(votes, player))
    ensures forall x :: x in WithoutPlayer(votes, player) <==> x in votes && x.player != player
  {
    if votes != [] {
      var init, last := votes[..|votes|-1], votes[|votes|-1];
      WithoutPlayerKeeps(init, player);
      assert votes == init + [last];
      var w := WithoutPlayer(init, player);
      forall i | 0 <= i < |w| ensures w[i].player != last.player {
        assert w[i] in init;
      }
    }
  }

  lemma RemovalKeeps(v: MapVote, player: PlayerId)
    requires VotesOk(v)
    ensures VotesOk(ResetPlayerVote(v, player))
  {
    WithoutPlayerKeeps(v.votes, player);
    var w := WithoutPlayer(v.votes, player);
    forall i | 0 <= i < |w| ensures w[i].name in v.options {
      assert w[i] in v.votes;
    }
  }

  lemma VoteKeeps(v: MapVote, player: PlayerId, name: MapName, inQueue: bool)
    requires VotesOk(v)
    ensures VotesOk(VoteForMap(v, player, name, inQueue))
  {
    RemovalKeeps(v, player);
    WithoutPlayerKeeps(v.votes, player);
    var w := WithoutPlayer(v.votes, player);
    forall i | 0 <= i < |w| ensures w[i].player != player {
      assert w[i] in w;
    }
  }

  ghost function Total(results: seq<VoteResult>): nat {
    if results == [] then 0 else results[0].voteCount + Total(results[1..])
  }

  lemma {:induction false} TotalStep(options: seq<MapName>, votes: seq<Vote>, x: Vote)
    requires Distinct(options)
    ensures Total(Results(options, votes + [x])) ==
            Total(Results(options, votes)) + if x.name in options then 1 else 0
  {
    if options != [] {
      var rest := options[1..];
      assert (votes + [x])[..|votes|] == votes;
      assert Results(options, votes)[1..] == Results(rest, votes);
      assert Results(options, votes + [x])[1..] == Results(rest, votes + [x]);
      TotalStep(rest, votes, x);
    }
  }

  lemma {:induction false} TotalZero(options: seq<MapName>)
    ensures Total(Results(options, [])) == 0
  {
    if options != [] {
      assert Results(options, [])[1..] == Results(options[1..], []);
      TotalZero(options[1..]);
    }
  }

  lemma {:induction false} CountsAddUp(options: seq<MapName>, votes: seq<Vote>)
    requires Distinct(options) && forall i :: 0 <= i < |votes| ==> votes[i].name in options
    ensures Total(Results(options, votes)) == |votes|
  {
    if votes == [] {
      TotalZero(options);
    } else {
      var init, last := votes[..|votes|-1], votes[|votes|-1];
      assert votes == init + [last];
      CountsAddUp(options, init);
      TotalStep(options, init, last);
    }
  }

  // ----- the winner

  lemma {:induction false} MaxCountIs(results: seq<VoteResult>)
    ensures forall r :: r in results ==> r.voteCount <= MaxCount(results)
  {
    if results != [] {
      assert results == results[..|results|-1] + [results[|results|-1]];
      MaxCountIs(results[..|results|-1]);
    }
  }

  lemma {:induction false} WithCountIs(results: seq<VoteResult>, n: nat)
    ensures forall r :: r in WithCount(results, n) <==> r in results && r.voteCount == n
  {
    if results != [] {
      assert results == results[..|results|-1] + [results[|results|-1]];
      WithCountIs(results[..|results|-1], n);
    }
  }

  lemma WinnerIsUnbeaten(v: MapVote, roll: nat)
    requires v.results == Results(v.options, v.votes) && Winner(v, roll).Some?
    ensures
      var m := Winner(v, roll).value;
      m in v.options && forall o :: o in v.options ==> VoteCount(v.votes, o) <= VoteCount(v.votes, m)
  {
    var n := MaxCount(v.results);
    MaxCountIs(v.results);
    WithCountIs(v.results, n);
    var r := WithCount(v.results, n)[roll];
    assert r in WithCount(v.results, n);
    forall o | o in v.options ensures VoteCount(v.votes, o) <= n {
      var i :| 0 <= i < |v.options| && v.options[i] == o;
      assert v.results[i] in v.results;
    }
  }

  lemma {:induction false} SomeoneHasMax(results: seq<VoteResult>)
    requires results != []
    ensures WithCount(results, MaxCount(results)) != []
  {
    var init, last := results[..|results|-1], results[|results|-1];
    WithCountIs(results, MaxCount(results));
    if init == [] || last.voteCount > MaxCount(init) {
      assert last.voteCount == MaxCount(results);
      assert last in WithCount(results, MaxCount(results));
    } else {
      SomeoneHasMax(init);
      WithCountIs(init, MaxCount(init));
      var r := WithCount(init, MaxCount(init))[0];
      assert r in WithCount(init, MaxCount(init));
      assert r in results;
      assert r in WithCount(results, MaxCount(results));
    }
  }

  // ----- cooldowns

  ghost predicate BoundsOk(v: MapVote) {
    && (forall m :: m in v.pool ==> 0 <= v.pool[m] <= v.cooldown)
    && (forall o :: o in v.options ==> o in v.pool)
    && (forall i :: 0 <= i < |v.wins| ==> v.wins[i].name in v.pool)
    && (forall i :: 0 <= i < |v.draws| ==> DrawOk(v, v.draws[i]))
  }

  ghost predicate AllEligible(v: MapVote, names: seq<MapName>) {
    forall m :: m in names ==> m in v.pool && v.pool[m] == 0
  }

  /** A draw is of distinct maps; if nothing has happened since it was read, they still do not cool down. */
  ghost predicate DrawOk(v: MapVote, d: Draw) {
    && Distinct(d.shuffled) && (forall m :: m in d.shuffled ==> m in v.pool) && d.at <= |v.wins|
    && (d.settled && d.at == |v.wins| ==> AllSettled(v.wins) && AllEligible(v, d.shuffled))
  }

  ghost predicate DrawnOk(v: MapVote) {
    v.drawn ==> AllSettled(v.wins) && AllEligible(v, v.options)
  }

  ghost predicate Inv(v: MapVote) {
    VotesOk(v) && BoundsOk(v) && DrawnOk(v)
  }

  lemma DecideKeeps(v: MapVote, roll: nat)
    requires Inv(v)
    ensures Inv(Decide(v, roll))
  {
    if Winner(v, roll).Some? {
      WinnerIsUnbeaten(v, roll);
      var r := Decide(v, roll);
      forall i | 0 <= i < |r.draws| ensures DrawOk(r, r.draws[i]) {
        assert DrawOk(v, v.draws[i]);
      }
    }
  }

  lemma AdvanceKeeps(v: MapVote, i: nat)
    requires Inv(v) && i < |v.wins|
    ensures Inv(Advance(v, i))
  {
    var r := Advance(v, i);
    if v.wins[i].stage != Settled {
      assert !AllSettled(v.wins);
      forall k | 0 <= k < |r.draws| ensures DrawOk(r, r.draws[k]) {
        assert DrawOk(v, v.draws[k]);
      }
    }
  }

  lemma ReadKeeps(v: MapVote, shuffled: seq<MapName>)
    requires Inv(v)
    ensures Inv(ReadPool(v, shuffled))
  {
    if IsShuffle(v.pool, shuffled) {
      var r := ReadPool(v, shuffled);
      forall m | m in shuffled ensures m in v.pool && v.pool[m] == 0 {
        assert m in Eligible(v.pool);
      }
      forall k | 0 <= k < |r.draws| ensures DrawOk(r, r.draws[k]) {
        assert k < |v.draws| ==> DrawOk(v, v.draws[k]);
      }
    }
  }

  lemma PublishKeeps(v: MapVote, i: nat)
    requires Inv(v) && i < |v.draws|
    ensures Inv(Publish(v, i))
  {
    var d, r := v.draws[i], Publish(v, i);
    if !d.published {
      assert DrawOk(v, d);
      assert forall k :: 0 <= k < |Offered(d.shuffled)| ==> Offered(d.shuffled)[k] == d.shuffled[k];
      forall k | 0 <= k < |r.draws| ensures DrawOk(r, r.draws[k]) {
        assert DrawOk(v, v.draws[k]);
      }
    }
  }

  lemma VotingKeeps(v: MapVote, r: MapVote)
    requires Inv(v) && VotesOk(r) && r == v.(votes := r.votes, results := r.results)
    ensures Inv(r)
  {
    forall k | 0 <= k < |r.draws| ensures DrawOk(r, r.draws[k]) {
      assert DrawOk(v, v.draws[k]);
    }
  }

  lemma StepKeeps(v: MapVote, step: VoteStep)
    requires Inv(v)
    ensures Inv(Apply(v, step))
  {
    match step
    case StepVote(player, name, inQueue) =>
      VoteKeeps(v, player, name, inQueue);
      VotingKeeps(v, Apply(v, step));
    case StepLeave(player) =>
      RemovalKeeps(v, player);
      VotingKeeps(v, Apply(v, step));
    case StepDecide(roll) => DecideKeeps(v, roll);
    case StepWin(i) => if i < |v.wins| { AdvanceKeeps(v, i); }
    case StepRead(shuffled) => ReadKeeps(v, shuffled);
    case StepPublish(i) => if i < |v.draws| { PublishKeeps(v, i); }
  }

  lemma StepKeepsPool(v: MapVote, step: VoteStep)
    requires BoundsOk(v)
    ensures Apply(v, step).pool.Keys == v.pool.Keys && Apply(v, step).cooldown == v.cooldown
  {
  }

  lemma {:induction false} RunKeeps(cooldown: nat, names: set<MapName>, steps: seq<VoteStep>)
    ensures
      var v := Run(NewVote(cooldown, names), steps);
      Inv(v) && v.pool.Keys == names && v.cooldown == cooldown
  {
    if steps != [] {
      var v := Run(NewVote(cooldown, names), steps[..|steps|-1]);
      RunKeeps(cooldown, names, steps[..|steps|-1]);
      StepKeeps(v, steps[|steps|-1]);
      StepKeepsPool(v, steps[|steps|-1]);
    }
  }

  // ----- the promises

  /** A vote that counts replaces the player's earlier one and leaves everybody else's alone. */
  lemma VoteReplaces(v: MapVote, player: PlayerId, name: MapName)
    requires VotesOk(v) && VoteRefusal(v, name, true).None?
    ensures forall x :: x in VoteForMap(v, player, name, true).votes <==>
              x == Vote(player, name) || (x in v.votes && x.player != player)
    ensures forall x :: x in ResetPlayerVote(v, player).votes <==> x in v.votes && x.player != player
  {
    WithoutPlayerKeeps(v.votes, player);
  }

  /** The published results are a recount, everybody has one vote, and no vote is lost or invented. */
  lemma ResultsAreARecount(cooldown: nat, names: set<MapName>, steps: seq<VoteStep>)
    ensures
      var v := Run(NewVote(cooldown, names), steps);
      && |v.results| == |v.options|
      && (forall i :: 0 <= i < |v.options| ==>
            v.results[i].name == v.options[i] && v.results[i].voteCount == VoteCount(v.votes, v.options[i]))
      && (forall i, j :: 0 <= i < j < |v.votes| ==> v.votes[i].player != v.votes[j].player)
      && Total(v.results) == |v.votes|
  {
    RunKeeps(cooldown, names, steps);
    var v := Run(NewVote(cooldown, names), steps);
    CountsAddUp(v.options, v.votes);
  }

  /** There is a winner exactly if there is an option, and no option beats it. */
  lemma WinnerExactly(cooldown: nat, names: set<MapName>, steps: seq<VoteStep>)
    ensures
      var v := Run(NewVote(cooldown, names), steps);
      && ((exists roll :: Winner(v, roll).Some?) <==> v.options != [])
      && (forall roll :: Winner(v, roll).Some? ==>
            && Winner(v, roll).value in v.options
            && forall o :: o in v.options ==> VoteCount(v.votes, o) <= VoteCount(v.votes, Winner(v, roll).value))
  {
    RunKeeps(cooldown, names, steps);
    var v := Run(NewVote(cooldown, names), steps);
    forall roll | Winner(v, roll).Some?
      ensures
        && Winner(v, roll).value in v.options
        && forall o :: o in v.options ==> VoteCount(v.votes, o) <= VoteCount(v.votes, Winner(v, roll).value)
    {
      WinnerIsUnbeaten(v, roll);
    }
    if v.options != [] {
      SomeoneHasMax(v.results);
      assert Winner(v, 0).Some?;
    }
  }


  // ----- when the winners of the last games differ

  /** How many wins have decremented the pool, as long as only the last one can be under way. */
  function Decrements(wins: seq<Win>): nat {
    if wins != [] && wins[|wins|-1].stage == Decided then |wins| - 1 else |wins|
  }

  /** Wins do not overlap; the winners still cool down, the latest the longest; and recent winners differ. */
  ghost predicate RotationOk(v: MapVote) {
    && (forall i :: 0 <= i < |v.wins| - 1 ==> v.wins[i].stage == Settled)
    && (forall i :: 0 <= i < |v.wins| && v.wins[i].stage == Settled && Decrements(v.wins) - i <= v.cooldown ==>
          v.wins[i].name in v.pool && v.pool[v.wins[i].name] == v.cooldown - (Decrements(v.wins) - 1 - i))
    && (forall i, j :: 0 <= i < j < |v.wins| && j - i <= v.cooldown ==> v.wins[i].name != v.wins[j].name)
  }

  lemma DecideKeepsRotation(v: MapVote, roll: nat)
    requires Inv(v) && RotationOk(v) && v.drawn && Winner(v, roll).Some?
    ensures RotationOk(Decide(v, roll))
  {
    WinnerIsUnbeaten(v, roll);
    var r, m := Decide(v, roll), Winner(v, roll).value;
    assert v.pool[m] == 0;
    forall i, j | 0 <= i < j < |r.wins| && j - i <= v.cooldown ensures r.wins[i].name != r.wins[j].name {
      if j == |v.wins| {
        assert v.wins[i].stage == Settled && v.pool[v.wins[i].name] > 0;
      }
    }
  }

  lemma DecrementKeepsRotation(v: MapVote)
    requires Inv(v) && RotationOk(v) && v.wins != [] && v.wins[|v.wins|-1].stage == Decided
    ensures RotationOk(Advance(v, |v.wins| - 1))
  {
    var n := |v.wins|;
    var r := Advance(v, n - 1);
    assert Decrements(r.wins) == n && r.wins[n - 1].stage != Settled;
    assert forall k :: 0 <= k < n ==> r.wins[k].name == v.wins[k].name && (k < n - 1 ==> r.wins[k] == v.wins[k]);
    forall k | 0 <= k < n - 1 && n - k <= v.cooldown
      ensures r.wins[k].name in r.pool && r.pool[r.wins[k].name] == v.cooldown - (n - 1 - k)
    {
      assert v.pool[v.wins[k].name] == v.cooldown - (n - 2 - k) > 0;
    }
  }

  lemma SettleKeepsRotation(v: MapVote)
    requires Inv(v) && RotationOk(v) && v.wins != [] && v.wins[|v.wins|-1].stage == Decremented
    ensures RotationOk(Advance(v, |v.wins| - 1))
  {
    var n := |v.wins|;
    var r := Advance(v, n - 1);
    forall k | 0 <= k < n && n - k <= v.cooldown
      ensures r.wins[k].name in r.pool && r.pool[r.wins[k].name] == v.cooldown - (n - 1 - k)
    {
      if k < n - 1 {
        assert v.wins[k].name != v.wins[n - 1].name;
      }
    }
  }

  lemma AdvanceKeepsRotation(v: MapVote, i: nat)
    requires Inv(v) && RotationOk(v) && i < |v.wins|
    ensures RotationOk(Advance(v, i))
  {
    match v.wins[i].stage
    case Decided => DecrementKeepsRotation(v);
    case Decremented => SettleKeepsRotation(v);
    case Settled =>
  }

  lemma StepKeepsRotation(v: MapVote, step: VoteStep)
    requires Inv(v) && (v.orderly ==> RotationOk(v))
    ensures Apply(v, step).orderly ==> RotationOk(Apply(v, step))
  {
    match step
    case StepDecide(roll) => if v.orderly && v.drawn && Winner(v, roll).Some? { DecideKeepsRotation(v, roll); }
    case StepWin(i) => if v.orderly && i < |v.wins| { AdvanceKeepsRotation(v, i); }
    case _ =>
  }

  /**
    Every win decided on options that were read after the win before was settled: then no map wins
    again within `cooldown` games.
   */
  lemma {:induction false} RecentWinnersDiffer(cooldown: nat, names: set<MapName>, steps: seq<VoteStep>)
    ensures
      var v := Run(NewVote(cooldown, names), steps);
      v.orderly ==>
        RotationOk(v) && forall i, j :: 0 <= i < j < |v.wins| && j - i <= cooldown ==> v.wins[i].name != v.wins[j].name
  {
    RunKeeps(cooldown, names, steps);
    if steps != [] {
      RecentWinnersDiffer(cooldown, names, steps[..|steps|-1]);
      RunKeeps(cooldown, names, steps[..|steps|-1]);
      StepKeepsRotation(Run(NewVote(cooldown, names), steps[..|steps|-1]), steps[|steps|-1]);
    }
  }

  // ----- when no two maps cool down equally long

  ghost predicate CooldownsDiffer(v: MapVote) {
    forall m, n :: m in v.pool && n in v.pool && m != n && v.pool[m] > 0 ==> v.pool[m] != v.pool[n]
  }

  /** A win is settled while another map still has the full cooldown. */
  ghost predicate SettlesTogether(v: MapVote, step: VoteStep) {
    && step.StepWin? && step.i < |v.wins| && v.wins[step.i].stage == Decremented && v.cooldown > 0
    && exists n :: n in v.pool && n != v.wins[step.i].name && v.pool[n] == v.cooldown
  }

  lemma StepDiffersExactly(v: MapVote, step: VoteStep)
    requires Inv(v) && CooldownsDiffer(v)
    ensures CooldownsDiffer(Apply(v, step)) <==> !SettlesTogether(v, step)
  {
    if step.StepWin? && step.i < |v.wins| && v.wins[step.i].stage == Decremented {
      var m, r := v.wins[step.i].name, Apply(v, step);
      if SettlesTogether(v, step) {
        var n :| n in v.pool && n != m && v.pool[n] == v.cooldown;
        assert r.pool[m] == r.pool[n] > 0;
      }
    }
  }

  ghost predicate AlwaysDiffer(start: MapVote, steps: seq<VoteStep>) {
    CooldownsDiffer(Run(start, steps)) && (steps != [] ==> AlwaysDiffer(start, steps[..|steps|-1]))
  }

  ghost predicate NeverTogether(start: MapVote, steps: seq<VoteStep>) {
    steps != [] ==>
      NeverTogether(start, steps[..|steps|-1]) && !SettlesTogether(Run(start, steps[..|steps|-1]), steps[|steps|-1])
  }

  /** Exactly the runs without such a win keep the positive cooldowns distinct throughout. */
  lemma {:induction false} CooldownsDifferExactly(cooldown: nat, names: set<MapName>, steps: seq<VoteStep>)
    ensures AlwaysDiffer(NewVote(cooldown, names), steps) <==> NeverTogether(NewVote(cooldown, names), steps)
  {
    if steps != [] {
      var init := steps[..|steps|-1];
      CooldownsDifferExactly(cooldown, names, init);
      RunKeeps(cooldown, names, init);
      if CooldownsDiffer(Run(NewVote(cooldown, names), init)) {
        StepDiffersExactly(Run(NewVote(cooldown, names), init), steps[|steps|-1]);
      }
    }
  }

  /** A win decrements the pool while the win of another map has decremented it and is not settled. */
  ghost predicate Overlaps(v: MapVote, step: VoteStep) {
    && step.StepWin? && step.i < |v.wins| && v.wins[step.i].stage == Decided
    && exists k :: 0 <= k < |v.wins| && v.wins[k].stage == Decremented && v.wins[k].name != v.wins[step.i].name
  }

  ghost predicate NeverOverlaps(start: MapVote, steps: seq<VoteStep>) {
    steps != [] ==>
      NeverOverlaps(start, steps[..|steps|-1]) && !Overlaps(Run(start, steps[..|steps|-1]), steps[|steps|-1])
  }

  /** While a win waits to be settled, no other map has the full cooldown. */
  ghost predicate WaitsAlone(v: MapVote) {
    forall k, n :: 0 <= k < |v.wins| && v.wins[k].stage == Decremented && n in v.pool && n != v.wins[k].name ==>
      v.cooldown == 0 || v.pool[n] < v.cooldown
  }

  ghost predicate OneMapWaits(v: MapVote) {
    forall k, l :: 0 <= k < l < |v.wins| && v.wins[k].stage == Decremented && v.wins[l].stage == Decremented ==>
      v.wins[k].name == v.wins[l].name
  }

  lemma StepWaitsAlone(v: MapVote, step: VoteStep)
    requires Inv(v) && WaitsAlone(v) && OneMapWaits(v) && !Overlaps(v, step)
    ensures WaitsAlone(Apply(v, step)) && OneMapWaits(Apply(v, step)) && !SettlesTogether(v, step)
  {
  }

  /** Wins of different maps that do not overlap never settle together, however far their writes are apart. */
  lemma {:induction false} ApartWinsDiffer(cooldown: nat, names: set<MapName>, steps: seq<VoteStep>)
    requires NeverOverlaps(NewVote(cooldown, names), steps)
    ensures NeverTogether(NewVote(cooldown, names), steps)
    ensures
      var v := Run(NewVote(cooldown, names), steps);
      WaitsAlone(v) && OneMapWaits(v)
  {
    if steps != [] {
      var init := steps[..|steps|-1];
      ApartWinsDiffer(cooldown, names, init);
      RunKeeps(cooldown, names, init);
      StepWaitsAlone(Run(NewVote(cooldown, names), init), steps[|steps|-1]);
    }
  }

  /** And an overlap is enough for a collision: settling the two wins leaves two maps with the full cooldown. */
  lemma OverlapCollides(cooldown: nat, names: set<MapName>, steps: seq<VoteStep>, i: nat, k: nat)
    requires cooldown > 0
    requires
      var v := Run(NewVote(cooldown, names), steps);
      && i < |v.wins| && k < |v.wins| && v.wins[i].stage == Decided && v.wins[k].stage == Decremented
      && v.wins[i].name != v.wins[k].name
    ensures
      var v := Run(NewVote(cooldown, names), steps);
      var r := Apply(Apply(Apply(v, StepWin(i)), StepWin(k)), StepWin(i));
      && v.wins[i].name in names && v.wins[k].name in names && r.pool.Keys == names
      && r.pool[v.wins[i].name] == cooldown && r.pool[v.wins[k].name] == cooldown
  {
    RunKeeps(cooldown, names, steps);
  }

  ghost function Cooling(pool: map<MapName, int>): set<MapName> {
    set m | m in pool && pool[m] > 0
  }

  lemma {:induction false} FewDistinctValues(ms: set<MapName>, pool: map<MapName, int>, n: nat)
    requires forall m :: m in ms ==> m in pool && 0 < pool[m] <= n
    requires forall m, k :: m in ms && k in ms && m != k ==> pool[m] != pool[k]
    ensures |ms| <= n
  {
    if n == 0 {
      assert ms == {};
    } else if top :| top in ms && pool[top] == n {
      FewDistinctValues(ms - {top}, pool, n - 1);
    } else {
      FewDistinctValues(ms, pool, n - 1);
    }
  }

  lemma {:induction false} DistinctLength(s: seq<MapName>, elements: set<MapName>)
    requires Distinct(s) && forall m :: m in s <==> m in elements
    ensures |s| == |elements|
  {
    if s == [] {
      assert elements == {};
    } else {
      var last := s[|s|-1];
      assert s == s[..|s|-1] + [last];
      DistinctLength(s[..|s|-1], elements - {last});
    }
  }

  lemma FewCooling(pool: map<MapName, int>, cooldown: nat)
    requires forall m :: m in pool ==> 0 <= pool[m] <= cooldown
    requires forall m, n :: m in pool && n in pool && m != n && pool[m] > 0 ==> pool[m] != pool[n]
    ensures |Eligible(pool)| >= |pool.Keys| - cooldown
  {
    FewDistinctValues(Cooling(pool), pool, cooldown);
    assert pool.Keys == Cooling(pool) + Eligible(pool);
    assert Cooling(pool) !! Eligible(pool);
  }

  /**
    Cooldowns stay within the limit in every run.  Where no two maps cool down equally long, at most
    `cooldown` maps are out, and a draw offers three maps unless the pool is too small.
   */
  lemma ScrambleOffersEnough(cooldown: nat, names: set<MapName>, steps: seq<VoteStep>, shuffled: seq<MapName>)
    requires NeverTogether(NewVote(cooldown, names), steps)
    requires IsShuffle(Run(NewVote(cooldown, names), steps).pool, shuffled)
    ensures
      var v := Run(NewVote(cooldown, names), steps);
      && (forall m, n :: m in v.pool && n in v.pool && m != n && v.pool[m] > 0 ==> v.pool[m] != v.pool[n])
      && (forall m :: m in v.pool ==> 0 <= v.pool[m] <= cooldown)
      && |shuffled| >= |names| - cooldown
      && |Publish(ReadPool(v, shuffled), |v.draws|).options| == (if |shuffled| < 3 then |shuffled| else 3)
  {
    RunKeeps(cooldown, names, steps);
    CooldownsDifferExactly(cooldown, names, steps);
    var v := Run(NewVote(cooldown, names), steps);
    FewCooling(v.pool, cooldown);
    DistinctLength(shuffled, Eligible(v.pool));
  }

  // ----- the last winner

  ghost predicate KeptOk(v: MapVote) {
    v.kept ==> v.wins != [] && v.wins[|v.wins|-1].name in v.options
  }

  lemma StepKeepsKept(v: MapVote, step: VoteStep)
    requires Inv(v) && KeptOk(v)
    ensures KeptOk(Apply(v, step))
  {
    match step
    case StepDecide(roll) => if Winner(v, roll).Some? { WinnerIsUnbeaten(v, roll); }
    case _ =>
  }

  lemma {:induction false} RunKeepsKept(cooldown: nat, names: set<MapName>, steps: seq<VoteStep>)
    ensures KeptOk(Run(NewVote(cooldown, names), steps))
  {
    if steps != [] {
      RunKeeps(cooldown, names, steps[..|steps|-1]);
      RunKeepsKept(cooldown, names, steps[..|steps|-1]);
      StepKeepsKept(Run(NewVote(cooldown, names), steps[..|steps|-1]), steps[|steps|-1]);
    }
  }

  /**
    After orderly wins, and unless the options come from a draw that read the pool too early: the
    last winner is on offer exactly as long as the options are those it won on.
   */
  lemma LastWinnerOfferedExactly(cooldown: nat, names: set<MapName>, steps: seq<VoteStep>)
    requires cooldown > 0 && Run(NewVote(cooldown, names), steps).wins != []
    requires
      var v := Run(NewVote(cooldown, names), steps);
      v.orderly && (v.kept || v.drawn)
    ensures
      var v := Run(NewVote(cooldown, names), steps);
      v.wins[|v.wins|-1].name in v.options <==> v.kept
  {
    RunKeeps(cooldown, names, steps);
    RunKeepsKept(cooldown, names, steps);
    RecentWinnersDiffer(cooldown, names, steps);
    var v := Run(NewVote(cooldown, names), steps);
    if v.drawn {
      assert v.wins[|v.wins|-1].stage == Settled;
      assert v.pool[v.wins[|v.wins|-1].name] == cooldown;
    }
  }
}
