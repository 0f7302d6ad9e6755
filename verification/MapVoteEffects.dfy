/** What a vote, a draw and a win do, and which map a roll picks. */
module MapVoteEffects {
  import opened Common
  import opened MapVote
  import opened MapVoteTheorems

  // ----- votes

  /** Every refusal of a vote: the map is looked at first. */
  lemma VoteRefusalExactly(v: MapVote, name: MapName, inQueue: bool)
    ensures
      var refusal := VoteRefusal(v, name, inQueue);
      && (refusal == Some(NotAnOption) <==> name !in v.options)
      && (refusal == Some(NotInQueue) <==> name in v.options && !inQueue)
      && (refusal == None <==> name in v.options && inQueue)
  {
  }

  /** Votes come and go only so: an accepted vote replaces the player's own, a leave takes it, new options take all. */
  lemma VotesExactly(cooldown: nat, names: set<MapName>, steps: seq<VoteStep>, step: VoteStep, x: Vote)
    ensures
      var v := Run(NewVote(cooldown, names), steps);
      x in Apply(v, step).votes <==>
      match step
      case StepVote(player, name, inQueue) =>
        if inQueue && name in v.options && x.player == player then x.name == name else x in v.votes
      case StepLeave(player) => x in v.votes && x.player != player
      case StepPublish(i) => x in v.votes && !(i < |v.draws| && !v.draws[i].published)
      case _ => x in v.votes
  {
    RunKeeps(cooldown, names, steps);
    var v := Run(NewVote(cooldown, names), steps);
    match step
    case StepVote(player, name, inQueue) => WithoutPlayerKeeps(v.votes, player);
    case StepLeave(player) => WithoutPlayerKeeps(v.votes, player);
    case _ =>
  }

  ghost function Voters(votes: seq<Vote>, name: MapName): set<PlayerId> {
    set x | x in votes && x.name == name :: x.player
  }

  lemma {:induction false} CountIsVoters(votes: seq<Vote>, name: MapName)
    requires OneVoteEach(votes)
    ensures VoteCount(votes, name) == |Voters(votes, name)|
  {
    if votes != [] {
      var init, last := votes[..|votes|-1], votes[|votes|-1];
      CountIsVoters(init, name);
      Snoc(votes);
      if last.name == name {
        assert Voters(votes, name) == Voters(init, name) + {last.player};
      } else {
        assert Voters(votes, name) == Voters(init, name);
      }
    }
  }

  /** The count published for an option is the number of players whose vote it is. */
  lemma ResultsCountPlayers(cooldown: nat, names: set<MapName>, steps: seq<VoteStep>, i: nat)
    requires i < |Run(NewVote(cooldown, names), steps).options|
    ensures
      var v := Run(NewVote(cooldown, names), steps);
      && |v.results| == |v.options|
      && v.results[i] == VoteResult(v.options[i], |set x | x in v.votes && x.name == v.options[i] :: x.player|)
  {
    RunKeeps(cooldown, names, steps);
    CountIsVoters(Run(NewVote(cooldown, names), steps).votes, Run(NewVote(cooldown, names), steps).options[i]);
  }

  // ----- the winner

  ghost predicate DistinctNames(results: seq<VoteResult>) {
    forall i, j :: 0 <= i < j < |results| ==> results[i].name != results[j].name
  }

  lemma {:induction false} WithCountDistinct(results: seq<VoteResult>, n: nat)
    requires DistinctNames(results)
    ensures DistinctNames(WithCount(results, n))
  {
    if results != [] {
      var init, last := results[..|results|-1], results[|results|-1];
      WithCountDistinct(init, n);
      WithCountIs(init, n);
      var w := WithCount(init, n);
      forall i | 0 <= i < |w| ensures w[i].name != last.name {
        assert w[i] in w;
      }
    }
  }

  ghost predicate Unbeaten(v: MapVote, m: MapName) {
    m in v.options && forall o :: o in v.options ==> |Voters(v.votes, o)| <= |Voters(v.votes, m)|
  }

  /** A map is won by some roll exactly if no option has more voters, and then by one roll only. */
  lemma RollsExactly(cooldown: nat, names: set<MapName>, steps: seq<VoteStep>, m: MapName)
    ensures
      var v := Run(NewVote(cooldown, names), steps);
      && ((exists roll :: Winner(v, roll) == Some(m)) <==> Unbeaten(v, m))
      && forall roll, other :: Winner(v, roll) == Some(m) && Winner(v, other) == Some(m) ==> roll == other
  {
    RunKeeps(cooldown, names, steps);
    var v := Run(NewVote(cooldown, names), steps);
    forall o ensures VoteCount(v.votes, o) == |Voters(v.votes, o)| {
      CountIsVoters(v.votes, o);
    }
    forall roll | Winner(v, roll) == Some(m) ensures Unbeaten(v, m) {
      WinnerIsUnbeaten(v, roll);
    }
    if Unbeaten(v, m) {
      UnbeatenWins(v, m);
    }
    WithCountDistinct(v.results, MaxCount(v.results));
  }

  lemma UnbeatenWins(v: MapVote, m: MapName)
    requires v.results == Results(v.options, v.votes) && m in v.options
    requires forall o :: o in v.options ==> VoteCount(v.votes, o) <= VoteCount(v.votes, m)
    ensures exists roll :: Winner(v, roll) == Some(m)
  {
    var n := MaxCount(v.results);
    var i :| 0 <= i < |v.options| && v.options[i] == m;
    var r := v.results[i];
    MaxCountIs(v.results);
    SomeoneHasMax(v.results);
    WithCountIs(v.results, n);
    var best := WithCount(v.results, n);
    assert best[0] in best;
    assert best[0].name in v.options;
    assert r in v.results && r in best;
    var roll :| 0 <= roll < |best| && best[roll] == r;
    assert Winner(v, roll) == Some(m);
  }

  // ----- the options

  /** A draw that publishes offers up to three of the maps it read, with no votes yet. */
  lemma PublishEffect(v: MapVote, i: nat)
    requires i < |v.draws| && !v.draws[i].published
    ensures
      var r := Apply(v, StepPublish(i));
      var read := v.draws[i].shuffled;
      && |r.options| == (if |read| < 3 then |read| else 3)
      && (forall k :: 0 <= k < |r.options| ==> r.options[k] == read[k] && r.results[k] == VoteResult(read[k], 0))
      && |r.results| == |r.options| && r.votes == [] && r.pool == v.pool && r.wins == v.wins
  {
  }

  /** Nothing but a draw changes the options, and nothing but a win the pool. */
  lemma OptionsAndPool(v: MapVote, step: VoteStep)
    ensures
      var r := Apply(v, step);
      && (!step.StepPublish? ==> r.options == v.options)
      && (!step.StepWin? ==> r.pool == v.pool)
      && (!step.StepWin? && !step.StepDecide? ==> r.wins == v.wins)
  {
  }

  /** What a win does to the cooldown of a map: first all that are positive drop, then its own is set. */
  lemma WinEffect(cooldown: nat, names: set<MapName>, steps: seq<VoteStep>, i: nat, m: MapName)
    requires m in names && i < |Run(NewVote(cooldown, names), steps).wins|
    ensures
      var v := Run(NewVote(cooldown, names), steps);
      var r := Apply(v, StepWin(i));
      var win := v.wins[i];
      && m in v.pool && m in r.pool
      && r.wins[i].stage == (if win.stage == Decided then Decremented else Settled)
      && r.pool[m] ==
         if win.stage == Decided && v.pool[m] > 0 then v.pool[m] - 1
         else if win.stage == Decremented && m == win.name then cooldown
         else v.pool[m]
  {
    RunKeeps(cooldown, names, steps);
  }
}
