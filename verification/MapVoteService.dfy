/** The map vote service, with its fields and the stored map pool updated in place. */
module MapVoteService {
  import opened Common
  import opened MV = MapVote

  class MapVoteService {
    const cooldown: nat
    var pool: map<MapName, int>
    var mapOptions: seq<MapName>
    var votes: seq<Vote>
    var results: seq<VoteResult>
    /** The calls to getWinner and to scramble, each between two of its awaits. */
    var wins: seq<Win>
    var draws: seq<Draw>
    ghost var kept: bool
    ghost var drawn: bool
    ghost var orderly: bool

    ghost function View(): MV.MapVote
      reads this
    {
      MV.MapVote(cooldown, pool, mapOptions, votes, results, wins, draws, kept, drawn, orderly)
    }

    constructor (cooldown: nat, names: set<MapName>)
      ensures View() == NewVote(cooldown, names)
    {
      this.cooldown := cooldown;
      pool := map m | m in names :: 0;
      mapOptions, votes, results := [], [], [];
      wins, draws, kept, drawn, orderly := [], [], false, false, true;
    }

    method PublishResults()
      modifies this`results
      ensures results == Results(mapOptions, votes)
    {
      results := [];
      for i := 0 to |mapOptions|
        invariant results == Results(mapOptions, votes)[..i]
      {
        results := results + [VoteResult(mapOptions[i], VoteCount(votes, mapOptions[i]))];
      }
    }

    method VoteForMap(player: PlayerId, name: MapName, inQueue: bool) returns (refusal: Option<VoteError>)
      modifies this
      ensures refusal == VoteRefusal(old(View()), name, inQueue)
      ensures View() == MV.VoteForMap(old(View()), player, name, inQueue)
    {
      if name !in mapOptions {
        return Some(NotAnOption);
      }
      if !inQueue {
        return Some(NotInQueue);
      }
      votes := WithoutPlayer(votes, player) + [Vote(player, name)];
      PublishResults();
      return None;
    }

    method ResetPlayerVote(player: PlayerId)
      modifies this
      ensures View() == MV.ResetPlayerVote(old(View()), player)
    {
      votes := WithoutPlayer(votes, player);
      PublishResults();
    }

    /** getWinner up to its first await; `roll` is the random choice among the options with the most votes. */
    method DecideWinner(roll: nat) returns (winner: MapName)
      requires Winner(View(), roll).Some?
      modifies this`wins, this`kept, this`drawn, this`orderly
      ensures Some(winner) == Winner(old(View()), roll)
      ensures View() == Decide(old(View()), roll)
    {
      var maxVotes := MaxCount(results);
      var mapsWithMaxVotes := WithCount(results, maxVotes);
      winner := mapsWithMaxVotes[roll].name;
      wins := wins + [Win(winner, Decided)];
      kept, orderly, drawn := true, orderly && drawn, false;
    }

    /** The first write of a win: one off every positive cooldown of the pool. */
    method CoolDown(i: nat)
      requires i < |wins| && wins[i].stage == Decided
      modifies this`pool, this`wins
      ensures View() == Advance(old(View()), i)
    {
      var before := pool;
      var left := pool.Keys;
      while left != {}
        invariant left <= before.Keys == pool.Keys
        invariant forall m :: m in pool ==>
                    pool[m] == if m !in left && before[m] > 0 then before[m] - 1 else before[m]
        decreases left
        modifies this`pool
      {
        var m :| m in left;
        left := left - {m};
        if pool[m] > 0 {
          pool := pool[m := pool[m] - 1];
        }
      }
      wins := wins[i := Win(wins[i].name, Decremented)];
      assert pool == Lowered(before);
    }

    /** The second write: the winner gets the full cooldown, if it is still in the pool. */
    method SetCooldown(i: nat)
      requires i < |wins| && wins[i].stage == Decremented
      modifies this`pool, this`wins
      ensures View() == Advance(old(View()), i)
    {
      var m := wins[i].name;
      if m in pool {
        pool := pool[m := cooldown];
      }
      wins := wins[i := Win(m, Settled)];
    }

    /** scramble up to its await: `shuffled` is the order in which the shuffle will leave the maps found. */
    method FindEligible(shuffled: seq<MapName>)
      requires IsShuffle(pool, shuffled)
      modifies this`draws
      ensures View() == ReadPool(old(View()), shuffled)
    {
      draws := draws + [Draw(shuffled, AllSettled(wins), |wins|, false)];
    }

    /** The rest of scramble. */
    method PublishOptions(i: nat)
      requires i < |draws| && !draws[i].published
      modifies this
      ensures View() == Publish(old(View()), i)
    {
      var d := draws[i];
      draws := draws[i := d.(published := true)];
      mapOptions := Offered(d.shuffled);
      votes := [];
      PublishResults();
      kept, drawn := false, d.settled && d.at == |wins|;
    }
  }
}
