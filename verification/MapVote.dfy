/**
  The map vote: options drawn from a pool with cooldowns, one vote a player, one winner a game.
  A winner is decided at once, but the stored cooldowns are changed by two writes later; a draw
  reads the pool and publishes options later.  Wins and draws interleave freely.
 */
module MapVote {
  import opened Common

  type MapName = nat

  datatype Vote = Vote(player: PlayerId, name: MapName)

  datatype VoteResult = VoteResult(name: MapName, voteCount: nat)

  /** A winner is decided, every positive cooldown drops by one, the winner's is set. */
  datatype WinStage = Decided | Decremented | Settled

  datatype Win = Win(name: MapName, stage: WinStage)

  /**
    A draw that has read the pool.  `at` counts the wins decided before it, and `settled` says that
    none of them was under way.
   */
  datatype Draw = Draw(shuffled: seq<MapName>, settled: bool, at: nat, published: bool)

  /**
    `pool` gives the cooldown of every map.  `wins` lists the wins in the order of their decision.
    `kept` says that the options are those of the last decision; `drawn` that they were read after
    the last win was settled; `orderly` that this was so at every decision.
   */
  datatype MapVote = MapVote(
    cooldown: nat,
    pool: map<MapName, int>,
    options: seq<MapName>,
    votes: seq<Vote>,
    results: seq<VoteResult>,
    wins: seq<Win>,
    draws: seq<Draw>,
    kept: bool,
    drawn: bool,
    orderly: bool
  )

  const OPTION_COUNT := 3

  datatype VoteError = NotAnOption | NotInQueue

  function VoteCount(votes: seq<Vote>, name: MapName): nat {
    if votes == [] then 0
    else VoteCount(votes[..|votes|-1], name) + if votes[|votes|-1].name == name then 1 else 0
  }

  function Results(options: seq<MapName>, votes: seq<Vote>): seq<VoteResult> {
    seq(|options|, i requires 0 <= i < |options| => VoteResult(options[i], VoteCount(votes, options[i])))
  }

  function WithoutPlayer(votes: seq<Vote>, player: PlayerId): seq<Vote> {
    if votes == [] then []
    else
      var last := votes[|votes|-1];
      WithoutPlayer(votes[..|votes|-1], player) + if last.player != player then [last] else []
  }

  function WithVotes(v: MapVote, votes: seq<Vote>): MapVote {
    v.(votes := votes, results := Results(v.options, votes))
  }

  function VoteRefusal(v: MapVote, name: MapName, inQueue: bool): Option<VoteError> {
    if name !in v.options then Some(NotAnOption)
    else if !inQueue then Some(NotInQueue)
    else None
  }

  function VoteForMap(v: MapVote, player: PlayerId, name: MapName, inQueue: bool): MapVote {
    if VoteRefusal(v, name, inQueue).Some? then v
    else WithVotes(v, WithoutPlayer(v.votes, player) + [Vote(player, name)])
  }

  function ResetPlayerVote(v: MapVote, player: PlayerId): MapVote {
    WithVotes(v, WithoutPlayer(v.votes, player))
  }

  function MaxCount(results: seq<VoteResult>): nat {
    if results == [] then 0
    else
      var before := MaxCount(results[..|results|-1]);
      if results[|results|-1].voteCount > before then results[|results|-1].voteCount else before
  }

  function WithCount(results: seq<VoteResult>, n: nat): seq<VoteResult> {
    if results == [] then []
    else
      var last := results[|results|-1];
      WithCount(results[..|results|-1], n) + if last.voteCount == n then [last] else []
  }

  /** Of the options with the most votes, the one a die roll picks. */
  function Winner(v: MapVote, roll: nat): Option<MapName> {
    var best := WithCount(v.results, MaxCount(v.results));
    if roll < |best| then Some(best[roll].name) else None
  }

  /** Without an option there is no winner: the program throws. */
  function Decide(v: MapVote, roll: nat): MapVote {
    match Winner(v, roll)
    case None => v
    case Some(m) =>
      v.(wins := v.wins + [Win(m, Decided)], kept := true, drawn := false, orderly := v.orderly && v.drawn)
  }

  function Lowered(pool: map<MapName, int>): map<MapName, int> {
    map m | m in pool :: if pool[m] > 0 then pool[m] - 1 else pool[m]
  }

  /** Win `i` goes on to its next write. */
  function Advance(v: MapVote, i: nat): MapVote
    requires i < |v.wins|
  {
    var Win(m, stage) := v.wins[i];
    match stage
    case Decided => v.(pool := Lowered(v.pool), wins := v.wins[i := Win(m, Decremented)])
    case Decremented =>
      v.(pool := if m in v.pool then v.pool[m := v.cooldown] else v.pool, wins := v.wins[i := Win(m, Settled)])
    case Settled => v
  }

  predicate AllSettled(wins: seq<Win>) {
    forall i :: 0 <= i < |wins| ==> wins[i].stage == Settled
  }

  function Eligible(pool: map<MapName, int>): set<MapName> {
    set m | m in pool && pool[m] <= 0
  }

  /** An order in which the shuffle may leave the eligible maps. */
  ghost predicate IsShuffle(pool: map<MapName, int>, shuffled: seq<MapName>) {
    && (forall i, j :: 0 <= i < j < |shuffled| ==> shuffled[i] != shuffled[j])
    && forall m :: m in shuffled <==> m in Eligible(pool)
  }

  function Offered(shuffled: seq<MapName>): seq<MapName> {
    if |shuffled| <= OPTION_COUNT then shuffled else shuffled[..OPTION_COUNT]
  }

  /** A draw reads the maps that do not cool down, and shuffles them. */
  ghost function ReadPool(v: MapVote, shuffled: seq<MapName>): MapVote {
    if !IsShuffle(v.pool, shuffled) then v
    else v.(draws := v.draws + [Draw(shuffled, AllSettled(v.wins), |v.wins|, false)])
  }

  /** Draw `i` publishes its options, whatever happened to the pool meanwhile, and clears the votes. */
  function Publish(v: MapVote, i: nat): MapVote
    requires i < |v.draws|
  {
    var d := v.draws[i];
    if d.published then v
    else
      WithVotes(v.(options := Offered(d.shuffled), draws := v.draws[i := d.(published := true)],
                   kept := false, drawn := d.settled && d.at == |v.wins|), [])
  }

  // ----- runs

  datatype VoteStep =
    | StepVote(player: PlayerId, name: MapName, inQueue: bool)
    | StepLeave(player: PlayerId)
    | StepDecide(roll: nat)
    | StepWin(i: nat)
    | StepRead(shuffled: seq<MapName>)
    | StepPublish(i: nat)

  ghost function Apply(v: MapVote, step: VoteStep): MapVote {
    match step
    case StepVote(player, name, inQueue) => VoteForMap(v, player, name, inQueue)
    case StepLeave(player) => ResetPlayerVote(v, player)
    case StepDecide(roll) => Decide(v, roll)
    case StepWin(i) => if i < |v.wins| then Advance(v, i) else v
    case StepRead(shuffled) => ReadPool(v, shuffled)
    case StepPublish(i) => if i < |v.draws| then Publish(v, i) else v
  }

  ghost function Run(v: MapVote, steps: seq<VoteStep>): MapVote {
    if steps == [] then v else Apply(Run(v, steps[..|steps|-1]), steps[|steps|-1])
  }

  /** A pool nobody has played from yet. */
  function NewVote(cooldown: nat, names: set<MapName>): MapVote {
    MapVote(cooldown, map m | m in names :: 0, [], [], [], [], [], false, false, true)
  }
}
