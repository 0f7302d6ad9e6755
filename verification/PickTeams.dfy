/** Splitting a full queue into two teams (src/games/utils/pick-teams.ts). */
module PickTeams {
  import opened Common

  datatype PlayerSlot = PlayerSlot(playerId: PlayerId, gameClass: ClassName, skill: real)

  datatype Team = Blu | Red

  datatype PlayerSlotWithTeam = PlayerSlotWithTeam(slot: PlayerSlot, team: Team)

  /** The players of team 0 and of team 1. */
  datatype Lineup = Lineup(blu: seq<PlayerSlot>, red: seq<PlayerSlot>)

  const NOBODY := Lineup([], [])

  /** Lists of players to keep on one team; `None` when the caller passes no overrides. */
  type Overrides = Option<seq<seq<PlayerId>>>

  datatype PickError = OddClass | NotImplemented | NoLineup

  // ----- lineups of one class

  function OfClass(players: seq<PlayerSlot>, c: ClassName): seq<PlayerSlot> {
    if players == [] then []
    else (if players[0].gameClass == c then [players[0]] else []) + OfClass(players[1..], c)
  }

  /** The classes played, in order of first appearance. */
  function Classes(players: seq<PlayerSlot>): seq<ClassName> {
    if players == [] then []
    else
      var before := Classes(players[..|players|-1]);
      var c := players[|players|-1].gameClass;
      if c in before then before else before + [c]
  }

  function ClassOptions(ps: seq<PlayerSlot>): seq<Lineup>
    requires |ps| == 2 || |ps| == 4
  {
    if |ps| == 2 then
      [Lineup([ps[0]], [ps[1]]), Lineup([ps[1]], [ps[0]])]
    else
      [Lineup([ps[0], ps[1]], [ps[2], ps[3]]),
       Lineup([ps[0], ps[2]], [ps[1], ps[3]]),
       Lineup([ps[0], ps[3]], [ps[1], ps[2]]),
       Lineup([ps[2], ps[3]], [ps[0], ps[1]])]
  }

  function ClassError(ps: seq<PlayerSlot>): Option<PickError> {
    if |ps| % 2 != 0 then Some(OddClass)
    else if |ps| != 2 && |ps| != 4 then Some(NotImplemented)
    else None
  }

  function FirstError(players: seq<PlayerSlot>, classes: seq<ClassName>): Option<PickError> {
    if classes == [] then None
    else if ClassError(OfClass(players, classes[0])).Some? then ClassError(OfClass(players, classes[0]))
    else FirstError(players, classes[1..])
  }

  // ----- combining the classes

  function Join(a: Lineup, b: Lineup): Lineup {
    Lineup(a.blu + b.blu, a.red + b.red)
  }

  predicate Playable(players: seq<PlayerSlot>, classes: seq<ClassName>) {
    forall c :: c in classes ==> |OfClass(players, c)| == 2 || |OfClass(players, c)| == 4
  }

  /** Every way to extend `prev` by one option of each class, in the order they are generated. */
  function Product(prev: Lineup, players: seq<PlayerSlot>, classes: seq<ClassName>): seq<Lineup>
    requires Playable(players, classes)
    decreases |classes|, 5
  {
    if classes == [] then [prev]
    else ProductOver(prev, players, ClassOptions(OfClass(players, classes[0])), classes[1..])
  }

  function ProductOver(prev: Lineup, players: seq<PlayerSlot>, options: seq<Lineup>, rest: seq<ClassName>): seq<Lineup>
    requires Playable(players, rest)
    decreases |rest| + 1, 0, |options|
  {
    if options == [] then []
    else
      ProductOver(prev, players, options[..|options|-1], rest) +
      Product(Join(prev, options[|options|-1]), players, rest)
  }

  /** The generator as the program runs it: a map filled class by class, then a recursive product. */
  method MakeAllPossibleLineups(classes: seq<ClassName>, players: seq<PlayerSlot>)
    returns (r: Result<seq<Lineup>, PickError>)
    ensures r.Err? <==> FirstError(players, classes).Some?
    ensures r.Err? ==> Some(r.error) == FirstError(players, classes)
    ensures r.Ok? ==> Playable(players, classes) && r.value == Product(NOBODY, players, classes)
  {
    var gameClassLineups: map<ClassName, seq<Lineup>> := map[];
    for i := 0 to |classes|
      invariant FirstError(players, classes) == FirstError(players, classes[i..])
      invariant forall c :: c in classes[..i] ==> ClassError(OfClass(players, c)).None?
      invariant forall c :: c in classes[..i] ==>
                  c in gameClassLineups && gameClassLineups[c] == ClassOptions(OfClass(players, c))
    {
      var ps := OfClass(players, classes[i]);
      if |ps| % 2 != 0 {
        return Err(OddClass);
      }
      if |ps| == 2 || |ps| == 4 {
        gameClassLineups := gameClassLineups[classes[i] := ClassOptions(ps)];
      } else {
        return Err(NotImplemented);
      }
    }
    assert classes[..|classes|] == classes;
    var possibleLineups := MakeLineup(classes, players, gameClassLineups, NOBODY, 0, []);
    return Ok(possibleLineups);
  }

  lemma ProductFrom(prev: Lineup, players: seq<PlayerSlot>, classes: seq<ClassName>, i: nat)
    requires i < |classes| && Playable(players, classes)
    ensures Product(prev, players, classes[i..]) ==
            ProductOver(prev, players, ClassOptions(OfClass(players, classes[i])), classes[i+1..])
  {
    assert classes[i..][0] == classes[i] && classes[i..][1..] == classes[i+1..];
  }

  lemma ProductOneMore(prev: Lineup, players: seq<PlayerSlot>, options: seq<Lineup>, k: nat, rest: seq<ClassName>)
    requires k < |options| && Playable(players, rest)
    ensures ProductOver(prev, players, options[..k+1], rest) ==
            ProductOver(prev, players, options[..k], rest) + Product(Join(prev, options[k]), players, rest)
  {
    assert options[..k+1][..k] == options[..k] && options[..k+1][k] == options[k];
  }

  /** Appends to `acc` every completion of `prev` by the classes from index `i` on. */
  method MakeLineup(classes: seq<ClassName>, ghost players: seq<PlayerSlot>,
                    gameClassLineups: map<ClassName, seq<Lineup>>, prev: Lineup, i: nat, acc: seq<Lineup>)
    returns (r: seq<Lineup>)
    requires i <= |classes| && Playable(players, classes)
    requires forall c :: c in classes ==>
               c in gameClassLineups && gameClassLineups[c] == ClassOptions(OfClass(players, c))
    ensures r == acc + Product(prev, players, classes[i..])
    decreases |classes| - i
  {
    r := acc;
    if i == |classes| {
      r := r + [prev];
    } else {
      var gcLineups := gameClassLineups[classes[i]];
      ghost var done: seq<Lineup> := [];
      for k := 0 to |gcLineups|
        invariant done == ProductOver(prev, players, gcLineups[..k], classes[i+1..])
        invariant r == acc + done
      {
        ghost var more := Product(Join(prev, gcLineups[k]), players, classes[i+1..]);
        r := MakeLineup(classes, players, gameClassLineups, Join(prev, gcLineups[k]), i + 1, r);
        Regroup(acc, done, more);
        ProductOneMore(prev, players, gcLineups, k, classes[i+1..]);
        done := done + more;
      }
      assert gcLineups[..|gcLineups|] == gcLineups;
      ProductFrom(prev, players, classes, i);
    }
  }

  lemma Regroup<T>(a: seq<T>, b: seq<T>, c: seq<T>)
    ensures (a + b) + c == a + (b + c)
  {
  }

  // ----- choosing one lineup

  function Sum(players: seq<PlayerSlot>): real {
    if players == [] then 0.0 else players[0].skill + Sum(players[1..])
  }

  /** The mean skill; of no player at all the program gets NaN, here 0. */
  function AverageSkill(players: seq<PlayerSlot>): real {
    if players == [] then 0.0 else Sum(players) / |players| as real
  }

  function Difference(l: Lineup): real {
    var d := AverageSkill(l.blu) - AverageSkill(l.red);
    if d < 0.0 then -d else d
  }

  predicate Plays(team: seq<PlayerSlot>, player: PlayerId) {
    exists i :: 0 <= i < |team| && team[i].playerId == player
  }

  function TeamOf(l: Lineup, player: PlayerId): Option<Team> {
    if Plays(l.blu, player) then Some(Blu)
    else if Plays(l.red, player) then Some(Red)
    else None
  }

  function TeamsOf(l: Lineup, friends: seq<PlayerId>): set<Team> {
    set f | f in friends && TeamOf(l, f).Some? :: TeamOf(l, f).value
  }

  predicate RespectsOverrides(l: Lineup, overrides: Overrides) {
    overrides.None? || forall i :: 0 <= i < |overrides.value| ==> |TeamsOf(l, overrides.value[i])| < 2
  }

  function Respecting(ls: seq<Lineup>, overrides: Overrides): seq<Lineup> {
    if ls == [] then []
    else (if RespectsOverrides(ls[0], overrides) then [ls[0]] else []) + Respecting(ls[1..], overrides)
  }

  /** Inserts behind lineups that are no worse, so that sorting is stable. */
  function Insert(l: Lineup, sorted: seq<Lineup>): seq<Lineup> {
    if sorted == [] || Difference(l) <= Difference(sorted[0]) then [l] + sorted
    else [sorted[0]] + Insert(l, sorted[1..])
  }

  function SortByDifference(ls: seq<Lineup>): seq<Lineup> {
    if ls == [] then [] else Insert(ls[0], SortByDifference(ls[1..]))
  }

  function WithTeam(players: seq<PlayerSlot>, team: Team): seq<PlayerSlotWithTeam> {
    seq(|players|, i requires 0 <= i < |players| => PlayerSlotWithTeam(players[i], team))
  }

  /** The lineup the program selects. */
  function Select(players: seq<PlayerSlot>, overrides: Overrides): Result<Lineup, PickError> {
    var classes := Classes(players);
    if FirstError(players, classes).Some? then Err(FirstError(players, classes).value)
    else
      ErrorMeans(players, classes);
      var candidates := SortByDifference(Respecting(Product(NOBODY, players, classes), overrides));
      if candidates == [] then Err(NoLineup) else Ok(candidates[0])
  }

  lemma ErrorMeans(players: seq<PlayerSlot>, classes: seq<ClassName>)
    ensures FirstError(players, classes).None? <==> Playable(players, classes)
  {
    if classes != [] {
      ErrorMeans(players, classes[1..]);
      assert forall c :: c in classes <==> c == classes[0] || c in classes[1..];
    }
  }

  method PickTeams(players: seq<PlayerSlot>, overrides: Overrides)
    returns (r: Result<seq<PlayerSlotWithTeam>, PickError>)
    ensures Select(players, overrides).Err? ==> r == Err(Select(players, overrides).error)
    ensures Select(players, overrides).Ok? ==>
              r == Ok(WithTeam(Select(players, overrides).value.blu, Blu) +
                      WithTeam(Select(players, overrides).value.red, Red))
    ensures Select(players, overrides).Ok? ==>
              var l := Select(players, overrides).value;
              forall i :: 0 <= i < |l.blu| + |l.red| ==>
                i < |r.value| &&
                r.value[i] == if i < |l.blu| then PlayerSlotWithTeam(l.blu[i], Blu)
                              else PlayerSlotWithTeam(l.red[i - |l.blu|], Red)
  {
    var all := MakeAllPossibleLineups(Classes(players), players);
    if all.Err? {
      return Err(all.error);
    }
    var candidates := SortByDifference(Respecting(all.value, overrides));
    if candidates == [] {
      return Err(NoLineup);
    }
    return Ok(WithTeam(candidates[0].blu, Blu) + WithTeam(candidates[0].red, Red));
  }
}
