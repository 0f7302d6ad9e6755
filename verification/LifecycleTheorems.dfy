/** What holds of one game in every run. */
module LifecycleTheorems {
  import opened Common
  import PT = PickTeams
  import opened GameLifecycle

  // ----- the invariant

  ghost predicate WaitingInProgress(g: Game) {
    !InProgress(g.state) ==> forall i :: 0 <= i < |g.slots| ==> g.slots[i].status != WaitingForSubstitute
  }

  /** A player's slots before the last one are replaced, and only a sole slot can wait. */
  ghost predicate LastSlotCounts(slots: seq<GameSlot>) {
    forall i, j :: 0 <= i < j < |slots| && slots[i].player == slots[j].player ==>
      slots[i].status == Replaced && slots[j].status != WaitingForSubstitute
  }

  ghost predicate Holds(slots: seq<GameSlot>, player: PlayerId) {
    exists i :: 0 <= i < |slots| && slots[i].player == player && slots[i].status != Replaced
  }

  ghost predicate Marked(g: Game, player: PlayerId) {
    player in g.activeGame && g.activeGame[player] == g.id
  }

  ghost predicate MarkedExactly(g: Game) {
    InProgress(g.state) ==> forall p :: Marked(g, p) <==> Holds(g.slots, p)
  }

  ghost predicate Inv(g: Game) {
    WaitingInProgress(g) && LastSlotCounts(g.slots) && MarkedExactly(g) && (g.freeings > 0 ==> !InProgress(g.state))
  }

  ghost predicate DistinctPlayers(picked: seq<PT.PlayerSlotWithTeam>) {
    forall i, j :: 0 <= i < j < |picked| ==> picked[i].slot.playerId != picked[j].slot.playerId
  }

  lemma CreateOk(id: GameId, picked: seq<PT.PlayerSlotWithTeam>, marks: map<PlayerId, GameId>)
    requires DistinctPlayers(picked) && forall p :: p in marks ==> marks[p] != id
    ensures Inv(Create(id, picked, marks))
  {
    var g := Create(id, picked, marks);
    forall p ensures Marked(g, p) <==> Holds(g.slots, p) {
      if Holds(g.slots, p) {
        var i :| 0 <= i < |g.slots| && g.slots[i].player == p;
        assert g.slots[i] in g.slots;
      }
      if Marked(g, p) {
        assert p in Players(g.slots);
        var s :| s in g.slots && s.player == p;
        var i :| 0 <= i < |g.slots| && g.slots[i] == s;
      }
    }
  }

  // ----- steps

  /** The one slot of a player who is found and not replaced. */
  lemma SoleSlot(slots: seq<GameSlot>, i: nat)
    requires LastSlotCounts(slots) && i < |slots|
    requires slots[i].status == WaitingForSubstitute ||
             (i == FindSlot(slots, slots[i].player) && slots[i].status != Replaced)
    ensures forall j :: 0 <= j < |slots| && j != i ==> slots[j].player != slots[i].player
  {
  }

  lemma SetSoleStatus(g: Game, i: nat, status: SlotStatus)
    requires Inv(g) && InProgress(g.state) && i < |g.slots| && status != Replaced
    requires g.slots[i].status == WaitingForSubstitute ||
             (i == FindSlot(g.slots, g.slots[i].player) && g.slots[i].status != Replaced)
    ensures
      var slots := SetStatusOf(g.slots, g.slots[i].player, status);
      slots == g.slots[i := g.slots[i].(status := status)] && Inv(g.(slots := slots))
  {
    SoleSlot(g.slots, i);
    var p := g.slots[i].player;
    var r := SetStatusOf(g.slots, p, status);
    assert r == g.slots[i := g.slots[i].(status := status)];
    forall q ensures Holds(r, q) <==> Holds(g.slots, q) {
      if Holds(g.slots, q) {
        var k :| 0 <= k < |r| && g.slots[k].player == q && g.slots[k].status != Replaced;
        assert r[k].player == q && r[k].status != Replaced;
      }
      if Holds(r, q) {
        var k :| 0 <= k < |r| && r[k].player == q && r[k].status != Replaced;
        assert g.slots[k].player == q && g.slots[k].status != Replaced;
      }
    }
  }

  /** The slots after a replacement: the old slot retired, a new one at the end. */
  lemma ReplacedSlots(g: Game, replacee: PlayerId, replacement: PlayerId)
    requires Inv(g) && ReplaceRefusal(g, replacee, replacement, false).None? && replacee != replacement
    ensures
      var i := FindWaiting(g.slots, replacee);
      var s := g.slots[i];
      && InProgress(g.state) && !Holds(g.slots, replacement)
      && ReplacePlayer(g, replacee, replacement, false).slots ==
         g.slots[i := s.(status := Replaced)] + [GameSlot(replacement, s.team, s.gameClass, Active)]
  {
    var i := FindWaiting(g.slots, replacee);
    SoleSlot(g.slots, i);
    assert InProgress(g.state);
    assert Marked(g, replacement) <==> Holds(g.slots, replacement);
  }

  lemma ReplaceKeeps(g: Game, replacee: PlayerId, replacement: PlayerId)
    requires Inv(g) && ReplaceRefusal(g, replacee, replacement, false).None? && replacee != replacement
    ensures Inv(ReplacePlayer(g, replacee, replacement, false))
  {
    ReplacedSlots(g, replacee, replacement);
    var i, n := FindWaiting(g.slots, replacee), |g.slots|;
    var r := ReplacePlayer(g, replacee, replacement, false);
    assert forall k :: 0 <= k < n && k != i ==> r.slots[k] == g.slots[k];
    assert forall k :: 0 <= k < n && g.slots[k].player == replacement ==> g.slots[k].status == Replaced;
    SoleSlot(g.slots, i);
    assert LastSlotCounts(r.slots);
    forall p ensures Marked(r, p) <==> Holds(r.slots, p) {
      if p == replacement {
        assert r.slots[n].player == p && r.slots[n].status != Replaced;
      } else if p == replacee {
        assert forall k :: 0 <= k <= n && r.slots[k].player == p ==> k == i;
      } else {
        HoldsElsewhere(g.slots, r.slots, i, p);
      }
    }
  }

  lemma HoldsElsewhere(before: seq<GameSlot>, after: seq<GameSlot>, i: nat, p: PlayerId)
    requires |after| == |before| + 1 && i < |before| && before[i].player != p && after[|before|].player != p
    requires after[i].player != p
    requires forall k :: 0 <= k < |before| && k != i ==> after[k] == before[k]
    ensures Holds(before, p) <==> Holds(after, p)
  {
    if Holds(before, p) {
      var k :| 0 <= k < |before| && before[k].player == p && before[k].status != Replaced;
      assert after[k].player == p && after[k].status != Replaced;
    }
    if Holds(after, p) {
      var k :| 0 <= k < |after| && after[k].player == p && after[k].status != Replaced;
      assert before[k].player == p && before[k].status != Replaced;
    }
  }

  lemma StepKeeps(g: Game, step: Step)
    requires Inv(g)
    ensures Inv(Apply(g, step))
  {
    match step
    case StepSubstitute(p) =>
      if SubstituteRefusal(g, p).None? { SetSoleStatus(g, FindSlot(g.slots, p), WaitingForSubstitute); }
    case StepCancel(p) =>
      if SubstituteRefusal(g, p).None? { SetSoleStatus(g, FindSlot(g.slots, p), Active); }
    case StepReplace(replacee, replacement, banned) =>
      if ReplaceRefusal(g, replacee, replacement, banned).None? {
        if replacee == replacement {
          SetSoleStatus(g, FindWaiting(g.slots, replacee), Active);
        } else {
          ReplaceKeeps(g, replacee, replacement);
        }
      }
    case StepMatchStarted =>
    case StepMatchEnded =>
    case StepFreeAll =>
    case StepForceEnd =>
    case StepOtherGame(_, _) =>
    case StepReleaseStale(_) =>
  }

  // ----- runs

  /** A game as it is created: everybody plays once, and nobody was marked with it before. */
  ghost predicate Created(g: Game) {
    && g.state == Launching && g.freeings == 0
    && (forall i :: 0 <= i < |g.slots| ==> g.slots[i].status == Active)
    && (forall i, j :: 0 <= i < j < |g.slots| ==> g.slots[i].player != g.slots[j].player)
    && (forall p :: Marked(g, p) <==> Holds(g.slots, p))
  }

  /** Creating a game from picked teams gives such a game. */
  lemma CreateIsCreated(id: GameId, picked: seq<PT.PlayerSlotWithTeam>, marks: map<PlayerId, GameId>)
    requires DistinctPlayers(picked) && forall p :: p in marks ==> marks[p] != id
    ensures Created(Create(id, picked, marks))
  {
    CreateOk(id, picked, marks);
  }

  lemma {:induction false} RunKeeps(g: Game, steps: seq<Step>)
    requires Inv(g)
    ensures Inv(Run(g, steps))
  {
    if steps != [] {
      RunKeeps(g, steps[..|steps|-1]);
      StepKeeps(Run(g, steps[..|steps|-1]), steps[|steps|-1]);
    }
  }

  ghost predicate IsSubstitutionStep(step: Step) {
    step.StepSubstitute? || step.StepCancel? || step.StepReplace?
  }

  /** A game that is over stays over, and no substitution step changes anything about it. */
  lemma {:induction false} OverIsFinal(g: Game, steps: seq<Step>, more: seq<Step>, step: Step)
    requires Created(g) && !InProgress(Run(g, steps).state)
    ensures
      var over := Run(Run(g, steps), more);
      !InProgress(over.state) && (IsSubstitutionStep(step) ==> Apply(over, step) == over)
  {
    var r := Run(g, steps);
    RunKeeps(g, steps);
    RunKeeps(r, more);
    StaysOver(r, more);
  }

  lemma {:induction false} StaysOver(g: Game, steps: seq<Step>)
    requires !InProgress(g.state)
    ensures !InProgress(Run(g, steps).state)
  {
    if steps != [] {
      StaysOver(g, steps[..|steps|-1]);
    }
  }

  /** What one player can expect of the slots, and of the mark, at any time. */
  lemma SlotsOfAPlayer(g: Game, steps: seq<Step>)
    requires Created(g)
    ensures
      var r := Run(g, steps);
      && (forall i, j :: 0 <= i < j < |r.slots| && r.slots[i].player == r.slots[j].player ==>
            r.slots[i].status == Replaced && r.slots[j].status != WaitingForSubstitute)
      && (forall i :: 0 <= i < |r.slots| && r.slots[i].status == WaitingForSubstitute ==> InProgress(r.state))
      && (InProgress(r.state) ==> forall p :: Marked(r, p) <==> Holds(r.slots, p))
  {
    RunKeeps(g, steps);
  }

  // ----- slots are never rewritten

  /** Slots are only added; of the old ones only the status moves, and never away from `Replaced`. */
  ghost predicate Grows(before: seq<GameSlot>, after: seq<GameSlot>) {
    && |before| <= |after|
    && forall i :: 0 <= i < |before| ==>
         && after[i] == before[i].(status := after[i].status)
         && (before[i].status == Replaced ==> after[i].status == Replaced)
  }

  lemma StepGrows(g: Game, step: Step)
    requires Inv(g)
    ensures Grows(g.slots, Apply(g, step).slots)
  {
    match step
    case StepSubstitute(p) =>
      if SubstituteRefusal(g, p).None? { SetSoleStatus(g, FindSlot(g.slots, p), WaitingForSubstitute); }
    case StepCancel(p) =>
      if SubstituteRefusal(g, p).None? { SetSoleStatus(g, FindSlot(g.slots, p), Active); }
    case StepReplace(replacee, replacement, banned) =>
      if ReplaceRefusal(g, replacee, replacement, banned).None? {
        if replacee == replacement {
          var i := FindWaiting(g.slots, replacee);
          assert InProgress(g.state);
          SetSoleStatus(g, i, Active);
        }
      }
    case _ =>
  }

  lemma {:induction false} SlotsOnlyGrow(g: Game, steps: seq<Step>, more: seq<Step>)
    requires Created(g)
    ensures Grows(Run(g, steps).slots, Run(Run(g, steps), more).slots)
  {
    var r := Run(g, steps);
    RunKeeps(g, steps);
    if more != [] {
      var init := more[..|more|-1];
      SlotsOnlyGrow(g, steps, init);
      RunKeeps(r, init);
      StepGrows(Run(r, init), more[|more|-1]);
    }
  }

  // ----- both teams keep their strength

  ghost function Strength(slots: seq<GameSlot>, team: PT.Team, c: ClassName): nat {
    if slots == [] then 0
    else
      var last := slots[|slots|-1];
      Strength(slots[..|slots|-1], team, c) +
      if last.team == team && last.gameClass == c && last.status != Replaced then 1 else 0
  }

  lemma {:induction false} StrengthSame(a: seq<GameSlot>, b: seq<GameSlot>, team: PT.Team, c: ClassName)
    requires |a| == |b|
    requires forall i :: 0 <= i < |a| ==>
               a[i].team == b[i].team && a[i].gameClass == b[i].gameClass &&
               (a[i].status == Replaced <==> b[i].status == Replaced)
    ensures Strength(a, team, c) == Strength(b, team, c)
  {
    if a != [] {
      StrengthSame(a[..|a|-1], b[..|b|-1], team, c);
    }
  }

  lemma {:induction false} StrengthRetired(s: seq<GameSlot>, i: nat, team: PT.Team, c: ClassName)
    requires i < |s| && s[i].status != Replaced
    ensures Strength(s, team, c) ==
            Strength(s[i := s[i].(status := Replaced)], team, c) +
            if s[i].team == team && s[i].gameClass == c then 1 else 0
  {
    var t := s[i := s[i].(status := Replaced)];
    if i == |s| - 1 {
      assert t[..|t|-1] == s[..|s|-1];
    } else {
      assert t[..|t|-1] == s[..|s|-1][i := s[i].(status := Replaced)];
      StrengthRetired(s[..|s|-1], i, team, c);
    }
  }

  lemma StrengthPushed(s: seq<GameSlot>, last: GameSlot, team: PT.Team, c: ClassName)
    ensures Strength(s + [last], team, c) == Strength(s, team, c) +
            if last.team == team && last.gameClass == c && last.status != Replaced then 1 else 0
  {
    assert (s + [last])[..|s + [last]|-1] == s;
  }

  lemma ReplaceStrength(g: Game, replacee: PlayerId, replacement: PlayerId, team: PT.Team, c: ClassName)
    requires Inv(g) && ReplaceRefusal(g, replacee, replacement, false).None? && replacee != replacement
    ensures Strength(ReplacePlayer(g, replacee, replacement, false).slots, team, c) == Strength(g.slots, team, c)
  {
    var i := FindWaiting(g.slots, replacee);
    var s := g.slots[i];
    ReplacedSlots(g, replacee, replacement);
    StrengthRetired(g.slots, i, team, c);
    StrengthPushed(g.slots[i := s.(status := Replaced)], GameSlot(replacement, s.team, s.gameClass, Active), team, c);
  }

  lemma StepStrength(g: Game, step: Step, team: PT.Team, c: ClassName)
    requires Inv(g)
    ensures Strength(Apply(g, step).slots, team, c) == Strength(g.slots, team, c)
  {
    match step
    case StepSubstitute(p) =>
      if SubstituteRefusal(g, p).None? {
        SetSoleStatus(g, FindSlot(g.slots, p), WaitingForSubstitute);
        StrengthSame(g.slots, Apply(g, step).slots, team, c);
      }
    case StepCancel(p) =>
      if SubstituteRefusal(g, p).None? {
        SetSoleStatus(g, FindSlot(g.slots, p), Active);
        StrengthSame(g.slots, Apply(g, step).slots, team, c);
      }
    case StepReplace(replacee, replacement, banned) =>
      if ReplaceRefusal(g, replacee, replacement, banned).None? {
        var i := FindWaiting(g.slots, replacee);
        if replacee == replacement {
          assert InProgress(g.state);
          SetSoleStatus(g, i, Active);
          StrengthSame(g.slots, Apply(g, step).slots, team, c);
        } else {
          ReplaceStrength(g, replacee, replacement, team, c);
        }
      }
    case StepMatchEnded => StrengthSame(g.slots, Settle(g.slots), team, c);
    case StepForceEnd => StrengthSame(g.slots, Settle(g.slots), team, c);
    case _ =>
  }

  /** On every team and in every class, as many players play as when the game was created. */
  lemma {:induction false} TeamsKeepStrength(g: Game, steps: seq<Step>, team: PT.Team, c: ClassName)
    requires Created(g)
    ensures Strength(Run(g, steps).slots, team, c) == Strength(g.slots, team, c)
  {
    if steps != [] {
      var init := steps[..|steps|-1];
      TeamsKeepStrength(g, init, team, c);
      RunKeeps(g, init);
      StepStrength(Run(g, init), steps[|steps|-1], team, c);
    }
  }

  // ----- a player who comes back

  ghost predicate WasReplaced(slots: seq<GameSlot>, player: PlayerId) {
    exists i :: 0 <= i < |slots| && slots[i].player == player && slots[i].status == Replaced
  }

  /**
    A substitute is refused for a player of a game in progress exactly if the player was replaced
    in it before: the first slot found is the replaced one.
   */
  lemma RefusedExactly(g: Game, steps: seq<Step>, player: PlayerId)
    requires Created(g) && InProgress(Run(g, steps).state) && Holds(Run(g, steps).slots, player)
    ensures SubstituteRefusal(Run(g, steps), player).Some? <==> WasReplaced(Run(g, steps).slots, player)
  {
    RunKeeps(g, steps);
    var slots := Run(g, steps).slots;
    var k := FindSlot(slots, player);
    var h :| 0 <= h < |slots| && slots[h].player == player && slots[h].status != Replaced;
    assert k <= h;
    if WasReplaced(slots, player) {
      var i :| 0 <= i < |slots| && slots[i].player == player && slots[i].status == Replaced;
      assert k <= i;
    }
  }

  /** And that is for good: who was replaced once can never be substituted again. */
  lemma ReturningPlayerCannotBeSubstituted(g: Game, steps: seq<Step>, more: seq<Step>, player: PlayerId)
    requires Created(g) && WasReplaced(Run(g, steps).slots, player)
    ensures
      var r := Run(Run(g, steps), more);
      WasReplaced(r.slots, player) && SubstituteRefusal(r, player).Some? && SubstitutePlayer(r, player) == r
  {
    RunKeeps(g, steps);
    RunKeeps(Run(g, steps), more);
    SlotsOnlyGrow(g, steps, more);
    var r := Run(Run(g, steps), more);
    var slots := Run(g, steps).slots;
    var i :| 0 <= i < |slots| && slots[i].player == player && slots[i].status == Replaced;
    assert r.slots[i].player == player && r.slots[i].status == Replaced;
    assert FindSlot(r.slots, player) <= i;
  }

  function TwoPlayers(id: GameId): Game {
    Game(id, [GameSlot(1, PT.Blu, Scout, Active), GameSlot(2, PT.Red, Scout, Active)], Launching,
         map[1 := id, 2 := id], 0)
  }

  function Swapping(): seq<Step> {
    [StepSubstitute(1), StepReplace(1, 3, false), StepSubstitute(2), StepReplace(2, 1, false)]
  }

  lemma FourSteps(g: Game, a: Step, b: Step, c: Step, d: Step)
    ensures Run(g, [a, b, c, d]) == Apply(Apply(Apply(Apply(g, a), b), c), d)
  {
    var s := [a, b, c, d];
    assert s[..3] == [a, b, c] && s[..3][..2] == [a, b] && s[..3][..2][..1] == [a] && s[..3][..2][..1][..0] == [];
    assert Run(g, [a]) == Apply(g, a);
    assert Run(g, [a, b]) == Apply(Run(g, [a]), b);
    assert Run(g, [a, b, c]) == Apply(Run(g, [a, b]), c);
  }

  lemma TwoPlayersCreated(id: GameId)
    ensures Created(TwoPlayers(id))
  {
    var g := TwoPlayers(id);
    forall p ensures Marked(g, p) <==> Holds(g.slots, p) {
      if p == 1 { assert g.slots[0].player == p; }
      if p == 2 { assert g.slots[1].player == p; }
    }
  }

  function PlayerSwapped(id: GameId): Game {
    Game(id,
         [GameSlot(1, PT.Blu, Scout, Replaced), GameSlot(2, PT.Red, Scout, Active), GameSlot(3, PT.Blu, Scout, Active)],
         Launching, map[2 := id, 3 := id], 0)
  }

  lemma SwapOut(id: GameId)
    ensures Apply(Apply(TwoPlayers(id), StepSubstitute(1)), StepReplace(1, 3, false)) == PlayerSwapped(id)
  {
    var a := Apply(TwoPlayers(id), StepSubstitute(1));
    assert a.slots == [GameSlot(1, PT.Blu, Scout, WaitingForSubstitute), GameSlot(2, PT.Red, Scout, Active)];
    var b := Apply(a, StepReplace(1, 3, false));
    assert b.slots == PlayerSwapped(id).slots;
    assert b.activeGame == PlayerSwapped(id).activeGame;
  }

  lemma SwapIn(id: GameId)
    ensures
      var r := Apply(Apply(PlayerSwapped(id), StepSubstitute(2)), StepReplace(2, 1, false));
      InProgress(r.state) && |r.slots| == 4 && r.slots[0].player == 1 && r.slots[0].status == Replaced
      && r.slots[3] == GameSlot(1, PT.Red, Scout, Active)
  {
    var c := Apply(PlayerSwapped(id), StepSubstitute(2));
    assert c.slots[1] == GameSlot(2, PT.Red, Scout, WaitingForSubstitute) && c.slots[0].status == Replaced;
    assert FindWaiting(c.slots, 2) == 1;
  }

  /** A player is replaced, comes back for another one, and cannot be substituted in a game in progress. */
  lemma ReturningPlayerExists(id: GameId)
    ensures Created(TwoPlayers(id))
    ensures
      exists steps ::
        var r := Run(TwoPlayers(id), steps);
        InProgress(r.state) && Holds(r.slots, 1) && SubstituteRefusal(r, 1) == Some(WrongGameSlotStatus)
  {
    TwoPlayersCreated(id);
    SwapOut(id);
    SwapIn(id);
    FourSteps(TwoPlayers(id), StepSubstitute(1), StepReplace(1, 3, false), StepSubstitute(2), StepReplace(2, 1, false));
    var r := Run(TwoPlayers(id), Swapping());
    assert FindSlot(r.slots, 1) == 0;
    assert Holds(r.slots, 1);
  }
}
