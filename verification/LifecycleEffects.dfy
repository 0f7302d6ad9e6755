/** What each call does to one game: which calls are refused, which slot moves, who is marked, who is freed. */
module LifecycleEffects {
  import opened Common
  import PT = PickTeams
  import opened GameLifecycle
  import opened LifecycleTheorems

  ghost predicate HasSlot(slots: seq<GameSlot>, player: PlayerId) {
    exists i :: 0 <= i < |slots| && slots[i].player == player
  }

  ghost predicate Waits(slots: seq<GameSlot>, player: PlayerId) {
    exists i :: 0 <= i < |slots| && slots[i].player == player && slots[i].status == WaitingForSubstitute
  }

  /** The player still has a slot to play, in a game that goes on, and was never replaced in it. */
  ghost predicate Substitutable(g: Game, player: PlayerId) {
    InProgress(g.state) && HasSlot(g.slots, player) && !WasReplaced(g.slots, player)
  }

  // ----- refusals

  /** Every refusal of a substitute, or of cancelling one, and when it is given. */
  lemma SubstituteRefusalExactly(g: Game, steps: seq<Step>, player: PlayerId)
    requires Created(g)
    ensures
      var r := Run(g, steps);
      var refusal := SubstituteRefusal(r, player);
      && (refusal == Some(PlayerNotInThisGame) <==> !HasSlot(r.slots, player))
      && (refusal == Some(GameInWrongState) <==> HasSlot(r.slots, player) && !InProgress(r.state))
      && (refusal == Some(WrongGameSlotStatus) <==> InProgress(r.state) && WasReplaced(r.slots, player))
      && (refusal == None <==> Substitutable(r, player))
  {
    RunKeeps(g, steps);
    FirstSlot(Run(g, steps).slots, player);
  }

  /** The first slot of a player is a replaced one exactly if the player was replaced at all. */
  lemma FirstSlot(slots: seq<GameSlot>, player: PlayerId)
    requires LastSlotCounts(slots)
    ensures
      var k := FindSlot(slots, player);
      && (k < |slots| <==> HasSlot(slots, player))
      && (WasReplaced(slots, player) <==> k < |slots| && slots[k].status == Replaced)
  {
    var k := FindSlot(slots, player);
    if i :| 0 <= i < |slots| && slots[i].player == player && slots[i].status == Replaced {
      assert k <= i;
    }
  }

  /** Every refusal of a replacement, and when it is given: a mark of any game keeps a player out. */
  lemma ReplaceRefusalExactly(g: Game, replacee: PlayerId, replacement: PlayerId, banned: bool)
    ensures
      var refusal := ReplaceRefusal(g, replacee, replacement, banned);
      var involved := replacee != replacement && exists other :: (replacement, other) in g.activeGame.Items;
      && (refusal == Some(PlayerIsBanned) <==> banned)
      && (refusal == Some(PlayerNotInThisGame) <==> !banned && !Waits(g.slots, replacee))
      && (refusal == Some(PlayerInvolvedInGame) <==> !banned && Waits(g.slots, replacee) && involved)
      && (refusal == None <==> !banned && Waits(g.slots, replacee) && !involved)
  {
    var k := FindWaiting(g.slots, replacee);
    if replacement in g.activeGame {
      assert (replacement, g.activeGame[replacement]) in g.activeGame.Items;
    }
  }

  // ----- substitutions

  /** A substitute is looked for in exactly the slot the player still has, or nothing happens. */
  lemma SubstituteEffect(g: Game, steps: seq<Step>, player: PlayerId, i: nat)
    requires Created(g)
    requires i < |Run(g, steps).slots| && Run(g, steps).slots[i].player == player
    ensures
      var r := Run(g, steps);
      Apply(r, StepSubstitute(player)) ==
      if Substitutable(r, player) then r.(slots := r.slots[i := r.slots[i].(status := WaitingForSubstitute)]) else r
  {
    var r := Run(g, steps);
    RunKeeps(g, steps);
    SubstituteRefusalExactly(g, steps, player);
    if Substitutable(r, player) {
      SoleSlot(r.slots, FindSlot(r.slots, player));
      SetSoleStatus(r, i, WaitingForSubstitute);
      assert r.slots == r.slots[i := r.slots[i]];
    }
  }

  /** Cancelling makes exactly that slot active again. */
  lemma CancelEffect(g: Game, steps: seq<Step>, player: PlayerId, i: nat)
    requires Created(g)
    requires i < |Run(g, steps).slots| && Run(g, steps).slots[i].player == player
    ensures
      var r := Run(g, steps);
      Apply(r, StepCancel(player)) ==
      if Substitutable(r, player) then r.(slots := r.slots[i := r.slots[i].(status := Active)]) else r
  {
    var r := Run(g, steps);
    RunKeeps(g, steps);
    SubstituteRefusalExactly(g, steps, player);
    if Substitutable(r, player) {
      SoleSlot(r.slots, FindSlot(r.slots, player));
      SetSoleStatus(r, i, Active);
      assert r.slots == r.slots[i := r.slots[i]];
    }
  }

  /** Who substitutes: the own slot is taken back, or it is retired and a new player gets one like it. */
  lemma ReplaceEffect(g: Game, steps: seq<Step>, replacee: PlayerId, replacement: PlayerId, banned: bool, i: nat)
    requires Created(g) && i < |Run(g, steps).slots|
    requires Run(g, steps).slots[i].player == replacee && Run(g, steps).slots[i].status == WaitingForSubstitute
    ensures
      var r := Run(g, steps);
      var s := r.slots[i];
      var n := Apply(r, StepReplace(replacee, replacement, banned));
      if banned || (replacee != replacement && replacement in r.activeGame) then n == r
      else if replacee == replacement then n == r.(slots := r.slots[i := s.(status := Active)])
      else && n.slots == r.slots[i := s.(status := Replaced)] + [GameSlot(replacement, s.team, s.gameClass, Active)]
           && n == r.(slots := n.slots, activeGame := n.activeGame)
           && Marked(n, replacement) && replacee !in n.activeGame
           && forall p :: p != replacement && p != replacee ==> SameMark(r, n, p)
  {
    var r := Run(g, steps);
    RunKeeps(g, steps);
    SoleSlot(r.slots, i);
    assert FindWaiting(r.slots, replacee) == i;
    if replacee == replacement {
      SetSoleStatus(r, i, Active);
    } else if !banned && replacement !in r.activeGame {
      ReplacedSlots(r, replacee, replacement);
    }
  }

  // ----- marks

  ghost predicate SameMark(a: Game, b: Game, p: PlayerId) {
    (p in b.activeGame <==> p in a.activeGame) && (p in a.activeGame ==> b.activeGame[p] == a.activeGame[p])
  }

  /** The player takes part in another game. */
  ghost predicate MarkedElsewhere(g: Game, p: PlayerId) {
    p in g.activeGame && g.activeGame[p] != g.id
  }

  /** The step frees players of this game, this one among them. */
  ghost predicate Frees(g: Game, step: Step, p: PlayerId) {
    match step
    case StepMatchEnded =>
      g.state == Started && exists i :: 0 <= i < |g.slots| && g.slots[i].player == p && g.slots[i].gameClass == Medic
    case StepFreeAll => g.freeings > 0 && HasSlot(g.slots, p)
    case StepForceEnd => HasSlot(g.slots, p)
    case _ => false
  }

  lemma PlayersHaveSlots(slots: seq<GameSlot>, p: PlayerId)
    ensures p in Players(slots) <==> HasSlot(slots, p)
    ensures p in Medics(slots) <==> exists i :: 0 <= i < |slots| && slots[i].player == p && slots[i].gameClass == Medic
  {
    if p in Players(slots) {
      var s :| s in slots && s.player == p;
    }
    if i :| 0 <= i < |slots| && slots[i].player == p {
      assert slots[i] in slots;
    }
    if p in Medics(slots) {
      var s :| s in slots && s.player == p && s.gameClass == Medic;
      var i :| 0 <= i < |slots| && slots[i] == s;
    }
    if i :| 0 <= i < |slots| && slots[i].player == p && slots[i].gameClass == Medic {
      assert slots[i] in slots;
    }
  }

  /** Freeing takes away exactly the marks of the players concerned, whatever game they name. */
  lemma FreedExactly(g: Game, step: Step, p: PlayerId)
    requires step.StepMatchEnded? || step.StepFreeAll? || step.StepForceEnd?
    ensures
      var n := Apply(g, step);
      if Frees(g, step, p) then p !in n.activeGame else SameMark(g, n, p)
  {
    PlayersHaveSlots(g.slots, p);
  }

  /**
    In every run, a step of this game touches a mark of another game exactly if it frees the
    player, who has then a slot here that was replaced.  No substitution ever does.
   */
  lemma OtherMarksExactly(g: Game, steps: seq<Step>, step: Step, p: PlayerId)
    requires Created(g) && !step.StepOtherGame? && MarkedElsewhere(Run(g, steps), p)
    ensures
      var r := Run(g, steps);
      && (!SameMark(r, Apply(r, step), p) <==> Frees(r, step, p))
      && (Frees(r, step, p) && InProgress(r.state) ==> WasReplaced(r.slots, p))
  {
    var r := Run(g, steps);
    RunKeeps(g, steps);
    if Frees(r, step, p) && InProgress(r.state) {
      assert !Holds(r.slots, p);
    }
    match step
    case StepMatchEnded => FreedExactly(r, step, p);
    case StepFreeAll => FreedExactly(r, step, p);
    case StepForceEnd => FreedExactly(r, step, p);
    case StepReplace(replacee, replacement, banned) => ReplaceSparesOthers(r, replacee, replacement, banned, p);
    case _ =>
  }

  lemma ReplaceSparesOthers(g: Game, replacee: PlayerId, replacement: PlayerId, banned: bool, p: PlayerId)
    requires Inv(g) && MarkedElsewhere(g, p)
    ensures SameMark(g, ReplacePlayer(g, replacee, replacement, banned), p)
  {
    if ReplaceRefusal(g, replacee, replacement, banned).None? && replacee != replacement {
      var i := FindWaiting(g.slots, replacee);
      assert InProgress(g.state);
      assert Holds(g.slots, replacee);
      assert Marked(g, replacee);
    }
  }

  lemma ThreeSteps(g: Game, a: Step, b: Step, c: Step)
    ensures Run(g, [a, b, c]) == Apply(Apply(Apply(g, a), b), c)
  {
    var s := [a, b, c];
    assert s[..2] == [a, b] && [a, b][..1] == [a] && [a][..0] == [];
    assert Run(g, [a]) == Apply(g, a);
    assert Run(g, [a, b]) == Apply(Run(g, [a]), b);
  }

  lemma SwappedIsFreed(id: GameId, other: GameId)
    requires id != other
    ensures
      var r := Apply(PlayerSwapped(id), StepOtherGame(1, Some(other)));
      MarkedElsewhere(r, 1) && r.activeGame[1] == other && 1 !in Apply(r, StepForceEnd).activeGame
  {
    var r := Apply(PlayerSwapped(id), StepOtherGame(1, Some(other)));
    assert r.slots[0].player == 1;
    FreedExactly(r, StepForceEnd, 1);
  }

  /** Ending a game can take away the mark of another game that goes on: the player was replaced here first. */
  lemma EndCanFreeOtherGame(id: GameId, other: GameId)
    requires id != other
    ensures Created(TwoPlayers(id))
    ensures
      exists steps ::
        var r := Run(TwoPlayers(id), steps);
        MarkedElsewhere(r, 1) && r.activeGame[1] == other && 1 !in Apply(r, StepForceEnd).activeGame
  {
    TwoPlayersCreated(id);
    SwapOut(id);
    var g := TwoPlayers(id);
    var steps := [StepSubstitute(1), StepReplace(1, 3, false), StepOtherGame(1, Some(other))];
    ThreeSteps(g, steps[0], steps[1], steps[2]);
    SwappedIsFreed(id, other);
    assert Run(g, steps) == Apply(PlayerSwapped(id), steps[2]);
  }

  // ----- once the game is over

  /** Only players with a slot are marked, and none when the game is over and nobody is left to be freed. */
  ghost predicate FreedAtTheEnd(g: Game) {
    && (forall p :: Marked(g, p) ==> HasSlot(g.slots, p))
    && (!InProgress(g.state) && g.freeings == 0 ==> forall p :: !Marked(g, p))
  }

  lemma HasSlotGrows(before: seq<GameSlot>, after: seq<GameSlot>, p: PlayerId)
    requires Grows(before, after) && HasSlot(before, p)
    ensures HasSlot(after, p)
  {
    var i :| 0 <= i < |before| && before[i].player == p;
    assert after[i].player == p;
  }

  lemma MarkComesFrom(g: Game, step: Step, p: PlayerId)
    requires Inv(g) && Marked(Apply(g, step), p)
    ensures Marked(g, p) || HasSlot(Apply(g, step).slots, p)
    ensures !InProgress(g.state) ==> Marked(g, p)
  {
    match step
    case StepReplace(replacee, replacement, banned) =>
      if ReplaceRefusal(g, replacee, replacement, banned).None? && replacee != replacement {
        ReplacedSlots(g, replacee, replacement);
        var slots := Apply(g, step).slots;
        if p == replacement {
          assert slots[|g.slots|].player == p;
        }
      }
    case _ =>
  }

  lemma EndKeepsFreed(g: Game, step: Step)
    requires Inv(g) && FreedAtTheEnd(g)
    ensures FreedAtTheEnd(Apply(g, step))
  {
    var n := Apply(g, step);
    StepGrows(g, step);
    forall p | Marked(n, p) ensures HasSlot(n.slots, p) {
      MarkComesFrom(g, step, p);
      if Marked(g, p) { HasSlotGrows(g.slots, n.slots, p); }
    }
    if !InProgress(n.state) && n.freeings == 0 {
      forall p ensures !Marked(n, p) {
        if Marked(n, p) {
          NobodyLeft(g, step, p);
        }
      }
    }
  }

  lemma NobodyLeft(g: Game, step: Step, p: PlayerId)
    requires Inv(g) && FreedAtTheEnd(g) && Marked(Apply(g, step), p)
    requires !InProgress(Apply(g, step).state)
    ensures Apply(g, step).freeings > 0
  {
    if InProgress(g.state) {
      if step == StepForceEnd { FreedExactly(g, step, p); }
      if step.StepReplace? || step.StepSubstitute? || step.StepCancel? { SubstitutionsKeepState(g, step); }
    } else {
      MarkComesFrom(g, step, p);
      if step == StepFreeAll { FreedExactly(g, step, p); }
      OverKeepsFreeings(g, step);
    }
  }

  lemma SubstitutionsKeepState(g: Game, step: Step)
    requires IsSubstitutionStep(step)
    ensures Apply(g, step).state == g.state && Apply(g, step).freeings == g.freeings
  {
  }

  lemma OverKeepsFreeings(g: Game, step: Step)
    requires !InProgress(g.state) && step != StepFreeAll
    ensures Apply(g, step).freeings == g.freeings
  {
  }

  /** Only players with a slot are ever marked; once the game is over and its timer has fired, nobody is. */
  lemma {:induction false} FreedWhenOver(g: Game, steps: seq<Step>)
    requires Created(g)
    ensures FreedAtTheEnd(Run(g, steps))
  {
    if steps == [] {
      forall p | Marked(g, p) ensures HasSlot(g.slots, p) {
        assert Holds(g.slots, p);
      }
    } else {
      var init := steps[..|steps|-1];
      FreedWhenOver(g, init);
      RunKeeps(g, init);
      EndKeepsFreed(Run(g, init), steps[|steps|-1]);
    }
  }

  // ----- states

  /** The state only moves with the match, or by an administrator; each end of the match arms one timer. */
  lemma StateExactly(g: Game, step: Step)
    ensures
      var n := Apply(g, step);
      && n.id == g.id
      && (n.state != g.state ==>
            || (step == StepMatchStarted && g.state == Launching && n.state == Started)
            || (step == StepMatchEnded && g.state == Started && n.state == Ended)
            || (step == StepForceEnd && n.state == Interrupted))
      && (step == StepMatchStarted && g.state == Launching ==> n == g.(state := Started))
      && (step == StepMatchEnded && g.state == Started ==> n.state == Ended && n.freeings == g.freeings + 1)
      && (step == StepForceEnd ==> n.state == Interrupted)
      && (n.freeings > g.freeings ==> step == StepMatchEnded && g.state == Started)
      && (n.freeings < g.freeings <==> step == StepFreeAll && g.freeings > 0)
      && (n.freeings < g.freeings ==> n.freeings == g.freeings - 1)
  {
  }

  /** Whichever way the game ends, its waiting slots become active and no other slot changes. */
  lemma EndSettles(g: Game, step: Step)
    requires step == StepForceEnd || (step == StepMatchEnded && g.state == Started)
    ensures
      var slots := Apply(g, step).slots;
      && |slots| == |g.slots|
      && forall i :: 0 <= i < |slots| ==>
           slots[i] == g.slots[i].(status := if g.slots[i].status == Replaced then Replaced else Active)
  {
  }

  /** At start-up exactly a mark of this game goes that outlived it. */
  lemma ReleaseStaleExactly(g: Game, player: PlayerId, p: PlayerId)
    ensures
      var n := Apply(g, StepReleaseStale(player));
      && n == g.(activeGame := n.activeGame)
      && if p == player && Marked(g, p) && !InProgress(g.state) then p !in n.activeGame else SameMark(g, n, p)
  {
  }

  /** What other games do: they mark and free players that this game has not marked. */
  lemma OtherGameExactly(g: Game, player: PlayerId, other: Option<GameId>, p: PlayerId)
    requires other != Some(g.id)
    ensures
      var n := Apply(g, StepOtherGame(player, other));
      && n == g.(activeGame := n.activeGame)
      && if p != player || Marked(g, p) then SameMark(g, n, p)
         else (p in n.activeGame <==> other.Some?) && (other.Some? ==> n.activeGame[p] == other.value)
  {
  }

  // ----- creation

  /** A new game has one active slot for each picked player, and marks exactly those players. */
  lemma CreateEffect(id: GameId, picked: seq<PT.PlayerSlotWithTeam>, marks: map<PlayerId, GameId>, p: PlayerId)
    ensures
      var g := Create(id, picked, marks);
      && g.id == id && g.state == Launching && g.freeings == 0 && |g.slots| == |picked|
      && (forall i :: 0 <= i < |picked| ==>
            && g.slots[i].player == picked[i].slot.playerId && g.slots[i].team == picked[i].team
            && g.slots[i].gameClass == picked[i].slot.gameClass && g.slots[i].status == Active)
      && if exists i :: 0 <= i < |picked| && picked[i].slot.playerId == p then Marked(g, p)
         else (p in g.activeGame <==> p in marks) && (p in marks ==> g.activeGame[p] == marks[p])
  {
    var g := Create(id, picked, marks);
    PlayersHaveSlots(g.slots, p);
    if i :| 0 <= i < |picked| && picked[i].slot.playerId == p {
      assert g.slots[i].player == p;
    }
  }
}
