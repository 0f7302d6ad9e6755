/** The substitution, event and runtime services, updating the stored game in place. */
module GameServices {
  import opened Common
  import opened GameLifecycle
  import PT = PickTeams

  class GameServices {
    const id: GameId
    var slots: seq<GameSlot>
    var state: GameState
    var activeGame: map<PlayerId, GameId>
    var freeings: nat

    ghost function View(): Game
      reads this
    {
      Game(id, slots, state, activeGame, freeings)
    }

    constructor (id: GameId, picked: seq<PT.PlayerSlotWithTeam>, marks: map<PlayerId, GameId>)
      ensures View() == Create(id, picked, marks)
    {
      this.id := id;
      slots := NewSlots(picked);
      state, freeings, activeGame := Launching, 0, marks;
      new;
      Mark(Players(slots));
    }

    /** Marks each of the players as taking part in this game, one update each. */
    method Mark(players: set<PlayerId>)
      modifies this`activeGame
      ensures activeGame == old(activeGame) + (map p | p in players :: id)
    {
      var left := players;
      while left != {}
        invariant left <= players
        invariant activeGame == old(activeGame) + (map p | p in players - left :: id)
        decreases left
      {
        var p :| p in left;
        activeGame := activeGame[p := id];
        left := left - {p};
        assert players - left == (players - (left + {p})) + {p};
      }
      assert players - left == players;
    }

    method SubstitutePlayer(player: PlayerId) returns (refusal: Option<Refusal>)
      modifies this
      ensures refusal == SubstituteRefusal(old(View()), player)
      ensures View() == GameLifecycle.SubstitutePlayer(old(View()), player)
    {
      var i := FindSlot(slots, player);
      if i == |slots| {
        return Some(PlayerNotInThisGame);
      }
      if !InProgress(state) {
        return Some(GameInWrongState);
      }
      if slots[i].status == Replaced {
        return Some(WrongGameSlotStatus);
      }
      if slots[i].status == Active {
        slots := SetStatusOf(slots, player, WaitingForSubstitute);
      }
      return None;
    }

    method CancelSubstitutionRequest(player: PlayerId) returns (refusal: Option<Refusal>)
      modifies this
      ensures refusal == SubstituteRefusal(old(View()), player)
      ensures View() == CancelSubstitution(old(View()), player)
    {
      var i := FindSlot(slots, player);
      if i == |slots| {
        return Some(PlayerNotInThisGame);
      }
      if !InProgress(state) {
        return Some(GameInWrongState);
      }
      if slots[i].status == Replaced {
        return Some(WrongGameSlotStatus);
      }
      if slots[i].status == WaitingForSubstitute {
        slots := SetStatusOf(slots, player, Active);
      }
      return None;
    }

    /** Note that the state of the game is not looked at. */
    method ReplacePlayer(replacee: PlayerId, replacement: PlayerId, banned: bool) returns (refusal: Option<Refusal>)
      modifies this
      ensures refusal == ReplaceRefusal(old(View()), replacee, replacement, banned)
      ensures View() == GameLifecycle.ReplacePlayer(old(View()), replacee, replacement, banned)
    {
      if banned {
        return Some(PlayerIsBanned);
      }
      var i := FindWaiting(slots, replacee);
      if i == |slots| {
        return Some(PlayerNotInThisGame);
      }
      if replacee == replacement {
        slots := SetStatusOf(slots, replacee, Active);
        return None;
      }
      if replacement in activeGame {
        return Some(PlayerInvolvedInGame);
      }
      slots := slots + [GameSlot(replacement, slots[i].team, slots[i].gameClass, Active)];
      slots := SetStatusOf(slots, replacee, Replaced);
      activeGame := activeGame[replacement := id];
      activeGame := activeGame - {replacee};
      return None;
    }

    method OnMatchStarted()
      modifies this`state
      ensures View() == MatchStarted(old(View()))
    {
      if state == Launching {
        state := Started;
      }
    }

    method OnMatchEnded() returns (found: bool)
      modifies this
      ensures found == (old(state) == Started)
      ensures View() == MatchEnded(old(View()))
    {
      if state != Started {
        return false;
      }
      state := Ended;
      ghost var before := slots;
      slots := Settle(slots);
      assert Medics(slots) == Medics(before) by { SettleKeepsPlayers(before); }
      Free(Medics(slots));
      freeings := freeings + 1;
      return true;
    }

    method FreeAllPlayers()
      requires freeings > 0
      modifies this
      ensures View() == GameLifecycle.FreeAllPlayers(old(View()))
    {
      freeings := freeings - 1;
      Free(Players(slots));
    }

    method ForceEnd()
      modifies this
      ensures View() == GameLifecycle.ForceEnd(old(View()))
    {
      state := Interrupted;
      ghost var before := slots;
      slots := Settle(slots);
      assert Players(slots) == Players(before) by { SettleKeepsPlayers(before); }
      Free(Players(slots));
    }

    /** Unsets the mark of each of the players, one update each. */
    method Free(players: set<PlayerId>)
      modifies this`activeGame
      ensures activeGame == old(activeGame) - players
    {
      var left := players;
      while left != {}
        invariant left <= players
        invariant activeGame == old(activeGame) - (players - left)
        decreases left
      {
        var p :| p in left;
        activeGame := activeGame - {p};
        left := left - {p};
        assert players - left == (players - (left + {p})) + {p};
      }
    }
  }
}
