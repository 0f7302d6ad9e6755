/** The queue service: its fields, updated in place, follow the transitions of QueueModel. */
module QueueService {
  import opened Common
  import opened QueueModel

  class QueueService {
    const cfg: Config
    var slots: seq<Slot>
    var state: Phase
    var timer: Timer
    var immediates: nat
    var joining: Option<(nat, PlayerId)>
    var clock: nat
    ghost var launches: nat
    ghost var launchFailed: bool
    ghost var frozen: bool
    ghost var readySince: nat
    ghost var changes: nat
    ghost var launchedAt: nat
    ghost var log: seq<Event>

    ghost function View(): Queue
      reads this
    {
      Queue(cfg, slots, state, timer, immediates, joining, launches, launchFailed, frozen,
            clock, readySince, changes, launchedAt, log)
    }

    constructor (cfg: Config)
      ensures View() == Fresh(cfg)
    {
      this.cfg := cfg;
      state, timer, immediates, joining := Waiting, Disarmed, 0, None;
      launches, launchFailed, frozen, clock, readySince, changes, launchedAt, log := 0, false, false, 0, 0, 0, 0, [];
      slots := [];
      new;
      ResetSlots();
    }

    method ResetSlots()
      modifies this`slots
      ensures slots == EmptySlots(cfg.classes)
    {
      var lastId := 0;
      slots := [];
      for k := 0 to |cfg.classes|
        invariant slots == EmptySlots(cfg.classes[..k]) && lastId == |slots|
      {
        var curr := cfg.classes[k];
        var tmpSlots := [];
        for i := 0 to curr.count * TEAM_COUNT
          invariant tmpSlots == ClassSlots(|slots|, curr, i)
          invariant lastId == |slots| + i
        {
          assert ClassSlots(|slots|, curr, i + 1) == tmpSlots + [NewSlot(lastId, curr)];
          tmpSlots := tmpSlots + [NewSlot(lastId, curr)];
          lastId := lastId + 1;
        }
        assert cfg.classes[..k+1][..k] == cfg.classes[..k];
        slots := slots + tmpSlots;
      }
      assert cfg.classes[..|cfg.classes|] == cfg.classes;
    }

    method PublishSlotsChange()
      modifies this`immediates, this`changes
      ensures View() == EmitSlotsChange(old(View()))
    {
      immediates := immediates + 1;
      changes := changes + 1;
    }

    method SetState(phase: Phase)
      modifies this
      ensures View() == SetPhase(old(View()), phase)
    {
      state := phase;
      frozen := phase == Launching;
      OnStateChange(phase);
      if phase == Launching {
        launches, launchedAt := launches + 1, changes;
      }
    }

    method OnStateChange(phase: Phase)
      modifies this`timer, this`readySince
      ensures View() == old(View()).(timer := timer, readySince := readySince)
      ensures timer == if phase == Ready then ReadyUpTimer(clock + cfg.readyUpTimeout) else Disarmed
      ensures readySince == if phase == Ready then clock else old(readySince)
    {
      match phase {
        case Ready =>
          timer := ReadyUpTimer(clock + cfg.readyUpTimeout);
          readySince := clock;
        case Launching => timer := Disarmed;
        case Waiting => timer := Disarmed;
      }
    }

    method Reset()
      modifies this
      ensures View() == QueueModel.Reset(old(View()))
    {
      ResetSlots();
      frozen, launchFailed, log := false, false, [];
      PublishSlotsChange();
    }

    /** A join up to its first await; the mutex admits one join at a time. */
    method BeginJoin(slotId: nat, player: PlayerId) returns (refusal: Option<Refusal>)
      requires joining.None?
      modifies this
      ensures refusal == JoinStartRefusal(old(View()))
      ensures View() == JoinStart(old(View()), slotId, player)
    {
      if state == Launching {
        return Some(CannotJoinAtThisQueueState);
      }
      joining := Some((slotId, player));
      return None;
    }

    /** The rest of the join, once the player record and the bans have been read. */
    method FinishJoin(admitted: bool) returns (refusal: Option<Refusal>)
      requires joining.Some?
      modifies this
      ensures refusal == JoinFinishRefusal(old(View()), old(joining).value.0, admitted)
      ensures View() == JoinFinish(old(View()), admitted)
    {
      var (slotId, player) := joining.value;
      joining := None;
      if !admitted {
        return Some(PlayerNotAdmitted);
      }
      var t := FindId(slots, slotId);
      if t == |slots| {
        return Some(NoSuchSlot);
      }
      if slots[t].player.Some? {
        return Some(SlotOccupied);
      }
      Claim(t, player);
      return None;
    }

    method Claim(t: nat, player: PlayerId)
      requires t < |slots|
      modifies this
      ensures View() == ClaimSlot(old(View()), t, player)
    {
      var isNew := FindPlayer(slots, Some(player)) == |slots|;
      ClearSlotsOf(player);
      slots := slots[t := slots[t].(player := Some(player))];
      if state == Ready || PlayerCount(slots) == |slots| {
        slots := slots[t := slots[t].(ready := true)];
      }
      if isNew {
        log := log + [Joined(player)];
      }
      PublishSlotsChange();
    }

    method ClearSlotsOf(player: PlayerId)
      modifies this`slots
      ensures slots == ClearPlayer(old(slots), player)
    {
      var before := slots;
      for i := 0 to |slots|
        invariant |slots| == |before|
        invariant forall j :: 0 <= j < |slots| ==>
                    slots[j] == if j < i then ClearPlayer(before, player)[j] else before[j]
      {
        if slots[i].player == Some(player) {
          slots := slots[i := Clear(slots[i])];
        }
      }
    }

    method Leave(player: PlayerId) returns (refusal: Option<Refusal>)
      modifies this
      ensures refusal == LeaveRefusal(old(View()), player)
      ensures View() == QueueModel.Leave(old(View()), player)
    {
      var i := FindPlayer(slots, Some(player));
      if i == |slots| {
        return Some(PlayerNotInTheQueue);
      }
      if slots[i].ready && state != Waiting {
        return Some(CannotLeaveAtThisQueueState);
      }
      slots := slots[i := Clear(slots[i])];
      log := log + [Left(Some(player))];
      PublishSlotsChange();
      return None;
    }

    method Kick(players: seq<Option<PlayerId>>)
      modifies this
      ensures View() == QueueModel.Kick(old(View()), players)
    {
      if state == Launching {
        return;
      }
      ghost var before := View();
      for k := 0 to |players|
        invariant View() == KickEach(before, players[..k])
      {
        var i := FindPlayer(slots, players[k]);
        if i < |slots| {
          slots := slots[i := Clear(slots[i])];
          log := log + [Left(players[k])];
        }
        assert players[..k+1][..k] == players[..k];
      }
      assert players[..|players|] == players;
      PublishSlotsChange();
    }

    method ReadyUp(player: PlayerId) returns (refusal: Option<Refusal>)
      modifies this
      ensures refusal == ReadyUpRefusal(old(View()), player)
      ensures View() == QueueModel.ReadyUp(old(View()), player)
    {
      if state != Ready {
        return Some(WrongQueueState);
      }
      var i := FindPlayer(slots, Some(player));
      if i == |slots| {
        return Some(PlayerNotInTheQueue);
      }
      slots := slots[i := slots[i].(ready := true)];
      PublishSlotsChange();
      return None;
    }

    /** The body of a scheduled callback. */
    method MaybeUpdateState()
      requires immediates > 0
      modifies this
      ensures View() == RunImmediate(old(View()))
    {
      immediates := immediates - 1;
      match state {
        case Waiting =>
          if PlayerCount(slots) == |slots| {
            SetState(Ready);
          }
        case Ready =>
          if PlayerCount(slots) == 0 {
            SetState(Waiting);
          } else if ReadyCount(slots) == |slots| {
            SetState(Launching);
          }
        case Launching =>
          SetState(Waiting);
      }
    }

    method UnreadyQueue()
      modifies this
      ensures View() == QueueModel.UnreadyQueue(old(View()))
    {
      var before := slots;
      for i := 0 to |slots|
        invariant |slots| == |before|
        invariant View() == old(View()).(slots := slots)
        invariant forall j :: 0 <= j < |slots| ==>
                    slots[j] == if j < i then Unready(before)[j] else before[j]
      {
        if slots[i].player.Some? {
          slots := slots[i := slots[i].(ready := false)];
        }
      }
      PublishSlotsChange();
      SetState(Waiting);
    }

    method OnReadyUpTimeout()
      modifies this
      ensures View() == QueueModel.OnReadyUpTimeout(old(View()))
    {
      if ReadyCount(slots) < |slots| {
        Kick(UnreadyPlayers(slots));
      }
      if cfg.readyStateTimeout - cfg.readyUpTimeout > 0 {
        timer := UnreadyTimer(clock + (cfg.readyStateTimeout - cfg.readyUpTimeout));
      } else {
        UnreadyQueue();
      }
    }

    /** Called by the event loop when the armed timer is due. */
    method TimerFires()
      requires timer != Disarmed && timer.due <= clock
      modifies this
      ensures View() == FireTimer(old(View()))
    {
      var fired := timer;
      timer := Disarmed;
      match fired {
        case ReadyUpTimer(_) => OnReadyUpTimeout();
        case UnreadyTimer(_) => UnreadyQueue();
      }
    }
  }
}
