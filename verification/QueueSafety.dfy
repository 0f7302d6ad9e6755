/** What holds of the queue in every run, whatever the order of its steps. */
module QueueSafety {
  import opened Common
  import opened QueueModel

  // ----- the invariant

  ghost predicate Layout(cfg: Config, slots: seq<Slot>) {
    && |slots| == |EmptySlots(cfg.classes)|
    && forall i :: 0 <= i < |slots| ==> Clear(slots[i]) == EmptySlots(cfg.classes)[i]
  }

  ghost predicate OneSlotPerPlayer(slots: seq<Slot>) {
    forall i, j :: 0 <= i < j < |slots| && slots[i].player.Some? ==> slots[i].player != slots[j].player
  }

  ghost predicate ReadyIsOccupied(slots: seq<Slot>) {
    forall i :: 0 <= i < |slots| && slots[i].ready ==> slots[i].player.Some?
  }

  ghost predicate OccupiedIsReady(slots: seq<Slot>) {
    forall i :: 0 <= i < |slots| && slots[i].player.Some? ==> slots[i].ready
  }

  ghost function Occupants(slots: seq<Slot>): set<PlayerId> {
    set i | 0 <= i < |slots| && slots[i].player.Some? :: slots[i].player.value
  }

  /** Who is in the queue according to a listener that only sees join and leave events. */
  ghost function Replay(log: seq<Event>): set<PlayerId> {
    if log == [] then {}
    else
      var before := Replay(log[..|log|-1]);
      match log[|log|-1]
      case Joined(p) => before + {p}
      case Left(Some(p)) => before - {p}
      case Left(None) => before
  }

  ghost predicate SlotsFit(cfg: Config, slots: seq<Slot>, log: seq<Event>) {
    && Layout(cfg, slots)
    && OneSlotPerPlayer(slots)
    && ReadyIsOccupied(slots)
    && Replay(log) == Occupants(slots)
  }

  ghost predicate SlotsOk(q: Queue) {
    SlotsFit(q.cfg, q.slots, q.log)
  }

  /** Someone will still look at the queue: a callback, or a launch that resets it (unless it failed). */
  ghost predicate LaunchOutstanding(q: Queue) {
    q.launches > 0 || q.launchFailed
  }

  ghost predicate PhaseOk(q: Queue) {
    match q.phase
    case Waiting =>
      !q.frozen && (Full(q.slots) ==> q.immediates > 0 || (LaunchOutstanding(q) && q.changes == q.launchedAt))
    case Ready => !q.frozen && (Empty(q.slots) ==> q.immediates > 0)
    case Launching =>
      if q.frozen then Full(q.slots) && AllReady(q.slots) && LaunchOutstanding(q) && q.changes == q.launchedAt
      else q.immediates > 0 && (Empty(q.slots) || q.immediates > 1)
  }

  ghost predicate TimerOk(q: Queue) {
    match q.timer
    case Disarmed => q.phase != Ready
    case ReadyUpTimer(due) =>
      q.phase == Ready && q.clock <= due && due == q.readySince + q.cfg.readyUpTimeout
    case UnreadyTimer(due) =>
      && q.phase == Ready && q.clock <= due && due == q.readySince + q.cfg.readyStateTimeout
      && q.cfg.readyUpTimeout < q.cfg.readyStateTimeout
      && OccupiedIsReady(q.slots)
  }

  ghost predicate Inv(q: Queue) {
    |q.slots| > 0 && SlotsOk(q) && PhaseOk(q) && TimerOk(q)
  }

  // ----- slot updates

  lemma EmptySlotsAreFresh(classes: seq<GameClass>)
    ensures forall i :: 0 <= i < |EmptySlots(classes)| ==>
              && EmptySlots(classes)[i].id == i
              && EmptySlots(classes)[i].player.None? && !EmptySlots(classes)[i].ready
  {
    if classes != [] {
      var before := EmptySlots(classes[..|classes|-1]);
      EmptySlotsAreFresh(classes[..|classes|-1]);
      var c := classes[|classes|-1];
      forall i | |before| <= i < |EmptySlots(classes)|
        ensures EmptySlots(classes)[i] == NewSlot(i, c)
      {
      }
    }
  }

  lemma FreshSlotsOk(q: Queue)
    requires q.slots == EmptySlots(q.cfg.classes) && q.log == []
    ensures SlotsOk(q) && Empty(q.slots)
  {
    EmptySlotsAreFresh(q.cfg.classes);
  }

  lemma VacateKeeps(q: Queue, i: nat)
    requires SlotsOk(q) && i < |q.slots|
    ensures SlotsOk(Vacate(q, i, q.slots[i].player))
  {
    var r := Vacate(q, i, q.slots[i].player);
    assert r.log[..|r.log|-1] == q.log;
    match q.slots[i].player
    case None => assert r.slots == q.slots;
    case Some(p) =>
      forall x ensures x in Occupants(r.slots) <==> x in Occupants(q.slots) - {p} {
        if x in Occupants(q.slots) - {p} {
          var j :| 0 <= j < |q.slots| && q.slots[j].player == Some(x);
          assert r.slots[j].player == Some(x);
        }
      }
  }

  /** Emptying the slot found for a player empties all of the player's slots. */
  lemma OnlySlotOf(slots: seq<Slot>, i: nat, who: Option<PlayerId>)
    requires OneSlotPerPlayer(slots) && ReadyIsOccupied(slots) && i < |slots| && slots[i].player == who
    ensures forall k :: 0 <= k < |slots| ==>
              slots[i := Clear(slots[i])][k] == if slots[k].player == who then Clear(slots[k]) else slots[k]
  {
  }

  lemma KickOneKeeps(q: Queue, who: Option<PlayerId>)
    requires SlotsOk(q)
    ensures
      var r := KickOne(q, who);
      && SlotsOk(r)
      && r == q.(slots := r.slots, log := r.log)
      && |r.slots| == |q.slots|
      && forall i :: 0 <= i < |q.slots| ==>
           r.slots[i] == if q.slots[i].player == who then Clear(q.slots[i]) else q.slots[i]
  {
    var i := FindPlayer(q.slots, who);
    if i < |q.slots| {
      VacateKeeps(q, i);
      OnlySlotOf(q.slots, i, who);
    }
  }

  lemma {:induction false} KickEachKeeps(q: Queue, players: seq<Option<PlayerId>>)
    requires SlotsOk(q)
    ensures
      var r := KickEach(q, players);
      && SlotsOk(r)
      && r == q.(slots := r.slots, log := r.log)
      && |r.slots| == |q.slots|
      && forall i :: 0 <= i < |q.slots| ==>
           r.slots[i] == if q.slots[i].player in players then Clear(q.slots[i]) else q.slots[i]
  {
    if players != [] {
      var init, who := players[..|players|-1], players[|players|-1];
      KickEachKeeps(q, init);
      KickOneKeeps(KickEach(q, init), who);
      ClearTwice(q.slots, KickEach(q, init).slots, KickEach(q, players).slots, players);
    }
  }

  lemma ClearTwice(a: seq<Slot>, b: seq<Slot>, c: seq<Slot>, players: seq<Option<PlayerId>>)
    requires |a| == |b| == |c| && players != [] && ReadyIsOccupied(a)
    requires forall i :: 0 <= i < |a| ==> b[i] == if a[i].player in players[..|players|-1] then Clear(a[i]) else a[i]
    requires forall i :: 0 <= i < |a| ==> c[i] == if b[i].player == players[|players|-1] then Clear(b[i]) else b[i]
    ensures forall i :: 0 <= i < |a| ==> c[i] == if a[i].player in players then Clear(a[i]) else a[i]
  {
    var init, who := players[..|players|-1], players[|players|-1];
    assert players == init + [who];
    forall i | 0 <= i < |a| ensures c[i] == if a[i].player in players then Clear(a[i]) else a[i] {
      assert a[i].player in players <==> a[i].player in init || a[i].player == who;
    }
  }

  lemma ClaimSlots(q: Queue, t: nat, player: PlayerId)
    requires t < |q.slots|
    ensures
      var r := ClaimSlot(q, t, player);
      && r == q.(slots := r.slots, immediates := q.immediates + 1, changes := q.changes + 1, log := r.log)
      && |r.slots| == |q.slots|
      && r.slots[t].player == Some(player)
      && Clear(r.slots[t]) == Clear(q.slots[t])
      && (q.phase == Ready ==> r.slots[t].ready)
      && forall i :: 0 <= i < |q.slots| && i != t ==>
           r.slots[i] == if q.slots[i].player == Some(player) then Clear(q.slots[i]) else q.slots[i]
  {
  }

  lemma ClaimOccupants(prev: seq<Slot>, next: seq<Slot>, t: nat, player: PlayerId)
    requires |prev| == |next| && t < |prev| && prev[t].player.None? && next[t].player == Some(player)
    requires forall i :: 0 <= i < |prev| && i != t ==>
               next[i] == if prev[i].player == Some(player) then Clear(prev[i]) else prev[i]
    ensures Occupants(next) == Occupants(prev) + {player}
  {
    forall x ensures x in Occupants(next) <==> x in Occupants(prev) + {player} {
      if x in Occupants(prev) && x != player {
        var j :| 0 <= j < |prev| && prev[j].player == Some(x);
        assert next[j].player == Some(x);
      }
    }
  }

  lemma ReplayJoined(log: seq<Event>, player: PlayerId)
    ensures Replay(log + [Joined(player)]) == Replay(log) + {player}
  {
    var all := log + [Joined(player)];
    assert all[..|all|-1] == log && all[|all|-1] == Joined(player);
  }

  lemma ClaimLog(q: Queue, t: nat, player: PlayerId)
    requires t < |q.slots| && Replay(q.log) == Occupants(q.slots)
    ensures Replay(ClaimSlot(q, t, player).log) == Occupants(q.slots) + {player}
  {
    var i := FindPlayer(q.slots, Some(player));
    if i == |q.slots| {
      assert ClaimSlot(q, t, player).log == q.log + [Joined(player)];
      ReplayJoined(q.log, player);
    } else {
      assert ClaimSlot(q, t, player).log == q.log;
      assert q.slots[i].player.Some? && q.slots[i].player.value == player;
      assert player in Occupants(q.slots);
    }
  }

  lemma ClaimFits(cfg: Config, prev: seq<Slot>, next: seq<Slot>, t: nat, player: PlayerId)
    requires |prev| == |next| && t < |prev| && prev[t].player.None? && next[t].player == Some(player)
    requires Clear(next[t]) == Clear(prev[t])
    requires forall i :: 0 <= i < |prev| && i != t ==>
               next[i] == if prev[i].player == Some(player) then Clear(prev[i]) else prev[i]
    requires Layout(cfg, prev) && OneSlotPerPlayer(prev) && ReadyIsOccupied(prev)
    ensures Layout(cfg, next) && OneSlotPerPlayer(next) && ReadyIsOccupied(next)
  {
    forall i | 0 <= i < |next| ensures Clear(next[i]) == EmptySlots(cfg.classes)[i] {
      assert Clear(next[i]) == Clear(prev[i]);
    }
  }

  lemma ClaimKeeps(q: Queue, t: nat, player: PlayerId)
    requires SlotsOk(q) && t < |q.slots| && q.slots[t].player.None?
    ensures SlotsOk(ClaimSlot(q, t, player))
  {
    var slots := ClaimSlot(q, t, player).slots;
    ClaimSlots(q, t, player);
    ClaimOccupants(q.slots, slots, t, player);
    ClaimLog(q, t, player);
    ClaimFits(q.cfg, q.slots, slots, t, player);
  }

  lemma SameOccupants(q: Queue, r: Queue)
    requires SlotsOk(q) && r.log == q.log && r.cfg == q.cfg && |r.slots| == |q.slots|
    requires forall i :: 0 <= i < |q.slots| ==>
               r.slots[i] == q.slots[i].(ready := r.slots[i].ready)
    requires ReadyIsOccupied(r.slots)
    ensures SlotsOk(r)
  {
    assert forall i :: 0 <= i < |q.slots| ==> r.slots[i].player == q.slots[i].player;
    assert forall i :: 0 <= i < |q.slots| ==> Clear(r.slots[i]) == Clear(q.slots[i]);
    assert Occupants(r.slots) == Occupants(q.slots);
  }

  // ----- each step keeps the invariant

  lemma JoinFinishKeeps(q: Queue, admitted: bool)
    requires Inv(q)
    ensures Inv(JoinFinish(q, admitted))
  {
    if q.joining.Some? && JoinFinishRefusal(q, q.joining.value.0, admitted).None? {
      var t := FindId(q.slots, q.joining.value.0);
      ClaimKeeps(q.(joining := None), t, q.joining.value.1);
      ClaimSlots(q.(joining := None), t, q.joining.value.1);
    }
  }

  lemma LeaveKeeps(q: Queue, player: PlayerId)
    requires Inv(q)
    ensures Inv(Leave(q, player))
  {
    if LeaveRefusal(q, player).None? {
      VacateKeeps(q, FindPlayer(q.slots, Some(player)));
    }
  }

  lemma KickKeeps(q: Queue, players: seq<Option<PlayerId>>)
    requires Inv(q)
    ensures Inv(Kick(q, players))
  {
    KickEachKeeps(q, players);
  }

  lemma ReadyUpKeeps(q: Queue, player: PlayerId)
    requires Inv(q)
    ensures Inv(ReadyUp(q, player))
  {
    if ReadyUpRefusal(q, player).None? {
      SameOccupants(q, ReadyUp(q, player));
      assert q.slots[FindPlayer(q.slots, Some(player))].player.Some?;
    }
  }

  lemma RunImmediateMoves(q: Queue)
    requires |q.slots| > 0 && ReadyIsOccupied(q.slots) && PhaseOk(q) && TimerOk(q)
    ensures PhaseOk(RunImmediate(q)) && TimerOk(RunImmediate(q))
  {
    Counts(q.slots);
    FullIsNotEmpty(q.slots);
  }

  lemma RunImmediateKeeps(q: Queue)
    requires Inv(q)
    ensures Inv(RunImmediate(q))
  {
    var r := RunImmediate(q);
    assert r.slots == q.slots && r.log == q.log && r.cfg == q.cfg;
    RunImmediateMoves(q);
  }

  lemma FullIsNotEmpty(slots: seq<Slot>)
    requires |slots| > 0
    ensures !(Full(slots) && Empty(slots))
  {
    assert slots[0].player.Some? || slots[0].player.None?;
  }

  lemma UnreadyQueueKeeps(q: Queue)
    requires |q.slots| > 0 && SlotsOk(q)
    ensures Inv(UnreadyQueue(q))
  {
    SameOccupants(q, UnreadyQueue(q));
  }

  lemma UnreadyPlayersAre(slots: seq<Slot>)
    ensures forall i :: 0 <= i < |slots| && !slots[i].ready ==> slots[i].player in UnreadyPlayers(slots)
  {
    if slots != [] {
      UnreadyPlayersAre(slots[..|slots|-1]);
      assert forall i :: 0 <= i < |slots|-1 ==> slots[..|slots|-1][i] == slots[i];
    }
  }

  lemma KickingTheUnready(q: Queue, players: seq<Option<PlayerId>>)
    requires SlotsOk(q)
    requires forall i :: 0 <= i < |q.slots| && !q.slots[i].ready ==> q.slots[i].player in players
    ensures OccupiedIsReady(KickEach(q, players).slots)
  {
    KickEachKeeps(q, players);
  }

  lemma KickUnreadyKeeps(q: Queue)
    requires SlotsOk(q) && q.phase == Ready
    ensures
      var k := KickUnreadyPlayers(q);
      && SlotsOk(k) && |k.slots| == |q.slots|
      && OccupiedIsReady(k.slots)
      && k == q.(slots := k.slots, log := k.log, immediates := k.immediates, changes := k.changes)
      && (k.immediates > 0 || k == q)
  {
    Counts(q.slots);
    var players := UnreadyPlayers(q.slots);
    UnreadyPlayersAre(q.slots);
    KickingTheUnready(q, players);
    KickEachKeeps(q, players);
  }

  lemma OnReadyUpTimeoutKeeps(q: Queue)
    requires |q.slots| > 0 && SlotsOk(q) && PhaseOk(q) && q.phase == Ready
    requires q.clock == q.readySince + q.cfg.readyUpTimeout
    ensures Inv(OnReadyUpTimeout(q))
  {
    KickUnreadyKeeps(q);
    UnreadyQueueKeeps(KickUnreadyPlayers(q));
  }

  lemma TimerKeeps(q: Queue)
    requires Inv(q)
    ensures Inv(FireTimer(q))
  {
    match q.timer
    case Disarmed =>
    case ReadyUpTimer(due) => if q.clock >= due { OnReadyUpTimeoutKeeps(q.(timer := Disarmed)); }
    case UnreadyTimer(due) => if q.clock >= due { UnreadyQueueKeeps(q.(timer := Disarmed)); }
  }

  lemma ResetKeeps(q: Queue)
    requires |q.slots| > 0 && Layout(q.cfg, q.slots) && TimerOk(q) && (q.frozen ==> q.phase == Launching)
    ensures Inv(Reset(q))
  {
    FreshSlotsOk(Reset(q));
  }

  lemma StepKeeps(q: Queue, step: Step)
    requires Inv(q)
    ensures Inv(Apply(q, step))
  {
    match step
    case StepJoinStart(_, _) =>
    case StepJoinFinish(admitted) => JoinFinishKeeps(q, admitted);
    case StepLeave(player) => LeaveKeeps(q, player);
    case StepKick(players) => KickKeeps(q, Present(players));
    case StepReadyUp(player) => ReadyUpKeeps(q, player);
    case StepImmediate => RunImmediateKeeps(q);
    case StepTimer => TimerKeeps(q);
    case StepElapse(_) =>
    case StepLaunchCompletes => if q.launches > 0 { ResetKeeps(q.(launches := q.launches - 1)); }
    case StepLaunchFails =>
  }
}
