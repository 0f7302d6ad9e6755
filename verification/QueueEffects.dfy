/** What each call of the queue does to its phase, timer, callbacks and events, and what it refuses. */
module QueueEffects {
  import opened Common
  import opened QueueModel
  import opened QueueSafety
  import opened QueueTheorems

  // ----- the phase

  /** The timer that fires ends the ready phase: the second one, or the first if no second is due later. */
  ghost predicate EndsReady(q: Queue, step: Step) {
    && step == StepTimer && q.timer != Disarmed && q.clock >= q.timer.due
    && (q.timer.UnreadyTimer? || q.cfg.readyStateTimeout <= q.cfg.readyUpTimeout)
  }

  ghost predicate RunsCallback(q: Queue, step: Step) {
    step == StepImmediate && q.immediates > 0
  }

  lemma CallbackPhase(q: Queue)
    requires |q.slots| > 0 && q.immediates > 0
    ensures
      var r := RunImmediate(q);
      r.phase == match q.phase
                 case Waiting => if Full(q.slots) then Ready else Waiting
                 case Ready => if Empty(q.slots) then Waiting else if AllReady(q.slots) then Launching else Ready
                 case Launching => Waiting
  {
    Counts(q.slots);
  }

  /** A callback touches no slot and no event; entering launching starts one launch. */
  lemma CallbackEffect(q: Queue)
    requires q.immediates > 0
    ensures
      var r := RunImmediate(q);
      var launches := if q.phase == Ready && r.phase == Launching then 1 else 0;
      r == q.(phase := r.phase, timer := r.timer, readySince := r.readySince, frozen := r.frozen,
              launchedAt := r.launchedAt, immediates := q.immediates - 1, launches := q.launches + launches)
  {
  }

  lemma TimerPhase(q: Queue)
    requires Inv(q)
    ensures FireTimer(q).phase == if EndsReady(q, StepTimer) then Waiting else q.phase
  {
    if q.timer.ReadyUpTimer? && q.clock >= q.timer.due {
      KickUnreadyEffect(q.(timer := Disarmed));
      UnreadyEffect(KickUnreadyPlayers(q.(timer := Disarmed)));
    }
    if q.timer.UnreadyTimer? && q.clock >= q.timer.due {
      UnreadyEffect(q.(timer := Disarmed));
    }
  }

  lemma OtherPhases(q: Queue, step: Step)
    requires step != StepTimer && step != StepImmediate
    ensures Apply(q, step).phase == q.phase
  {
    if step.StepKick? {
      KickEachFrame(q, Present(step.players));
    }
  }

  /**
    In every run the phase changes exactly so: a callback makes a full waiting queue ready, an empty
    ready queue waiting, an all ready one launching, and ends launching; a timer makes a ready queue
    waiting.
   */
  lemma PhaseExactly(cfg: Config, steps: seq<Step>, step: Step)
    requires |EmptySlots(cfg.classes)| > 0
    ensures
      var q := Run(Fresh(cfg), steps);
      var r := Apply(q, step);
      && (q.phase == Waiting ==>
            && r.phase in {Waiting, Ready}
            && (r.phase == Ready <==> RunsCallback(q, step) && Full(q.slots)))
      && (q.phase == Ready ==>
            && (r.phase == Waiting <==> (RunsCallback(q, step) && Empty(q.slots)) || EndsReady(q, step))
            && (r.phase == Launching <==> RunsCallback(q, step) && AllReady(q.slots)))
      && (q.phase == Launching ==> r.phase in {Launching, Waiting} && (r.phase == Waiting <==> RunsCallback(q, step)))
  {
    Reachable(cfg, steps);
    var q := Run(Fresh(cfg), steps);
    if step == StepTimer {
      TimerPhase(q);
    } else if RunsCallback(q, step) {
      CallbackPhase(q);
      FullIsNotEmpty(q.slots);
      assert AllReady(q.slots) ==> Full(q.slots);
    } else if step != StepImmediate {
      OtherPhases(q, step);
    }
  }

  // ----- the timer

  lemma TimerAfterTimer(q: Queue)
    requires Inv(q)
    ensures
      var r := FireTimer(q);
      && (r.phase != Ready ==> r.timer == Disarmed)
      && (r.phase == Ready ==>
            && r.readySince == q.readySince
            && r.timer == if q.timer.ReadyUpTimer? && q.clock >= q.timer.due
                          then UnreadyTimer(q.readySince + q.cfg.readyStateTimeout) else q.timer)
  {
    TimerPhase(q);
    if q.timer.ReadyUpTimer? && q.clock >= q.timer.due {
      ReadyUpTimeoutEffect(q);
      KickUnreadyFrame(q.(timer := Disarmed));
    }
  }

  lemma TimerAfterOthers(q: Queue, step: Step)
    requires step != StepTimer && step != StepImmediate
    ensures Apply(q, step).timer == q.timer && Apply(q, step).readySince == q.readySince
  {
    if step.StepKick? {
      KickEachFrame(q, Present(step.players));
    }
  }

  /** The second timer makes the queue wait: everyone stays, nobody is ready. */
  lemma UnreadyTimeoutEffect(q: Queue)
    requires Inv(q) && q.timer.UnreadyTimer? && q.clock >= q.timer.due
    ensures
      var r := FireTimer(q);
      && |r.slots| == |q.slots|
      && (forall i :: 0 <= i < |q.slots| ==> r.slots[i] == q.slots[i].(ready := false))
      && r == q.(slots := r.slots, phase := Waiting, timer := Disarmed, immediates := q.immediates + 1,
                 changes := q.changes + 1)
  {
    UnreadyEffect(q.(timer := Disarmed));
    assert forall i :: 0 <= i < |q.slots| && q.slots[i].player.None? ==> !q.slots[i].ready;
  }

  ghost predicate FirstTimerFires(q: Queue, step: Step) {
    step == StepTimer && q.timer.ReadyUpTimer? && q.clock >= q.timer.due
  }

  /**
    In every run: entering ready arms the first timer, leaving it disarms; only the first timer
    itself arms the second; nothing else touches an armed timer.
   */
  lemma TimerExactly(cfg: Config, steps: seq<Step>, step: Step)
    requires |EmptySlots(cfg.classes)| > 0
    ensures
      var q := Run(Fresh(cfg), steps);
      var r := Apply(q, step);
      if r.phase != Ready then r.timer == Disarmed
      else if q.phase != Ready then r.timer == ReadyUpTimer(q.clock + cfg.readyUpTimeout) && r.readySince == q.clock
      else && r.readySince == q.readySince
           && r.timer ==
              if FirstTimerFires(q, step) then UnreadyTimer(q.readySince + cfg.readyStateTimeout) else q.timer
  {
    Reachable(cfg, steps);
    var q := Run(Fresh(cfg), steps);
    if step == StepTimer {
      TimerPhase(q);
      TimerAfterTimer(q);
    } else if step == StepImmediate {
      TimerAfterCallback(q);
    } else {
      OtherPhases(q, step);
      TimerAfterOthers(q, step);
    }
  }

  lemma TimerAfterCallback(q: Queue)
    requires TimerOk(q)
    ensures
      var r := RunImmediate(q);
      if r.phase != Ready then r.timer == Disarmed
      else if q.phase != Ready then r.timer == ReadyUpTimer(q.clock + q.cfg.readyUpTimeout) && r.readySince == q.clock
      else r.readySince == q.readySince && r.timer == q.timer
  {
  }

  // ----- callbacks

  /** Every published slot change schedules one callback, and running one takes it away. */
  lemma OneCallbackPerChange(q: Queue, step: Step)
    ensures
      var r := Apply(q, step);
      r.immediates + (if RunsCallback(q, step) then 1 else 0) == q.immediates + (r.changes - q.changes)
  {
    match step
    case StepKick(players) => KickEachFrame(q, Present(players));
    case StepTimer => TimerCallbacks(q);
    case StepJoinFinish(_) =>
    case _ =>
  }

  lemma TimerCallbacks(q: Queue)
    ensures FireTimer(q).immediates == q.immediates + (FireTimer(q).changes - q.changes)
  {
    KickCallbacks(q.(timer := Disarmed));
  }

  lemma KickCallbacks(q: Queue)
    ensures
      var k := KickUnreadyPlayers(q);
      k.immediates == q.immediates + (k.changes - q.changes)
  {
    KickEachFrame(q, UnreadyPlayers(q.slots));
  }

  /** Which steps publish a slot change: accepted calls, a kick of whomever outside launching, timers that act. */
  lemma PublishesExactly(cfg: Config, steps: seq<Step>, step: Step)
    requires |EmptySlots(cfg.classes)| > 0
    ensures
      var q := Run(Fresh(cfg), steps);
      Apply(q, step).changes > q.changes <==>
      match step
      case StepJoinFinish(admitted) =>
        && q.joining.Some? && admitted
        && q.joining.value.0 < |q.slots| && q.slots[q.joining.value.0].player.None?
      case StepLeave(player) =>
        exists i :: 0 <= i < |q.slots| && q.slots[i].player == Some(player) && (q.phase == Waiting || !q.slots[i].ready)
      case StepKick(_) => q.phase != Launching
      case StepReadyUp(player) => q.phase == Ready && player in Occupants(q.slots)
      case StepTimer => q.timer != Disarmed && q.clock >= q.timer.due && (EndsReady(q, step) || !AllReady(q.slots))
      case StepLaunchCompletes => q.launches > 0
      case _ => false
  {
    Reachable(cfg, steps);
    var q := Run(Fresh(cfg), steps);
    match step
    case StepJoinFinish(admitted) => if q.joining.Some? { JoinEffect(q, admitted); }
    case StepLeave(player) => LeavePublishes(q, player);
    case StepKick(players) => KickEachFrame(q, Present(players));
    case StepReadyUp(player) => ReadyUpPublishes(q, player);
    case StepTimer => TimerPublishesExactly(q);
    case _ =>
  }

  lemma LeavePublishes(q: Queue, player: PlayerId)
    requires Inv(q)
    ensures Leave(q, player).changes > q.changes <==>
            exists i ::
              0 <= i < |q.slots| && q.slots[i].player == Some(player) && (q.phase == Waiting || !q.slots[i].ready)
  {
    if i :| 0 <= i < |q.slots| && q.slots[i].player == Some(player) {
      LeaveEffect(q, player, i);
      SlotByPlayer(q, player, i);
    }
  }

  lemma ReadyUpPublishes(q: Queue, player: PlayerId)
    requires Inv(q)
    ensures ReadyUp(q, player).changes > q.changes <==> q.phase == Ready && player in Occupants(q.slots)
  {
    var i := FindPlayer(q.slots, Some(player));
    if i < |q.slots| {
      assert q.slots[i].player.Some? && q.slots[i].player.value == player;
    }
  }

  lemma KickUnreadyPublishes(q: Queue)
    requires q.phase == Ready
    ensures KickUnreadyPlayers(q).changes == q.changes + if AllReady(q.slots) then 0 else 1
  {
    Counts(q.slots);
    KickEachFrame(q, UnreadyPlayers(q.slots));
  }

  lemma TimerPublishesExactly(q: Queue)
    requires Inv(q)
    ensures FireTimer(q).changes > q.changes <==>
            q.timer != Disarmed && q.clock >= q.timer.due && (EndsReady(q, StepTimer) || !AllReady(q.slots))
  {
    if q.timer.ReadyUpTimer? && q.clock >= q.timer.due {
      KickUnreadyPublishes(q.(timer := Disarmed));
      KickUnreadyFrame(q.(timer := Disarmed));
    }
  }

  // ----- refusals

  ghost predicate Holds(q: Queue, player: PlayerId, i: nat) {
    i < |q.slots| && q.slots[i].player == Some(player)
  }

  /** A join is refused at once exactly in the launching phase; afterwards by who and what it asks for. */
  lemma JoinRefusalExactly(cfg: Config, steps: seq<Step>, id: nat, admitted: bool)
    requires |EmptySlots(cfg.classes)| > 0
    ensures
      var q := Run(Fresh(cfg), steps);
      && JoinStartRefusal(q) in {None, Some(CannotJoinAtThisQueueState)}
      && (JoinStartRefusal(q) == None <==> q.phase != Launching)
      && var refusal := JoinFinishRefusal(q, id, admitted);
      && (refusal == Some(PlayerNotAdmitted) <==> !admitted)
      && (refusal == Some(NoSuchSlot) <==> admitted && id >= |q.slots|)
      && (refusal == Some(SlotOccupied) <==> admitted && id < |q.slots| && q.slots[id].player.Some?)
      && (refusal == None <==> admitted && id < |q.slots| && q.slots[id].player.None?)
  {
    Reachable(cfg, steps);
    SlotById(Run(Fresh(cfg), steps), id);
  }

  /** One join at a time, under way from its state check to its claim. */
  lemma JoiningExactly(cfg: Config, steps: seq<Step>, step: Step)
    requires |EmptySlots(cfg.classes)| > 0
    ensures
      var q := Run(Fresh(cfg), steps);
      var r := Apply(q, step);
      && (r.joining != q.joining ==>
            (q.joining == None && step.StepJoinStart?) || (r.joining == None && step.StepJoinFinish?))
      && (step.StepJoinStart? && q.joining == None && q.phase != Launching ==>
            r == q.(joining := Some((step.slotId, step.player))))
      && (step.StepJoinStart? && (q.joining != None || q.phase == Launching) ==> r == q)
      && (step.StepJoinFinish? ==> r.joining == None)
  {
    Reachable(cfg, steps);
    var q := Run(Fresh(cfg), steps);
    match step
    case StepJoinFinish(admitted) => if q.joining.Some? { JoinEffect(q, admitted); }
    case StepKick(players) => KickEachFrame(q, Present(players));
    case StepTimer => TimerFrame(q);
    case _ =>
  }

  lemma ReadyUpRefusalExactly(q: Queue, player: PlayerId)
    ensures ReadyUpRefusal(q, player) == Some(WrongQueueState) <==> q.phase != Ready
    ensures ReadyUpRefusal(q, player) == Some(PlayerNotInTheQueue) <==>
            q.phase == Ready && player !in Occupants(q.slots)
    ensures ReadyUpRefusal(q, player) == None <==> q.phase == Ready && player in Occupants(q.slots)
  {
    InQueue(q.slots, player);
  }

  lemma InQueue(slots: seq<Slot>, player: PlayerId)
    ensures player in Occupants(slots) <==> FindPlayer(slots, Some(player)) < |slots|
  {
    var i := FindPlayer(slots, Some(player));
    if i < |slots| {
      assert slots[i].player.value == player;
    }
  }

  /** A player may always leave a waiting queue, and any other until ready. */
  lemma LeaveRefusalExactly(cfg: Config, steps: seq<Step>, player: PlayerId)
    requires |EmptySlots(cfg.classes)| > 0
    ensures
      var q := Run(Fresh(cfg), steps);
      var refusal := LeaveRefusal(q, player);
      && (refusal == Some(PlayerNotInTheQueue) <==> player !in Occupants(q.slots))
      && (refusal == Some(CannotLeaveAtThisQueueState) <==>
            exists i: nat :: Holds(q, player, i) && q.slots[i].ready && q.phase != Waiting)
      && (refusal == None <==> exists i: nat :: Holds(q, player, i) && (q.phase == Waiting || !q.slots[i].ready))
  {
    Reachable(cfg, steps);
    var q := Run(Fresh(cfg), steps);
    InQueue(q.slots, player);
    var k := FindPlayer(q.slots, Some(player));
    if k < |q.slots| {
      assert Holds(q, player, k);
      forall i: nat | Holds(q, player, i) ensures i == k {
        SlotByPlayer(q, player, i);
      }
    }
  }

  // ----- the reset

  /** A launch that made its game empties every slot and forgets what was before; phase and timer stay as they are. */
  lemma ResetEffect(cfg: Config, steps: seq<Step>)
    requires |EmptySlots(cfg.classes)| > 0 && Run(Fresh(cfg), steps).launches > 0
    ensures
      var q := Run(Fresh(cfg), steps);
      var r := Apply(q, StepLaunchCompletes);
      && |r.slots| == |q.slots|
      && (forall i :: 0 <= i < |q.slots| ==> r.slots[i] == Clear(q.slots[i]))
      && r == q.(slots := r.slots, launches := q.launches - 1, launchFailed := false, frozen := false, log := [],
                 immediates := q.immediates + 1, changes := q.changes + 1)
  {
    Reachable(cfg, steps);
    var q := Run(Fresh(cfg), steps);
    forall i | 0 <= i < |q.slots| ensures EmptySlots(cfg.classes)[i] == Clear(q.slots[i]) {
    }
  }

  /** A launch that throws leaves everything as it is. */
  lemma ThrowEffect(q: Queue)
    requires q.launches > 0
    ensures Apply(q, StepLaunchFails) == q.(launches := q.launches - 1, launchFailed := true)
  {
  }

  // ----- the events of a kick

  /** How often a listener was told that the player left. */
  ghost function TimesLeft(log: seq<Event>, p: PlayerId): nat {
    multiset(log)[Left(Some(p))]
  }

  lemma OneKickEvent(q: Queue, who: Option<PlayerId>, p: PlayerId)
    ensures
      TimesLeft(KickOne(q, who).log, p) ==
      TimesLeft(q.log, p) + if who == Some(p) && p in Occupants(q.slots) then 1 else 0
  {
    InQueue(q.slots, p);
    var i := FindPlayer(q.slots, who);
    if i < |q.slots| {
      assert multiset(q.log + [Left(who)]) == multiset(q.log) + multiset{Left(who)};
    }
  }

  /** A kick publishes once that a player left, exactly for the kicked players that were queued. */
  lemma {:induction false} KickEvents(q: Queue, players: seq<Option<PlayerId>>, p: PlayerId)
    requires SlotsOk(q)
    ensures
      TimesLeft(KickEach(q, players).log, p) ==
      TimesLeft(q.log, p) + if Some(p) in players && p in Occupants(q.slots) then 1 else 0
  {
    if players != [] {
      var init, who := players[..|players|-1], players[|players|-1];
      KickEvents(q, init, p);
      OneKickEvent(KickEach(q, init), who, p);
      StillQueued(q, init, p);
      Snoc(players);
    }
  }

  /** After some kicks a player is still queued exactly if not among the kicked. */
  lemma StillQueued(q: Queue, players: seq<Option<PlayerId>>, p: PlayerId)
    requires SlotsOk(q)
    ensures p in Occupants(KickEach(q, players).slots) <==> p in Occupants(q.slots) && Some(p) !in players
  {
    KickEachKeeps(q, players);
    var r := KickEach(q, players);
    if p in Occupants(q.slots) && Some(p) !in players {
      var i :| 0 <= i < |q.slots| && q.slots[i].player == Some(p);
      assert r.slots[i].player == Some(p);
    }
    if p in Occupants(r.slots) {
      var i :| 0 <= i < |r.slots| && r.slots[i].player == Some(p);
      assert q.slots[i].player == Some(p);
    }
  }

  ghost predicate HasRoom(slots: seq<Slot>) {
    exists i :: 0 <= i < |slots| && slots[i].player.None?
  }

  lemma RoomStays(q: Queue, who: Option<PlayerId>)
    requires HasRoom(q.slots)
    ensures
      var r := KickOne(q, who);
      && HasRoom(r.slots)
      && (who == None ==> r.log == q.log + [Left(None)])
      && (who != None ==> r.log == q.log || r.log == q.log + [Left(who)])
  {
    var e :| 0 <= e < |q.slots| && q.slots[e].player.None?;
    var i := FindPlayer(q.slots, who);
    if i < |q.slots| {
      assert KickOne(q, who).slots[i].player.None?;
    }
  }

  /** Kicking an empty slot, as the first timeout does for each slot still free, publishes an event of nobody. */
  lemma {:induction false} EmptyKickEvents(q: Queue, players: seq<Option<PlayerId>>)
    requires HasRoom(q.slots)
    ensures
      var r := KickEach(q, players);
      HasRoom(r.slots) && multiset(r.log)[Left(None)] == multiset(q.log)[Left(None)] + multiset(players)[None]
  {
    if players != [] {
      var init, who := players[..|players|-1], players[|players|-1];
      EmptyKickEvents(q, init);
      Snoc(players);
      RoomStays(KickEach(q, init), who);
    }
  }

  // ----- time

  /** Time passes by as much as it is told, but not beyond an armed timer. */
  lemma ElapseExactly(q: Queue, ms: nat)
    ensures
      var r := Apply(q, StepElapse(ms));
      && r == q.(clock := r.clock)
      && r.clock == if q.timer == Disarmed || q.clock + ms <= q.timer.due then q.clock + ms else q.clock
  {
  }

  // ----- the layout

  /** The slots of a class come after those of all classes before it, `count` for each team. */
  lemma {:induction false} LayoutInOrder(classes: seq<GameClass>, k: nat, i: nat)
    requires k < |classes| && i < TEAM_COUNT * classes[k].count
    ensures
      var first := |EmptySlots(classes[..k])|;
      && first + i < |EmptySlots(classes)|
      && EmptySlots(classes)[first + i] == Slot(first + i, classes[k].name, classes[k].canMakeFriendsWith, None, false)
    decreases |classes|
  {
    var init := classes[..|classes|-1];
    if k == |init| {
      assert EmptySlots(classes)[|EmptySlots(init)| + i] == NewSlot(|EmptySlots(init)| + i, classes[k]);
    } else {
      assert init[..k] == classes[..k];
      LayoutInOrder(init, k, i);
    }
  }
}
