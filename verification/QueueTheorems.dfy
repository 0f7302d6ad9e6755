/** The promises of the queue, for every run from a fresh start. */
module QueueTheorems {
  import opened Common
  import opened QueueModel
  import opened QueueSafety

  lemma {:induction false} RunKeeps(q: Queue, steps: seq<Step>)
    requires Inv(q)
    ensures Inv(Run(q, steps)) && Run(q, steps).cfg == q.cfg
  {
    if steps != [] {
      RunKeeps(q, steps[..|steps|-1]);
      StepKeeps(Run(q, steps[..|steps|-1]), steps[|steps|-1]);
      StepKeepsConfig(Run(q, steps[..|steps|-1]), steps[|steps|-1]);
    }
  }

  lemma {:induction false} KickEachFrame(q: Queue, players: seq<Option<PlayerId>>)
    ensures KickEach(q, players) == q.(slots := KickEach(q, players).slots, log := KickEach(q, players).log)
  {
    if players != [] {
      KickEachFrame(q, players[..|players|-1]);
    }
  }

  lemma KickUnreadyFrame(q: Queue)
    ensures
      var k := KickUnreadyPlayers(q);
      k == q.(slots := k.slots, log := k.log, immediates := k.immediates, changes := k.changes)
  {
    KickEachFrame(q, UnreadyPlayers(q.slots));
  }

  /** The configuration, the join under way and the launches are no business of a timer. */
  lemma TimerFrame(q: Queue)
    ensures
      var r := FireTimer(q);
      && r.cfg == q.cfg && r.joining == q.joining
      && r.launches == q.launches && r.launchFailed == q.launchFailed && r.launchedAt == q.launchedAt
  {
    match q.timer
    case ReadyUpTimer(due) => if q.clock >= due { TimeoutFrame(q.(timer := Disarmed)); }
    case _ =>
  }

  lemma TimeoutFrame(q: Queue)
    ensures
      var r := OnReadyUpTimeout(q);
      && r.cfg == q.cfg && r.joining == q.joining
      && r.launches == q.launches && r.launchFailed == q.launchFailed && r.launchedAt == q.launchedAt
  {
    KickUnreadyFrame(q);
    var k := KickUnreadyPlayers(q);
    assert k.cfg == q.cfg && k.joining == q.joining && k.launches == q.launches
        && k.launchFailed == q.launchFailed && k.launchedAt == q.launchedAt;
  }

  lemma StepKeepsConfig(q: Queue, step: Step)
    ensures Apply(q, step).cfg == q.cfg
  {
    match step
    case StepKick(players) => KickEachFrame(q, Present(players));
    case StepTimer => TimerFrame(q);
    case _ =>
  }

  lemma Reachable(cfg: Config, steps: seq<Step>)
    requires |EmptySlots(cfg.classes)| > 0
    ensures Inv(Run(Fresh(cfg), steps)) && Run(Fresh(cfg), steps).cfg == cfg
  {
    FreshSlotsOk(Fresh(cfg));
    assert Fresh(cfg).slots[0].player.None?;
    RunKeeps(Fresh(cfg), steps);
  }

  // ----- no lost update

  ghost predicate NothingLost(q: Queue) {
    && (q.phase == Waiting && PlayerCount(q.slots) == |q.slots| ==>
          q.immediates > 0 || ((q.launches > 0 || q.launchFailed) && q.changes == q.launchedAt))
    && (q.phase == Ready && PlayerCount(q.slots) == 0 ==> q.immediates > 0)
    && (q.phase == Launching && ReadyCount(q.slots) < |q.slots| ==> q.immediates > 0)
  }

  /**
    A queue that could move on has a callback scheduled.  The one exception is a queue that is back
    in waiting from launching, with a launch that has yet to reset it or has failed, and that
    nobody has touched since.  This holds of exactly the configurations that have a slot at all.
   */
  lemma NoLostUpdate(cfg: Config)
    ensures (forall steps :: NothingLost(Run(Fresh(cfg), steps))) <==> |EmptySlots(cfg.classes)| > 0
  {
    if |EmptySlots(cfg.classes)| > 0 {
      forall steps ensures NothingLost(Run(Fresh(cfg), steps)) {
        Reachable(cfg, steps);
        Counts(Run(Fresh(cfg), steps).slots);
      }
    } else {
      assert !NothingLost(Run(Fresh(cfg), []));
    }
  }

  // ----- launch freeze

  /** Launching, with every slot held by its own ready player. */
  lemma LaunchingIsFull(cfg: Config, steps: seq<Step>)
    requires |EmptySlots(cfg.classes)| > 0
    ensures
      var q := Run(Fresh(cfg), steps);
      q.frozen ==>
        && q.phase == Launching
        && (forall i :: 0 <= i < |q.slots| ==> q.slots[i].player.Some? && q.slots[i].ready)
        && (forall i, j :: 0 <= i < j < |q.slots| ==> q.slots[i].player != q.slots[j].player)
  {
    Reachable(cfg, steps);
  }

  /** While launching and not yet reset, only the reset touches a slot, even if it ends the launching phase. */
  lemma FrozenStep(q: Queue, step: Step)
    requires Inv(q) && q.frozen && (step == StepLaunchCompletes ==> q.launches == 0)
    ensures Apply(q, step).slots == q.slots
    ensures Apply(q, step).frozen || Apply(q, step).phase == Waiting
  {
    match step
    case StepJoinFinish(admitted) =>
      if q.joining.Some? {
        var t := FindId(q.slots, q.joining.value.0);
        assert t < |q.slots| ==> q.slots[t].player.Some?;
      }
    case StepLeave(player) =>
      var i := FindPlayer(q.slots, Some(player));
      assert i < |q.slots| ==> q.slots[i].ready;
    case _ =>
  }

  ghost predicate FrozenThroughout(q: Queue, steps: seq<Step>) {
    forall k :: 0 <= k <= |steps| ==> Run(q, steps[..k]).frozen
  }

  /** From the moment launching is entered until it is left or the queue is reset, no slot changes. */
  lemma {:induction false} LaunchFreeze(cfg: Config, before: seq<Step>, steps: seq<Step>)
    requires |EmptySlots(cfg.classes)| > 0
    requires FrozenThroughout(Run(Fresh(cfg), before), steps)
    ensures Run(Run(Fresh(cfg), before), steps).slots == Run(Fresh(cfg), before).slots
  {
    var q := Run(Fresh(cfg), before);
    if steps != [] {
      var init, last := steps[..|steps|-1], steps[|steps|-1];
      assert forall k :: 0 <= k <= |init| ==> init[..k] == steps[..k];
      LaunchFreeze(cfg, before, init);
      Reachable(cfg, before);
      RunKeeps(q, init);
      assert init == steps[..|init|] && steps == steps[..|steps|];
      assert Run(q, init).frozen && Run(q, steps).frozen;
      FrozenStep(Run(q, init), last);
    }
  }

  // ----- a failed launch

  ghost predicate Blocked(q: Queue) {
    q.frozen && q.immediates == 0 && q.launches == 0
  }

  lemma BlockedStep(q: Queue, step: Step)
    requires Inv(q) && Blocked(q)
    ensures Blocked(Apply(q, step)) && Apply(q, step).slots == q.slots && Apply(q, step).phase == Launching
  {
    FrozenStep(q, step);
    match step
    case StepJoinFinish(admitted) =>
      if q.joining.Some? {
        var t := FindId(q.slots, q.joining.value.0);
        assert t < |q.slots| ==> q.slots[t].player.Some?;
      }
    case StepLeave(player) =>
      var i := FindPlayer(q.slots, Some(player));
      assert i < |q.slots| ==> q.slots[i].ready;
    case _ =>
  }

  lemma {:induction false} BlockedStays(q: Queue, steps: seq<Step>)
    requires Inv(q) && Blocked(q)
    ensures
      var r := Run(q, steps);
      Blocked(r) && r.slots == q.slots && r.phase == Launching
  {
    if steps != [] {
      BlockedStays(q, steps[..|steps|-1]);
      RunKeeps(q, steps[..|steps|-1]);
      BlockedStep(Run(q, steps[..|steps|-1]), steps[|steps|-1]);
    }
  }

  lemma RunOne(q: Queue, step: Step)
    ensures Run(q, [step]) == Apply(q, step)
  {
    assert [step][..0] == [];
  }

  /**
    A launching queue can never change a slot or its phase again exactly if the launch has thrown
    and no callback is left.
   */
  lemma FailedLaunchBlocksTheQueue(q: Queue)
    requires Inv(q) && q.phase == Launching
    ensures
      (forall steps :: Run(q, steps).phase == Launching && Run(q, steps).slots == q.slots)
      <==> Blocked(q)
  {
    if Blocked(q) {
      forall steps ensures Run(q, steps).phase == Launching && Run(q, steps).slots == q.slots {
        BlockedStays(q, steps);
      }
    } else if q.immediates > 0 {
      RunOne(q, StepImmediate);
      assert Run(q, [StepImmediate]).phase == Waiting;
    } else {
      RunOne(q, StepLaunchCompletes);
      EmptySlotsAreFresh(q.cfg.classes);
      assert Run(q, [StepLaunchCompletes]).slots[0].player.None? && q.slots[0].player.Some?;
    }
  }

  // ----- published changes

  /** Slots never change, and callbacks are never added, without a published slot change. */
  lemma StepPublishes(q: Queue, step: Step)
    requires Inv(q)
    ensures
      var r := Apply(q, step);
      && r.changes >= q.changes
      && (r.changes == q.changes ==> r.slots == q.slots && r.immediates <= q.immediates)
      && (r.changes > q.changes ==> r.immediates > 0)
  {
    match step
    case StepKick(players) => KickPublishes(q, Present(players));
    case StepTimer => TimerPublishes(q);
    case _ =>
  }

  lemma KickPublishes(q: Queue, players: seq<Option<PlayerId>>)
    ensures
      var r := Kick(q, players);
      r == q || (r.changes > q.changes && r.immediates > 0)
  {
    KickEachFrame(q, players);
  }

  lemma TimerPublishes(q: Queue)
    requires Inv(q)
    ensures
      var r := FireTimer(q);
      && r.changes >= q.changes
      && (r.changes == q.changes ==> r.slots == q.slots && r.immediates == q.immediates)
      && (r.changes > q.changes ==> r.immediates > 0)
  {
    if q.timer.ReadyUpTimer? {
      KickPublishes(q.(timer := Disarmed), UnreadyPlayers(q.slots));
    }
  }

  // ----- a ready queue that nobody looks at

  /** Every slot ready in the ready phase, and no callback that would launch. */
  ghost predicate Stalled(q: Queue) {
    q.phase == Ready && AllReady(q.slots) && q.immediates == 0
  }

  /** Without a published change, only a callback changes the phase. */
  lemma SilentStep(q: Queue, step: Step)
    requires Inv(q) && step != StepImmediate && Apply(q, step).changes == q.changes
    ensures Apply(q, step).phase == q.phase && Apply(q, step).immediates == q.immediates
  {
    match step
    case StepKick(players) => KickPublishes(q, Present(players));
    case StepTimer => if q.timer.ReadyUpTimer? { KickPublishes(q.(timer := Disarmed), UnreadyPlayers(q.slots)); }
    case _ =>
  }

  lemma CallbackStalls(q: Queue)
    requires |q.slots| > 0 && ReadyIsOccupied(q.slots) && !Stalled(q)
    ensures Stalled(RunImmediate(q)) <==>
            q.immediates == 1 && q.phase == Waiting && Full(q.slots) && AllReady(q.slots)
  {
    Counts(q.slots);
    assert q.slots[0].player.Some? || q.slots[0].player.None?;
  }

  lemma OthersDoNotStall(q: Queue, step: Step)
    requires Inv(q) && !Stalled(q) && step != StepImmediate
    ensures !Stalled(Apply(q, step))
  {
    StepPublishes(q, step);
    if Apply(q, step).changes == q.changes {
      SilentStep(q, step);
    }
  }

  /**
    The queue stalls exactly when its last callback finds it waiting with every slot taken and
    ready: it becomes ready, and nobody looks again.
   */
  lemma StallBeginsExactly(cfg: Config, steps: seq<Step>, step: Step)
    requires |EmptySlots(cfg.classes)| > 0 && !Stalled(Run(Fresh(cfg), steps))
    ensures
      var q := Run(Fresh(cfg), steps);
      Stalled(Apply(q, step)) <==>
      step == StepImmediate && q.immediates == 1 && q.phase == Waiting && Full(q.slots) && AllReady(q.slots)
  {
    Reachable(cfg, steps);
    var q := Run(Fresh(cfg), steps);
    if step == StepImmediate {
      CallbackStalls(q);
    } else {
      OthersDoNotStall(q, step);
    }
  }

  /** The stall ends exactly with the next published slot change. */
  lemma StallEndsExactly(cfg: Config, steps: seq<Step>, step: Step)
    requires |EmptySlots(cfg.classes)| > 0 && Stalled(Run(Fresh(cfg), steps))
    ensures
      var q := Run(Fresh(cfg), steps);
      !Stalled(Apply(q, step)) <==> Apply(q, step).changes > q.changes
  {
    Reachable(cfg, steps);
    var q := Run(Fresh(cfg), steps);
    StepPublishes(q, step);
    if step != StepImmediate && Apply(q, step).changes == q.changes {
      SilentStep(q, step);
    }
  }

  // ----- how many launches

  /** A launch begins exactly when a callback finds the queue ready with every slot ready, launches under way or not. */
  lemma LaunchBeginsExactly(cfg: Config, steps: seq<Step>, step: Step)
    requires |EmptySlots(cfg.classes)| > 0
    ensures
      var q := Run(Fresh(cfg), steps);
      Apply(q, step).launches > q.launches <==>
      step == StepImmediate && q.immediates > 0 && q.phase == Ready && AllReady(q.slots)
  {
    Reachable(cfg, steps);
    var q := Run(Fresh(cfg), steps);
    if step == StepImmediate {
      CallbackLaunches(q);
    } else if step != StepLaunchCompletes && step != StepLaunchFails {
      OthersKeepLaunches(q, step);
    }
  }

  lemma CallbackLaunches(q: Queue)
    requires |q.slots| > 0 && ReadyIsOccupied(q.slots)
    ensures RunImmediate(q).launches > q.launches <==> q.immediates > 0 && q.phase == Ready && AllReady(q.slots)
    ensures RunImmediate(q).launches > q.launches ==>
              RunImmediate(q) == SetPhase(q.(immediates := q.immediates - 1), Launching)
  {
    Counts(q.slots);
    assert AllReady(q.slots) ==> q.slots[0].player.Some?;
  }

  lemma OthersKeepLaunches(q: Queue, step: Step)
    requires step != StepImmediate && step != StepLaunchCompletes && step != StepLaunchFails
    ensures Apply(q, step).launches == q.launches
  {
    match step
    case StepKick(players) => KickEachFrame(q, Present(players));
    case StepTimer => TimerFrame(q);
    case _ =>
  }

  // ----- after a launch that throws

  /** Launching starts with a full queue, and every later slot change is published. */
  ghost predicate Untouched(q: Queue) {
    q.launchedAt <= q.changes && (LaunchOutstanding(q) && q.changes == q.launchedAt ==> Full(q.slots))
  }

  lemma OthersKeepUntouched(q: Queue, step: Step)
    requires Inv(q) && Untouched(q) && step != StepImmediate
    ensures Untouched(Apply(q, step))
  {
    StepPublishes(q, step);
    match step
    case StepKick(players) => KickEachFrame(q, Present(players));
    case StepTimer => TimerFrame(q);
    case _ =>
  }

  lemma {:induction false} RunKeepsUntouched(cfg: Config, steps: seq<Step>)
    requires |EmptySlots(cfg.classes)| > 0
    ensures Untouched(Run(Fresh(cfg), steps))
  {
    if steps != [] {
      var init, last := steps[..|steps|-1], steps[|steps|-1];
      RunKeepsUntouched(cfg, init);
      Reachable(cfg, init);
      var q := Run(Fresh(cfg), init);
      if last == StepImmediate {
        CallbackLaunches(q);
      } else {
        OthersKeepUntouched(q, last);
      }
    }
  }

  /**
    A waiting queue without a callback is full exactly if a launch has yet to reset it, or has
    thrown, and nobody has touched a slot since launching was entered.
   */
  lemma WaitingFullExactly(cfg: Config, steps: seq<Step>)
    requires |EmptySlots(cfg.classes)| > 0
    requires Run(Fresh(cfg), steps).phase == Waiting && Run(Fresh(cfg), steps).immediates == 0
    ensures
      var q := Run(Fresh(cfg), steps);
      Full(q.slots) <==> (q.launches > 0 || q.launchFailed) && q.changes == q.launchedAt
  {
    Reachable(cfg, steps);
    RunKeepsUntouched(cfg, steps);
  }

  /** Waiting and full, and nobody will look: no callback, no launch that would reset the queue. */
  ghost predicate Missed(q: Queue) {
    q.phase == Waiting && Full(q.slots) && q.immediates == 0 && q.launches == 0
  }

  /** An update is missed exactly if a launch has thrown, no other is out, and no slot was touched since. */
  lemma MissedExactly(cfg: Config, steps: seq<Step>)
    requires |EmptySlots(cfg.classes)| > 0
    ensures
      var q := Run(Fresh(cfg), steps);
      Missed(q) <==>
      q.phase == Waiting && q.immediates == 0 && q.launches == 0 && q.launchFailed && q.changes == q.launchedAt
  {
    if Run(Fresh(cfg), steps).phase == Waiting && Run(Fresh(cfg), steps).immediates == 0 {
      WaitingFullExactly(cfg, steps);
    }
  }

  /** A missed update is noticed exactly with the next published slot change. */
  lemma MissedEndsExactly(cfg: Config, steps: seq<Step>, step: Step)
    requires |EmptySlots(cfg.classes)| > 0 && Missed(Run(Fresh(cfg), steps))
    ensures
      var q := Run(Fresh(cfg), steps);
      !Missed(Apply(q, step)) <==> Apply(q, step).changes > q.changes
  {
    Reachable(cfg, steps);
    var q := Run(Fresh(cfg), steps);
    StepPublishes(q, step);
    if step == StepImmediate {
    } else if step != StepLaunchCompletes && step != StepLaunchFails {
      OthersKeepLaunches(q, step);
      if Apply(q, step).changes == q.changes {
        SilentStep(q, step);
      }
    }
  }

  // ----- ready window

  function Max(a: nat, b: nat): nat { if a < b then b else a }

  /**
    A timer is armed exactly in the ready phase; that phase never outlasts the longer of the two
    timeouts; and once the first timer has fired every occupied slot is ready.
   */
  lemma ReadyWindow(cfg: Config, steps: seq<Step>)
    requires |EmptySlots(cfg.classes)| > 0
    ensures
      var q := Run(Fresh(cfg), steps);
      && (q.phase == Ready <==> q.timer != Disarmed)
      && (q.phase == Ready ==>
            && q.clock <= q.timer.due
            && q.timer.due <= q.readySince + Max(cfg.readyUpTimeout, cfg.readyStateTimeout))
      && (q.phase == Ready && q.clock > q.readySince + cfg.readyUpTimeout ==> q.timer.UnreadyTimer?)
      && (q.timer.UnreadyTimer? ==>
            forall i :: 0 <= i < |q.slots| && q.slots[i].player.Some? ==> q.slots[i].ready)
  {
    Reachable(cfg, steps);
  }

  // ----- who is in the queue

  lemma QueueMembership(cfg: Config, steps: seq<Step>)
    requires |EmptySlots(cfg.classes)| > 0
    ensures
      var q := Run(Fresh(cfg), steps);
      && |q.slots| == |EmptySlots(cfg.classes)|
      && (forall i :: 0 <= i < |q.slots| ==> q.slots[i].id == i && Clear(q.slots[i]) == EmptySlots(cfg.classes)[i])
      && (forall i, j :: 0 <= i < j < |q.slots| && q.slots[i].player.Some? ==>
            q.slots[i].player != q.slots[j].player)
      && (forall i :: 0 <= i < |q.slots| && q.slots[i].ready ==> q.slots[i].player.Some?)
      && (forall p :: p in Replay(q.log) <==> exists i :: 0 <= i < |q.slots| && q.slots[i].player == Some(p))
  {
    Reachable(cfg, steps);
    EmptySlotsAreFresh(cfg.classes);
    var q := Run(Fresh(cfg), steps);
    forall i | 0 <= i < |q.slots| ensures q.slots[i].id == i {
      assert Clear(q.slots[i]) == EmptySlots(cfg.classes)[i];
    }
    forall p ensures p in Replay(q.log) <==> exists i :: 0 <= i < |q.slots| && q.slots[i].player == Some(p) {
      assert p in Replay(q.log) <==> p in Occupants(q.slots);
    }
  }

  // ----- what the players' calls do

  /** Slot ids are positions, so a lookup by id is exact. */
  lemma SlotById(q: Queue, id: nat)
    requires Inv(q)
    ensures FindId(q.slots, id) == if id < |q.slots| then id else |q.slots|
  {
    EmptySlotsAreFresh(q.cfg.classes);
    forall i | 0 <= i < |q.slots| ensures q.slots[i].id == i {
      assert Clear(q.slots[i]) == EmptySlots(q.cfg.classes)[i];
    }
    var t := FindId(q.slots, id);
    assert t < |q.slots| ==> q.slots[t].id == t;
    assert id < |q.slots| ==> q.slots[id].id == id;
  }

  lemma SlotByPlayer(q: Queue, player: PlayerId, i: nat)
    requires Inv(q) && i < |q.slots| && q.slots[i].player == Some(player)
    ensures FindPlayer(q.slots, Some(player)) == i
  {
  }

  lemma ClaimReady(q: Queue, t: nat, player: PlayerId)
    requires t < |q.slots|
    ensures
      var r := ClaimSlot(q, t, player);
      r.slots[t].ready <==> (q.slots[t].ready && q.slots[t].player != Some(player)) || q.phase == Ready || Full(r.slots)
  {
    var r := ClaimSlot(q, t, player);
    var cleared := ClearPlayer(q.slots, player);
    var claimed := cleared[t := cleared[t].(player := Some(player))];
    Counts(claimed);
    assert |r.slots| == |claimed| && forall i :: 0 <= i < |claimed| ==> claimed[i].player == r.slots[i].player;
  }

  /** A player who only changes slots publishes no join. */
  lemma ClaimEvent(q: Queue, t: nat, player: PlayerId)
    requires t < |q.slots|
    ensures ClaimSlot(q, t, player).log == if player in Occupants(q.slots) then q.log else q.log + [Joined(player)]
  {
    if FindPlayer(q.slots, Some(player)) < |q.slots| {
      assert q.slots[FindPlayer(q.slots, Some(player))].player.value == player;
    }
  }

  lemma ClaimEffect(q: Queue, id: nat, player: PlayerId)
    requires Inv(q) && id < |q.slots| && q.slots[id].player.None?
    ensures
      var r := ClaimSlot(q, id, player);
      && |r.slots| == |q.slots|
      && r.slots[id].player == Some(player)
      && (r.slots[id].ready <==> q.phase == Ready || Full(r.slots))
      && Occupants(r.slots) == Occupants(q.slots) + {player}
      && Clear(r.slots[id]) == Clear(q.slots[id])
      && (forall i :: 0 <= i < |q.slots| && i != id ==>
            r.slots[i] == if q.slots[i].player == Some(player) then Clear(q.slots[i]) else q.slots[i])
      && r == q.(slots := r.slots, immediates := q.immediates + 1, changes := q.changes + 1,
                 log := if player in Occupants(q.slots) then q.log else q.log + [Joined(player)])
  {
    ClaimSlots(q, id, player);
    ClaimOccupants(q.slots, ClaimSlot(q, id, player).slots, id, player);
    ClaimReady(q, id, player);
    ClaimEvent(q, id, player);
  }

  /** An admitted player gets the slot exactly if it exists and is empty, and leaves any other slot. */
  lemma JoinEffect(q: Queue, admitted: bool)
    requires Inv(q) && q.joining.Some?
    ensures
      var (id, player) := q.joining.value;
      var r := JoinFinish(q, admitted);
      if admitted && id < |q.slots| && q.slots[id].player.None? then
        && |r.slots| == |q.slots|
        && r.slots[id].player == Some(player)
        && (r.slots[id].ready <==> q.phase == Ready || Full(r.slots))
        && Occupants(r.slots) == Occupants(q.slots) + {player}
        && Clear(r.slots[id]) == Clear(q.slots[id])
        && (forall i :: 0 <= i < |q.slots| && i != id ==>
              r.slots[i] == if q.slots[i].player == Some(player) then Clear(q.slots[i]) else q.slots[i])
        && r == q.(joining := None, slots := r.slots, immediates := q.immediates + 1, changes := q.changes + 1,
                   log := if player in Occupants(q.slots) then q.log else q.log + [Joined(player)])
      else r == q.(joining := None)
  {
    var (id, player) := q.joining.value;
    SlotById(q, id);
    if admitted && id < |q.slots| && q.slots[id].player.None? {
      assert JoinFinish(q, admitted) == ClaimSlot(q.(joining := None), id, player);
      ClaimEffect(q.(joining := None), id, player);
    }
  }

  /** A player leaves exactly the own slot, unless ready outside the waiting phase. */
  lemma LeaveEffect(q: Queue, player: PlayerId, i: nat)
    requires Inv(q) && i < |q.slots| && q.slots[i].player == Some(player)
    ensures
      var r := Leave(q, player);
      if q.phase == Waiting || !q.slots[i].ready
      then && r == q.(slots := q.slots[i := Clear(q.slots[i])], immediates := q.immediates + 1,
                      changes := q.changes + 1, log := q.log + [Left(Some(player))])
           && player !in Occupants(r.slots)
      else r == q
  {
    SlotByPlayer(q, player, i);
  }

  /** A kick outside the launching phase removes exactly the players named. */
  lemma KickEffect(q: Queue, players: seq<PlayerId>)
    requires Inv(q) && q.phase != Launching
    ensures
      var r := Kick(q, Present(players));
      && Occupants(r.slots) == Occupants(q.slots) - (set p | p in players)
      && r == q.(slots := r.slots, log := r.log, immediates := q.immediates + 1, changes := q.changes + 1)
      && |r.slots| == |q.slots|
      && forall i :: 0 <= i < |q.slots| && (q.slots[i].player.Some? ==> q.slots[i].player.value !in players) ==>
           r.slots[i] == q.slots[i]
  {
    var who := Present(players);
    KickEachKeeps(q, who);
    forall p ensures Some(p) in who <==> p in players {
      if p in players {
        var k :| 0 <= k < |players| && players[k] == p;
        assert who[k] == Some(p);
      }
    }
    var r := Kick(q, who);
    forall x ensures x in Occupants(r.slots) <==> x in Occupants(q.slots) && x !in players {
      if x in Occupants(q.slots) && x !in players {
        var j :| 0 <= j < |q.slots| && q.slots[j].player == Some(x);
        assert r.slots[j].player == Some(x);
      }
    }
  }

  /** Readying up makes the own slot ready and touches no other. */
  lemma ReadyUpEffect(q: Queue, player: PlayerId, i: nat)
    requires Inv(q) && q.phase == Ready && i < |q.slots| && q.slots[i].player == Some(player)
    ensures ReadyUp(q, player) == q.(slots := q.slots[i := q.slots[i].(ready := true)],
                                     immediates := q.immediates + 1, changes := q.changes + 1)
  {
    SlotByPlayer(q, player, i);
  }

  lemma UnreadyOnly(slots: seq<Slot>)
    ensures forall p :: p in UnreadyPlayers(slots) ==>
              exists i :: 0 <= i < |slots| && !slots[i].ready && slots[i].player == p
  {
    if slots != [] {
      var init := slots[..|slots|-1];
      UnreadyOnly(init);
      forall p | p in UnreadyPlayers(slots)
        ensures exists i :: 0 <= i < |slots| && !slots[i].ready && slots[i].player == p
      {
        if p in UnreadyPlayers(init) {
          var i :| 0 <= i < |init| && !init[i].ready && init[i].player == p;
          assert !slots[i].ready && slots[i].player == p;
        } else {
          assert !slots[|init|].ready && slots[|init|].player == p;
        }
      }
    }
  }

  lemma ReadyPlayersAreNot(slots: seq<Slot>)
    requires OneSlotPerPlayer(slots) && ReadyIsOccupied(slots)
    ensures forall i :: 0 <= i < |slots| ==> (slots[i].player in UnreadyPlayers(slots) <==> !slots[i].ready)
  {
    UnreadyOnly(slots);
    UnreadyPlayersAre(slots);
    assert forall i, j :: 0 <= i < |slots| && 0 <= j < |slots| && slots[i].ready && !slots[j].ready ==>
             slots[i].player != slots[j].player;
  }

  /** Kicking the unready leaves exactly the ready slots as they were. */
  lemma KickUnreadyEffect(q: Queue)
    requires SlotsOk(q) && q.phase == Ready
    ensures
      var r := KickUnreadyPlayers(q);
      && |r.slots| == |q.slots| && r.phase == Ready && r.clock == q.clock && r.cfg == q.cfg
      && forall i :: 0 <= i < |q.slots| ==> r.slots[i] == if q.slots[i].ready then q.slots[i] else Clear(q.slots[i])
  {
    Counts(q.slots);
    KickEachKeeps(q, UnreadyPlayers(q.slots));
    ReadyPlayersAreNot(q.slots);
  }

  /**
    Once the ready-up time is over, exactly the ready players are left.  They stay ready until the
    second timer; if there is no time left for one they are unreadied at once.
   */
  lemma ReadyUpTimeoutEffect(q: Queue)
    requires Inv(q) && q.timer.ReadyUpTimer? && q.clock >= q.timer.due
    ensures
      var r := FireTimer(q);
      && |r.slots| == |q.slots|
      && (if q.cfg.readyUpTimeout < q.cfg.readyStateTimeout
          then r.phase == Ready && r.timer == UnreadyTimer(q.readySince + q.cfg.readyStateTimeout)
          else r.phase == Waiting && r.timer == Disarmed)
      && forall i :: 0 <= i < |q.slots| ==>
           r.slots[i] == if !q.slots[i].ready then Clear(q.slots[i])
                         else q.slots[i].(ready := q.cfg.readyUpTimeout < q.cfg.readyStateTimeout)
  {
    var off := q.(timer := Disarmed);
    KickUnreadyEffect(off);
    KickUnreadyFrame(off);
    if q.cfg.readyUpTimeout >= q.cfg.readyStateTimeout {
      UnreadyEffect(KickUnreadyPlayers(off));
    }
    assert forall i :: 0 <= i < |q.slots| && q.slots[i].ready ==> q.slots[i].player.Some?;
  }

  lemma UnreadyEffect(q: Queue)
    ensures
      var r := UnreadyQueue(q);
      && r.phase == Waiting && r.timer == Disarmed && |r.slots| == |q.slots|
      && forall i :: 0 <= i < |q.slots| ==>
           r.slots[i] == if q.slots[i].player.Some? then q.slots[i].(ready := false) else q.slots[i]
  {
  }
}
