/** Runs that show where the promises of the queue stop. */
module QueueWitnesses {
  import opened Common
  import opened QueueModel
  import opened QueueSafety
  import opened QueueTheorems
  import opened LaunchLedger

  const MEDICS := GameClass(Medic, 1, [])

  /** One class, one player per team: two slots. */
  const TINY := Config([MEDICS], 40000, 60000)

  function TwoSlots(p0: Option<PlayerId>, r0: bool, p1: Option<PlayerId>, r1: bool): seq<Slot> {
    [Slot(0, Medic, [], p0, r0), Slot(1, Medic, [], p1, r1)]
  }

  lemma TinySlots()
    ensures EmptySlots(TINY.classes) == TwoSlots(None, false, None, false)
  {
    assert TINY.classes[..0] == [] && EmptySlots(TINY.classes[..0]) == [];
    assert EmptySlots([MEDICS]) == [] + ClassSlots(0, MEDICS, 2);
  }

  /** Only these players ever join. */
  ghost predicate FewPlayers(step: LedgerStep) {
    step.QueueStep? && step.step.StepJoinStart? ==> step.step.player in {7, 8, 9}
  }

  ghost predicate IsRun(l: Ledger, steps: seq<LedgerStep>) {
    l == ActAll(FreshLedger(TINY), steps) && forall s :: s in steps ==> FewPlayers(s)
  }

  ghost predicate Reached(l: Ledger) {
    exists steps :: IsRun(l, steps)
  }

  lemma Then(l: Ledger, step: LedgerStep)
    requires Reached(l) && FewPlayers(step)
    ensures Reached(Act(l, step))
  {
    var steps :| IsRun(l, steps);
    assert (steps + [step])[..|steps|] == steps;
    assert IsRun(Act(l, step), steps + [step]);
  }

  lemma ReachedIsConsistent(l: Ledger)
    requires Reached(l)
    ensures Consistent(l) && l.q.cfg == TINY
  {
    TinySlots();
    var steps :| IsRun(l, steps);
    LedgerKeeps(TINY, steps);
  }

  lemma ReachedInv(l: Ledger)
    requires Reached(l)
    ensures Inv(l.q)
  {
    ReachedIsConsistent(l);
  }

  ghost predicate CanJoin(q: Queue, id: nat, player: PlayerId) {
    && q.joining.None? && q.phase == Waiting && |q.slots| == 2
    && id < 2 && q.slots[id].player.None? && q.slots[1-id].player != Some(player)
  }

  lemma JoiningClaims(q: Queue, id: nat, player: PlayerId)
    requires Inv(q) && CanJoin(q, id, player)
    ensures JoinFinish(q.(joining := Some((id, player))), true) == ClaimSlot(q, id, player)
  {
    var s := q.(joining := Some((id, player)));
    SlotById(s, id);
    assert s.(joining := None) == q;
  }

  /** A player takes an empty slot of the waiting queue; the last one to do so is ready at once. */
  lemma Joining(q: Queue, id: nat, player: PlayerId)
    requires Inv(q) && CanJoin(q, id, player)
    ensures
      var r := ClaimSlot(q, id, player);
      && r == q.(slots := r.slots, immediates := q.immediates + 1, changes := q.changes + 1, log := r.log)
      && r.slots == q.slots[id := q.slots[id].(player := Some(player), ready := q.slots[1-id].player.Some?)]
  {
    ClaimSlots(q, id, player);
    ClaimReady(q, id, player);
    var r := ClaimSlot(q, id, player);
    assert Full(r.slots) <==> q.slots[1-id].player.Some?;
  }

  lemma JoinActs(l: Ledger, id: nat, player: PlayerId)
    requires Inv(l.q) && CanJoin(l.q, id, player)
    ensures Act(Act(l, QueueStep(StepJoinStart(id, player))), QueueStep(StepJoinFinish(true))) ==
            l.(q := ClaimSlot(l.q, id, player))
  {
    JoiningClaims(l.q, id, player);
    ClaimSlots(l.q, id, player);
    assert Act(l, QueueStep(StepJoinStart(id, player))) == l.(q := l.q.(joining := Some((id, player))));
  }

  lemma Join(l: Ledger, id: nat, player: PlayerId) returns (r: Ledger)
    requires Reached(l) && CanJoin(l.q, id, player) && player in {7, 8, 9}
    ensures Reached(r) && r == l.(q := r.q)
    ensures r.q == l.q.(slots := r.q.slots, immediates := l.q.immediates + 1, changes := l.q.changes + 1,
                        log := r.q.log)
    ensures r.q.slots == l.q.slots[id := l.q.slots[id].(player := Some(player), ready := l.q.slots[1-id].player.Some?)]
  {
    ReachedInv(l);
    Joining(l.q, id, player);
    JoinActs(l, id, player);
    r := l.(q := ClaimSlot(l.q, id, player));
    Then(l, QueueStep(StepJoinStart(id, player)));
    Then(Act(l, QueueStep(StepJoinStart(id, player))), QueueStep(StepJoinFinish(true)));
  }

  lemma Calling(q: Queue)
    requires Inv(q) && q.immediates > 0
    ensures
      var r := RunImmediate(q);
      && r.slots == q.slots && r.immediates == q.immediates - 1 && r.joining == q.joining
      && (q.phase == Waiting ==> r.phase == (if Full(q.slots) then Ready else Waiting) && r.launches == q.launches)
      && (q.phase == Ready && AllReady(q.slots) ==> r.phase == Launching && r.frozen && r.launches == q.launches + 1)
      && (q.phase == Launching ==> r.phase == Waiting && r.launches == q.launches)
  {
    Counts(q.slots);
    CallbackLaunches(q);
  }

  /** A callback runs. */
  lemma Callback(l: Ledger) returns (r: Ledger)
    requires Reached(l) && l.q.immediates > 0
    requires l.q.phase == Ready ==> AllReady(l.q.slots)
    ensures Reached(r) && r.q == RunImmediate(l.q) && r.replaced == l.replaced
    ensures r.q.slots == l.q.slots && r.q.immediates == l.q.immediates - 1 && r.q.joining == l.q.joining
    ensures r.launches == if l.q.phase == Ready then l.launches + [Launch(|l.replaced|, Begun)] else l.launches
    ensures l.q.phase == Waiting ==> r.q.phase == if Full(l.q.slots) then Ready else Waiting
    ensures l.q.phase == Ready ==> r.q.phase == Launching && r.q.frozen
    ensures l.q.phase == Launching ==> r.q.phase == Waiting
  {
    ReachedInv(l);
    Calling(l.q);
    r := Act(l, QueueStep(StepImmediate));
    Then(l, QueueStep(StepImmediate));
  }

  lemma ReadyUpOf(l: Ledger, i: nat) returns (r: Ledger)
    requires Reached(l) && l.q.phase == Ready && i < |l.q.slots| && l.q.slots[i].player.Some?
    ensures Reached(r) && r == l.(q := r.q)
    ensures r.q == l.q.(slots := l.q.slots[i := l.q.slots[i].(ready := true)], immediates := l.q.immediates + 1,
                        changes := l.q.changes + 1)
  {
    ReachedInv(l);
    var p := l.q.slots[i].player.value;
    SlotByPlayer(l.q, p, i);
    r := Act(l, QueueStep(StepReadyUp(p)));
    Then(l, QueueStep(StepReadyUp(p)));
  }

  lemma Filled() returns (l: Ledger)
    ensures Reached(l) && l.q == Fresh(TINY).(slots := l.q.slots, immediates := 2, changes := 2, log := l.q.log)
    ensures l.replaced == [] && l.launches == [] && l.q.slots == TwoSlots(Some(7), false, Some(8), true)
  {
    TinySlots();
    assert IsRun(FreshLedger(TINY), []);
    l := Join(FreshLedger(TINY), 0, 7);
    l := Join(l, 1, 8);
  }

  /** The first player leaves again; the second stays, ready, in the waiting queue. */
  lemma LeftAlone() returns (l: Ledger)
    ensures Reached(l) && l.q.phase == Waiting && l.q.immediates == 0 && l.q.joining.None?
    ensures l.replaced == [] && l.launches == [] && l.q.slots == TwoSlots(None, false, Some(8), true)
  {
    l := Filled();
    ReachedIsConsistent(l);
    LeaveEffect(l.q, 7, 0);
    var s := Act(l, QueueStep(StepLeave(7)));
    Then(l, QueueStep(StepLeave(7)));
    assert s.q.slots == TwoSlots(None, false, Some(8), true) && s.q.immediates == 3;
    assert s.q.slots[0].player.None?;
    l := Callback(s);
    l := Callback(l);
    l := Callback(l);
  }

  lemma StallRun() returns (l: Ledger)
    ensures Reached(l) && Stalled(l.q) && l.replaced == [] && l.launches == []
    ensures l.q.slots == TwoSlots(Some(9), true, Some(8), true)
  {
    l := LeftAlone();
    l := Join(l, 0, 9);
    l := Callback(l);
  }

  /**
    Every slot ready, the queue in its ready phase, and nothing scheduled to notice: whoever fills
    the queue is ready at once and stays so when another player leaves and is replaced.
   */
  lemma ReadyQueueCanStall()
    ensures exists steps :: Stalled(Run(Fresh(TINY), steps))
  {
    var l := StallRun();
    var steps :| IsRun(l, steps);
    LedgerRunsTheQueue(TINY, steps);
  }

  /** A launch that is the only one throws. */
  lemma OnlyLaunchThrows(l: Ledger) returns (r: Ledger)
    requires Reached(l) && l.launches == [Launch(0, Begun)]
    ensures Reached(r) && r.q == l.q.(launches := 0, launchFailed := true)
    ensures r.replaced == l.replaced && r.launches == [Launch(0, Thrown)]
  {
    ReachedIsConsistent(l);
    assert l.launches == [] + [Launch(0, Begun)];
    OutMore([], Launch(0, Begun));
    r := Act(l, Throw(0));
    Then(l, Throw(0));
  }

  /** A launch that throws really can leave the queue blocked. */
  lemma FailedLaunchCanBlock()
    ensures exists steps :: Blocked(Run(Fresh(TINY), steps))
  {
    var l := StallRun();
    l := ReadyUpOf(l, 0);
    l := Callback(l);
    var r := OnlyLaunchThrows(l);
    assert Blocked(r.q);
    var steps :| IsRun(r, steps);
    LedgerRunsTheQueue(TINY, steps);
  }

  lemma TwoReadyUps() returns (l: Ledger)
    ensures Reached(l) && l.q.phase == Ready && l.q.immediates == 2 && l.replaced == [] && l.launches == []
    ensures l.q.slots == TwoSlots(Some(9), true, Some(8), true)
  {
    l := StallRun();
    l := ReadyUpOf(l, 0);
    l := ReadyUpOf(l, 1);
  }

  /** A launch throws, a leftover callback ends launching, and a full queue waits with nobody to look. */
  lemma FailedLaunchCanBeMissed()
    ensures exists steps :: Missed(Run(Fresh(TINY), steps)) && AllReady(Run(Fresh(TINY), steps).slots)
  {
    var l := TwoReadyUps();
    l := Callback(l);
    l := OnlyLaunchThrows(l);
    l := Callback(l);
    assert l.q.launches == 0 by {
      ReachedInv(l);
      CallbackLaunches(l.q);
    }
    assert Missed(l.q) && AllReady(l.q.slots);
    var steps :| IsRun(l, steps);
    LedgerRunsTheQueue(TINY, steps);
  }

  /** Callbacks pile up while the last player readies up again and again. */
  lemma ManyCallbacks() returns (l: Ledger)
    ensures Reached(l) && l.q.phase == Ready && l.q.immediates == 4 && l.q.joining.None?
    ensures l.replaced == [] && l.launches == [] && l.q.slots == TwoSlots(Some(7), true, Some(8), true)
  {
    l := Filled();
    l := Callback(l);
    l := ReadyUpOf(l, 0);
    l := ReadyUpOf(l, 0);
    l := ReadyUpOf(l, 0);
  }

  lemma LaunchedOnce() returns (l: Ledger)
    ensures Reached(l) && l.replaced == [] && l.launches == [Launch(0, Begun)] && l.q.phase == Launching
    ensures l.q.slots == TwoSlots(Some(7), true, Some(8), true)
  {
    l := ManyCallbacks();
    l := Callback(l);
  }

  lemma LaunchedTwice() returns (l: Ledger)
    ensures Reached(l) && l.replaced == [] && l.launches == [Launch(0, Begun), Launch(0, Begun)]
    ensures l.q.slots == TwoSlots(Some(7), true, Some(8), true)
  {
    l := ManyCallbacks();
    l := Callback(l);
    l := Callback(l);
    l := Callback(l);
    l := Callback(l);
  }

  /** Then one full queue is launched twice, and two games are made of the same two players. */
  lemma OneQueueCanLaunchTwice()
    ensures exists l ::
              && Reached(l) && |l.launches| == 2 && l.launches[0].arrayNo == l.launches[1].arrayNo
              && l.launches[0].stage == l.launches[1].stage == Made(TwoSlots(Some(7), true, Some(8), true))
  {
    var l := LaunchedTwice();
    Counts(l.q.slots);
    Then(l, Check(0));
    var a := Act(l, Check(0));
    ReachedIsConsistent(a);
    SamePlayersTwice(a, 0, 1, []);
    Then(a, Make(0));
    var b := Act(a, Make(0));
    Then(b, Check(1));
    Then(Act(b, Check(1)), Make(1));
    var r := Act(Act(b, Check(1)), Make(1));
    assert r.launches[0] == b.launches[0];
    assert Reached(r) && |r.launches| == 2;
  }
}
