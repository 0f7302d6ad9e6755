/**
  The queue together with its launches.  A launch keeps the slot array of the moment it began; a
  reset gives the queue a new array and leaves the old one to the launches that hold it.
 */
module LaunchLedger {
  import opened Common
  import opened QueueModel
  import opened QueueSafety
  import opened QueueTheorems

  /** A launch checks that its array is full and reads the players, then makes the game and resets the queue. */
  datatype LaunchStage = Begun | Checked(slots: seq<Slot>) | Made(slots: seq<Slot>) | Thrown

  datatype Launch = Launch(arrayNo: nat, stage: LaunchStage)

  /** `replaced` are the slot arrays that resets have replaced, as they were left. */
  datatype Ledger = Ledger(q: Queue, replaced: seq<seq<Slot>>, launches: seq<Launch>)

  function ArrayOf(l: Ledger, arrayNo: nat): seq<Slot> {
    if arrayNo < |l.replaced| then l.replaced[arrayNo] else l.q.slots
  }

  function SetStage(l: Ledger, i: nat, stage: LaunchStage): Ledger
    requires i < |l.launches|
  {
    l.(launches := l.launches[i := l.launches[i].(stage := stage)])
  }

  function Fail(l: Ledger, i: nat): Ledger
    requires i < |l.launches|
  {
    SetStage(l.(q := LaunchFails(l.q)), i, Thrown)
  }

  datatype LedgerStep = QueueStep(step: Step) | Check(i: nat) | Make(i: nat) | Throw(i: nat)

  function Act(l: Ledger, step: LedgerStep): Ledger {
    match step
    case QueueStep(s) =>
      if s.StepLaunchCompletes? || s.StepLaunchFails? then l
      else
        var q := Apply(l.q, s);
        l.(q := q,
           launches := if q.launches > l.q.launches then l.launches + [Launch(|l.replaced|, Begun)] else l.launches)
    case Check(i) =>
      if i >= |l.launches| || l.launches[i].stage != Begun then l
      else
        var slots := ArrayOf(l, l.launches[i].arrayNo);
        if PlayerCount(slots) == |slots| then SetStage(l, i, Checked(slots)) else Fail(l, i)
    case Make(i) =>
      if i >= |l.launches| || !l.launches[i].stage.Checked? then l
      else
        var made := SetStage(l, i, Made(l.launches[i].stage.slots));
        made.(q := LaunchCompletes(l.q), replaced := l.replaced + [l.q.slots])
    case Throw(i) =>
      if i >= |l.launches| || l.launches[i].stage.Made? || l.launches[i].stage.Thrown? then l else Fail(l, i)
  }

  function ActAll(l: Ledger, steps: seq<LedgerStep>): Ledger {
    if steps == [] then l else Act(ActAll(l, steps[..|steps|-1]), steps[|steps|-1])
  }

  function FreshLedger(cfg: Config): Ledger {
    Ledger(Fresh(cfg), [], [])
  }

  // ----- the invariant

  predicate IsOut(launch: Launch) {
    launch.stage.Begun? || launch.stage.Checked?
  }

  function Out(launches: seq<Launch>): nat {
    if launches == [] then 0
    else Out(launches[..|launches|-1]) + if IsOut(launches[|launches|-1]) then 1 else 0
  }

  /** A slot array as some moment of the queue left it. */
  ghost predicate ArrayOk(cfg: Config, slots: seq<Slot>) {
    Layout(cfg, slots) && OneSlotPerPlayer(slots) && ReadyIsOccupied(slots)
  }

  ghost predicate LaunchOk(l: Ledger, launch: Launch) {
    && launch.arrayNo <= |l.replaced|
    && (launch.stage.Checked? || launch.stage.Made? ==>
          ArrayOk(l.q.cfg, launch.stage.slots) && Full(launch.stage.slots))
  }

  ghost predicate Consistent(l: Ledger) {
    && Inv(l.q) && l.q.launches == Out(l.launches)
    && (forall a :: 0 <= a < |l.replaced| ==> ArrayOk(l.q.cfg, l.replaced[a]))
    && forall i :: 0 <= i < |l.launches| ==> LaunchOk(l, l.launches[i])
  }

  lemma {:induction false} OutSet(launches: seq<Launch>, i: nat, stage: LaunchStage)
    requires i < |launches|
    ensures
      var after := launches[i].(stage := stage);
      Out(launches[i := after]) + (if IsOut(launches[i]) then 1 else 0) == Out(launches) + if IsOut(after) then 1 else 0
  {
    var init := launches[..|launches|-1];
    if i == |launches| - 1 {
      assert launches[i := launches[i].(stage := stage)][..|launches|-1] == init;
    } else {
      OutSet(init, i, stage);
      assert launches[i := launches[i].(stage := stage)][..|launches|-1] == init[i := launches[i].(stage := stage)];
    }
  }

  lemma OutMore(launches: seq<Launch>, launch: Launch)
    ensures Out(launches + [launch]) == Out(launches) + if IsOut(launch) then 1 else 0
  {
    assert (launches + [launch])[..|launches|] == launches;
  }

  lemma FailKeeps(l: Ledger, i: nat)
    requires Consistent(l) && i < |l.launches| && IsOut(l.launches[i])
    ensures Consistent(Fail(l, i)) && Fail(l, i).q.cfg == l.q.cfg
  {
    OutSet(l.launches, i, Thrown);
    StepKeeps(l.q, StepLaunchFails);
  }

  lemma ArrayIsOk(l: Ledger, i: nat)
    requires Consistent(l) && i < |l.launches|
    ensures ArrayOk(l.q.cfg, ArrayOf(l, l.launches[i].arrayNo))
  {
  }

  lemma StageMoved(l: Ledger, r: Ledger, i: nat, stage: LaunchStage)
    requires Consistent(l) && i < |l.launches|
    requires Inv(r.q) && r.q.cfg == l.q.cfg && r.q.launches == Out(r.launches)
    requires r.replaced == l.replaced || r.replaced == l.replaced + [l.q.slots]
    requires r.launches == l.launches[i := l.launches[i].(stage := stage)] && LaunchOk(l, r.launches[i])
    ensures Consistent(r)
  {
    forall k | 0 <= k < |r.launches| ensures LaunchOk(r, r.launches[k]) {
      assert LaunchOk(l, l.launches[k]);
    }
  }

  lemma CheckKeeps(l: Ledger, i: nat)
    requires Consistent(l) && i < |l.launches| && l.launches[i].stage == Begun
    ensures Consistent(Act(l, Check(i))) && Act(l, Check(i)).q.cfg == l.q.cfg
  {
    var slots := ArrayOf(l, l.launches[i].arrayNo);
    if PlayerCount(slots) == |slots| {
      Counts(slots);
      ArrayIsOk(l, i);
      OutSet(l.launches, i, Checked(slots));
      StageMoved(l, Act(l, Check(i)), i, Checked(slots));
    } else {
      FailKeeps(l, i);
    }
  }

  lemma MakeKeeps(l: Ledger, i: nat)
    requires Consistent(l) && i < |l.launches| && l.launches[i].stage.Checked?
    ensures Consistent(Act(l, Make(i))) && Act(l, Make(i)).q.cfg == l.q.cfg
  {
    var made := Made(l.launches[i].stage.slots);
    OutSet(l.launches, i, made);
    StepKeeps(l.q, StepLaunchCompletes);
    StageMoved(l, Act(l, Make(i)), i, made);
  }

  lemma OneLaunchAtATime(q: Queue, step: Step)
    requires step != StepLaunchCompletes && step != StepLaunchFails
    requires |q.slots| > 0 && ReadyIsOccupied(q.slots)
    ensures q.launches <= Apply(q, step).launches <= q.launches + 1
  {
    if step == StepImmediate {
      CallbackLaunches(q);
    } else {
      OthersKeepLaunches(q, step);
    }
  }

  lemma QueueStepKeeps(l: Ledger, s: Step)
    requires Consistent(l) && s != StepLaunchCompletes && s != StepLaunchFails
    ensures Consistent(Act(l, QueueStep(s))) && Act(l, QueueStep(s)).q.cfg == l.q.cfg
  {
    StepKeeps(l.q, s);
    StepKeepsConfig(l.q, s);
    OneLaunchAtATime(l.q, s);
    OutMore(l.launches, Launch(|l.replaced|, Begun));
    QueueMoved(l, Apply(l.q, s), Act(l, QueueStep(s)));
  }

  lemma QueueMoved(l: Ledger, q: Queue, r: Ledger)
    requires Consistent(l) && Inv(q) && q.cfg == l.q.cfg && r.q == q && r.replaced == l.replaced
    requires q.launches == Out(r.launches)
    requires r.launches == l.launches || r.launches == l.launches + [Launch(|l.replaced|, Begun)]
    ensures Consistent(r)
  {
    forall k | 0 <= k < |r.launches| ensures LaunchOk(r, r.launches[k]) {
      assert k < |l.launches| ==> LaunchOk(l, l.launches[k]);
    }
  }

  lemma ActKeeps(l: Ledger, step: LedgerStep)
    requires Consistent(l)
    ensures Consistent(Act(l, step)) && Act(l, step).q.cfg == l.q.cfg
  {
    match step
    case QueueStep(s) => if s != StepLaunchCompletes && s != StepLaunchFails { QueueStepKeeps(l, s); }
    case Check(i) => if i < |l.launches| && l.launches[i].stage == Begun { CheckKeeps(l, i); }
    case Make(i) => if i < |l.launches| && l.launches[i].stage.Checked? { MakeKeeps(l, i); }
    case Throw(i) => if i < |l.launches| && IsOut(l.launches[i]) { FailKeeps(l, i); }
  }

  lemma {:induction false} LedgerKeeps(cfg: Config, steps: seq<LedgerStep>)
    requires |EmptySlots(cfg.classes)| > 0
    ensures Consistent(ActAll(FreshLedger(cfg), steps)) && ActAll(FreshLedger(cfg), steps).q.cfg == cfg
  {
    if steps == [] {
      Reachable(cfg, []);
    } else {
      LedgerKeeps(cfg, steps[..|steps|-1]);
      ActKeeps(ActAll(FreshLedger(cfg), steps[..|steps|-1]), steps[|steps|-1]);
    }
  }

  // ----- it is the queue of QueueModel

  function AsQueueStep(step: LedgerStep): Step {
    match step
    case QueueStep(s) => s
    case Make(_) => StepLaunchCompletes
    case _ => StepLaunchFails
  }

  lemma ActIsQueueStep(l: Ledger, step: LedgerStep)
    ensures Act(l, step).q == l.q || Act(l, step).q == Apply(l.q, AsQueueStep(step))
  {
  }

  /** Every ledger run is a run of the queue, so all that is proved of the queue holds here. */
  lemma {:induction false} LedgerRunsTheQueue(cfg: Config, steps: seq<LedgerStep>)
    ensures exists run :: ActAll(FreshLedger(cfg), steps).q == Run(Fresh(cfg), run)
  {
    if steps == [] {
      assert FreshLedger(cfg).q == Run(Fresh(cfg), []);
    } else {
      var init, last := steps[..|steps|-1], steps[|steps|-1];
      LedgerRunsTheQueue(cfg, init);
      var l := ActAll(FreshLedger(cfg), init);
      var run :| l.q == Run(Fresh(cfg), run);
      ActIsQueueStep(l, last);
      RunThen(Fresh(cfg), run, AsQueueStep(last));
      assert Act(l, last).q == Run(Fresh(cfg), run) || Act(l, last).q == Run(Fresh(cfg), run + [AsQueueStep(last)]);
    }
  }

  lemma RunThen(q: Queue, run: seq<Step>, s: Step)
    ensures Run(q, run + [s]) == Apply(Run(q, run), s)
  {
    assert (run + [s])[..|run|] == run;
  }

  // ----- games

  /** Every game is made of a full array, each player in one slot. */
  lemma GamesAreFull(cfg: Config, steps: seq<LedgerStep>, i: nat)
    requires |EmptySlots(cfg.classes)| > 0
    requires i < |ActAll(FreshLedger(cfg), steps).launches| && ActAll(FreshLedger(cfg), steps).launches[i].stage.Made?
    ensures
      var slots := ActAll(FreshLedger(cfg), steps).launches[i].stage.slots;
      && |slots| == |EmptySlots(cfg.classes)|
      && (forall k :: 0 <= k < |slots| ==>
            slots[k].player.Some? && slots[k].gameClass == EmptySlots(cfg.classes)[k].gameClass)
      && (forall j, k :: 0 <= j < k < |slots| ==> slots[j].player != slots[k].player)
  {
    LedgerKeeps(cfg, steps);
    var l := ActAll(FreshLedger(cfg), steps);
    assert LaunchOk(l, l.launches[i]);
    var slots := l.launches[i].stage.slots;
    assert forall k :: 0 <= k < |slots| ==> Clear(slots[k]).gameClass == slots[k].gameClass;
  }

  ghost predicate OnePerArray(l: Ledger) {
    forall i, j :: 0 <= i < j < |l.launches| ==> l.launches[i].arrayNo != l.launches[j].arrayNo
  }

  ghost predicate HasLaunch(l: Ledger, arrayNo: nat) {
    exists i :: 0 <= i < |l.launches| && l.launches[i].arrayNo == arrayNo
  }

  /** A callback finds the queue ready with every slot ready: it launches. */
  ghost predicate Launches(q: Queue, step: Step) {
    step == StepImmediate && q.immediates > 0 && q.phase == Ready && AllReady(q.slots)
  }

  /** The callback finds the queue ready again, although a launch has begun since the last reset. */
  ghost predicate LaunchesAgain(l: Ledger, step: LedgerStep) {
    step.QueueStep? && Launches(l.q, step.step) && HasLaunch(l, |l.replaced|)
  }

  lemma LaunchesOf(l: Ledger, step: LedgerStep)
    requires |l.q.slots| > 0 && ReadyIsOccupied(l.q.slots)
    ensures
      var r := Act(l, step);
      if step.QueueStep? && Launches(l.q, step.step)
      then r.launches == l.launches + [Launch(|l.replaced|, Begun)]
      else
        && |r.launches| == |l.launches|
        && forall i :: 0 <= i < |l.launches| ==> r.launches[i].arrayNo == l.launches[i].arrayNo
  {
    if step.QueueStep? && step.step != StepLaunchCompletes && step.step != StepLaunchFails {
      if step.step == StepImmediate {
        CallbackLaunches(l.q);
      } else {
        OthersKeepLaunches(l.q, step.step);
      }
    }
  }

  /** Exactly such a callback makes a second launch of one slot array. */
  lemma SecondLaunchExactly(cfg: Config, steps: seq<LedgerStep>, step: LedgerStep)
    requires |EmptySlots(cfg.classes)| > 0 && OnePerArray(ActAll(FreshLedger(cfg), steps))
    ensures
      var l := ActAll(FreshLedger(cfg), steps);
      !OnePerArray(Act(l, step)) <==> LaunchesAgain(l, step)
  {
    LedgerKeeps(cfg, steps);
    var l := ActAll(FreshLedger(cfg), steps);
    LaunchesOf(l, step);
    if step.QueueStep? && Launches(l.q, step.step) {
      AddedLaunch(l, Act(l, step), Launch(|l.replaced|, Begun));
    } else {
      SameArrays(l, Act(l, step));
    }
  }

  lemma AddedLaunch(l: Ledger, r: Ledger, launch: Launch)
    requires OnePerArray(l) && r.launches == l.launches + [launch]
    ensures OnePerArray(r) <==> !HasLaunch(l, launch.arrayNo)
  {
    if HasLaunch(l, launch.arrayNo) {
      var i :| 0 <= i < |l.launches| && l.launches[i].arrayNo == launch.arrayNo;
      assert r.launches[i].arrayNo == r.launches[|l.launches|].arrayNo;
    }
  }

  lemma SameArrays(l: Ledger, r: Ledger)
    requires |r.launches| == |l.launches|
    requires forall i :: 0 <= i < |l.launches| ==> r.launches[i].arrayNo == l.launches[i].arrayNo
    ensures OnePerArray(l) <==> OnePerArray(r)
  {
  }

  // ----- the price of a second launch

  /** Whatever becomes of launch `j`, the only game it can make is of these slots. */
  ghost predicate OnlyMakes(l: Ledger, j: nat, slots: seq<Slot>) {
    && j < |l.launches|
    && match l.launches[j].stage
       case Begun => l.launches[j].arrayNo < |l.replaced| && l.replaced[l.launches[j].arrayNo] == slots
       case Checked(s) => s == slots
       case Made(s) => s == slots
       case Thrown => true
  }

  lemma StillOnlyMakes(l: Ledger, j: nat, slots: seq<Slot>, step: LedgerStep)
    requires OnlyMakes(l, j, slots)
    ensures OnlyMakes(Act(l, step), j, slots)
  {
  }

  lemma {:induction false} OnlyMakesStays(l: Ledger, j: nat, slots: seq<Slot>, steps: seq<LedgerStep>)
    requires OnlyMakes(l, j, slots)
    ensures OnlyMakes(ActAll(l, steps), j, slots)
  {
    if steps != [] {
      OnlyMakesStays(l, j, slots, steps[..|steps|-1]);
      StillOnlyMakes(ActAll(l, steps[..|steps|-1]), j, slots, steps[|steps|-1]);
    }
  }

  /** The slots that a launch of the current array would make its game of, were it reset now. */
  function WouldMake(l: Ledger, j: nat): seq<Slot>
    requires j < |l.launches|
  {
    match l.launches[j].stage
    case Checked(slots) => slots
    case _ => l.q.slots
  }

  /**
    Two launches hold one slot array, and the first makes its game of it.  Then the second can make
    another game, and whatever happens meanwhile it can make no other than of the slots it had
    checked, or else of those that the reset left.
   */
  lemma SecondGame(l: Ledger, i: nat, j: nat, more: seq<LedgerStep>)
    requires Consistent(l) && i != j && i < |l.launches| && j < |l.launches|
    requires l.launches[i].arrayNo == |l.replaced| && l.launches[i].stage.Checked?
    requires l.launches[j].arrayNo == |l.replaced| && IsOut(l.launches[j]) && Full(l.q.slots)
    ensures
      var r := Act(l, Make(i));
      && r.launches[i].stage == Made(WouldMake(l, i))
      && OnlyMakes(ActAll(r, more), j, WouldMake(l, j))
      && Act(Act(r, Check(j)), Make(j)).launches[j].stage == Made(WouldMake(l, j))
  {
    var r := Act(l, Make(i));
    MakeExactly(l, i, l.launches[i].stage.slots);
    assert r.launches[j] == l.launches[j];
    OnlyMakesStays(r, j, WouldMake(l, j), more);
    if l.launches[j].stage.Begun? {
      CheckExactly(r, j);
    }
  }

  /** Two launches of an array that nobody touches make two games of the same players. */
  lemma SamePlayersTwice(l: Ledger, i: nat, j: nat, more: seq<LedgerStep>)
    requires Consistent(l) && i != j && i < |l.launches| && j < |l.launches|
    requires l.launches[i] == Launch(|l.replaced|, Checked(l.q.slots))
    requires l.launches[j] == Launch(|l.replaced|, Begun) || l.launches[j] == Launch(|l.replaced|, Checked(l.q.slots))
    ensures
      var r := Act(l, Make(i));
      && r.launches[i].stage == Made(l.q.slots)
      && OnlyMakes(ActAll(r, more), j, l.q.slots)
      && Act(Act(r, Check(j)), Make(j)).launches[j].stage == Made(l.q.slots)
  {
    assert LaunchOk(l, l.launches[i]);
    SecondGame(l, i, j, more);
  }

  // ----- what becomes of a launch

  /** Only launch `i` moves, and slot arrays that were replaced stay as they were left. */
  ghost predicate OnlyMoves(l: Ledger, r: Ledger, i: nat) {
    && |r.launches| == |l.launches| && l.replaced <= r.replaced
    && forall k :: 0 <= k < |l.launches| ==>
         r.launches[k].arrayNo == l.launches[k].arrayNo && (k != i ==> r.launches[k] == l.launches[k])
  }

  /** A launch that looks at its slots goes on with them if all are taken, and throws otherwise. */
  lemma CheckExactly(l: Ledger, i: nat)
    requires i < |l.launches| && l.launches[i].stage == Begun && l.launches[i].arrayNo <= |l.replaced|
    ensures
      var r := Act(l, Check(i));
      var slots := (l.replaced + [l.q.slots])[l.launches[i].arrayNo];
      && OnlyMoves(l, r, i) && r.replaced == l.replaced
      && if Full(slots) then r.launches[i].stage == Checked(slots) && r.q == l.q
         else r.launches[i].stage == Thrown && r.q == Apply(l.q, StepLaunchFails)
  {
    Counts(ArrayOf(l, l.launches[i].arrayNo));
  }

  /** One that goes on makes its game of what it has seen, and the queue gets new slots. */
  lemma MakeExactly(l: Ledger, i: nat, slots: seq<Slot>)
    requires i < |l.launches| && l.launches[i].stage == Checked(slots)
    ensures
      var r := Act(l, Make(i));
      && OnlyMoves(l, r, i) && r.replaced == l.replaced + [l.q.slots]
      && r.launches[i].stage == Made(slots) && r.q == Apply(l.q, StepLaunchCompletes)
  {
  }

  /** It can throw as long as it has neither made its game nor thrown, and nothing else happens then. */
  lemma ThrowExactly(l: Ledger, i: nat)
    requires i < |l.launches|
    ensures
      var r := Act(l, Throw(i));
      if l.launches[i].stage.Begun? || l.launches[i].stage.Checked?
      then && OnlyMoves(l, r, i) && r.replaced == l.replaced
           && r.launches[i].stage == Thrown && r.q == Apply(l.q, StepLaunchFails)
      else r == l
  {
  }

  /** A launch begins with the slot array of its moment, exactly when the queue starts launching. */
  lemma BeginExactly(l: Ledger, step: Step)
    requires step != StepLaunchCompletes && step != StepLaunchFails
    ensures
      var r := Act(l, QueueStep(step));
      && r.q == Apply(l.q, step) && r.replaced == l.replaced
      && r.launches == l.launches + if r.q.launches > l.q.launches then [Launch(|l.replaced|, Begun)] else []
  {
  }
}
