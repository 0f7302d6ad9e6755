/**
  The pickup queue as a value: what every entry point of the queue service does
  to slots, state, timer and scheduled callbacks.  The state also holds the part of
  the environment that matters: a join waiting for the database, the
  launches under way, the clock, and the events published since the last reset.
 */
module QueueModel {
  import opened Common

  datatype GameClass = GameClass(name: ClassName, count: nat, canMakeFriendsWith: seq<ClassName>)

  /** `readyUpTimeout` and `readyStateTimeout` are the two constants of configs/queue.ts. */
  datatype Config = Config(classes: seq<GameClass>, readyUpTimeout: nat, readyStateTimeout: nat)

  const TEAM_COUNT := 2

  datatype Slot = Slot(id: nat, gameClass: ClassName, canMakeFriendsWith: seq<ClassName>,
                       player: Option<PlayerId>, ready: bool)

  datatype Phase = Waiting | Ready | Launching

  /** At most one timer is kept; `due` is the time at which it fires. */
  datatype Timer = Disarmed | ReadyUpTimer(due: nat) | UnreadyTimer(due: nat)

  /** `Left(None)` is what the queue publishes when it "kicks" an empty slot. */
  datatype Event = Joined(player: PlayerId) | Left(who: Option<PlayerId>)

  datatype Queue = Queue(
    cfg: Config,
    slots: seq<Slot>,
    phase: Phase,
    timer: Timer,
    immediates: nat,                  // scheduled, not yet run, calls of maybeUpdateState
    joining: Option<(nat, PlayerId)>, // the join between its state check and its slot claim
    launches: nat,                    // launches under way: they will reset the queue, or fail
    launchFailed: bool,               // a launch failed since the last reset
    frozen: bool,                     // launching, and no reset since launching was entered
    clock: nat,
    readySince: nat,                  // when the ready phase was last entered
    changes: nat,                     // how many slot-change events were published
    launchedAt: nat,                  // how many of them before launching was last entered
    log: seq<Event>                   // join and leave events since the last reset
  )

  datatype Refusal =
    | CannotJoinAtThisQueueState | PlayerNotAdmitted | NoSuchSlot | SlotOccupied
    | PlayerNotInTheQueue | CannotLeaveAtThisQueueState | WrongQueueState

  // ----- slots

  function PlayerCount(slots: seq<Slot>): (n: nat)
    ensures n <= |slots|
    ensures n == |slots| <==> forall s :: s in slots ==> s.player.Some?
    ensures n == 0 <==> forall s :: s in slots ==> s.player.None?
  {
    if slots == [] then 0
    else
      assert slots == slots[..|slots|-1] + [slots[|slots|-1]];
      PlayerCount(slots[..|slots|-1]) + if slots[|slots|-1].player.Some? then 1 else 0
  }

  function ReadyCount(slots: seq<Slot>): (n: nat)
    ensures n <= |slots|
    ensures n == |slots| <==> forall s :: s in slots ==> s.ready
  {
    if slots == [] then 0
    else
      assert slots == slots[..|slots|-1] + [slots[|slots|-1]];
      ReadyCount(slots[..|slots|-1]) + if slots[|slots|-1].ready then 1 else 0
  }

  /** Index of the first slot held by `p`, or |slots|; `None` finds the first empty slot. */
  function FindPlayer(slots: seq<Slot>, p: Option<PlayerId>): (i: nat)
    ensures i <= |slots|
    ensures i < |slots| ==> slots[i].player == p
    ensures forall j :: 0 <= j < i ==> slots[j].player != p
  {
    if slots == [] || slots[0].player == p then 0 else 1 + FindPlayer(slots[1..], p)
  }

  function FindId(slots: seq<Slot>, id: nat): (i: nat)
    ensures i <= |slots|
    ensures i < |slots| ==> slots[i].id == id
    ensures forall j :: 0 <= j < i ==> slots[j].id != id
  {
    if slots == [] || slots[0].id == id then 0 else 1 + FindId(slots[1..], id)
  }

  function Clear(s: Slot): Slot {
    s.(player := None, ready := false)
  }

  function ClearPlayer(slots: seq<Slot>, p: PlayerId): seq<Slot> {
    seq(|slots|, i requires 0 <= i < |slots| =>
      if slots[i].player == Some(p) then Clear(slots[i]) else slots[i])
  }

  function Unready(slots: seq<Slot>): seq<Slot> {
    seq(|slots|, i requires 0 <= i < |slots| =>
      if slots[i].player.Some? then slots[i].(ready := false) else slots[i])
  }

  /** The players (or `None`) of the slots that are not ready, in slot order. */
  function UnreadyPlayers(slots: seq<Slot>): seq<Option<PlayerId>> {
    if slots == [] then []
    else UnreadyPlayers(slots[..|slots|-1]) +
         if slots[|slots|-1].ready then [] else [slots[|slots|-1].player]
  }

  function NewSlot(id: nat, c: GameClass): Slot {
    Slot(id, c.name, c.canMakeFriendsWith, None, false)
  }

  function ClassSlots(firstId: nat, c: GameClass, n: nat): seq<Slot> {
    seq(n, i requires 0 <= i => NewSlot(firstId + i, c))
  }

  /** `count * TEAM_COUNT` empty slots per class, numbered from zero in config order. */
  function EmptySlots(classes: seq<GameClass>): seq<Slot> {
    if classes == [] then []
    else
      var before := EmptySlots(classes[..|classes|-1]);
      var c := classes[|classes|-1];
      before + ClassSlots(|before|, c, c.count * TEAM_COUNT)
  }

  ghost predicate Full(slots: seq<Slot>) {
    forall i :: 0 <= i < |slots| ==> slots[i].player.Some?
  }

  ghost predicate AllReady(slots: seq<Slot>) {
    forall i :: 0 <= i < |slots| ==> slots[i].ready
  }

  ghost predicate Empty(slots: seq<Slot>) {
    forall i :: 0 <= i < |slots| ==> slots[i].player.None?
  }

  lemma Counts(slots: seq<Slot>)
    ensures PlayerCount(slots) == |slots| <==> Full(slots)
    ensures PlayerCount(slots) == 0 <==> Empty(slots)
    ensures ReadyCount(slots) == |slots| <==> AllReady(slots)
  {
  }

  // ----- transitions

  function EmitSlotsChange(q: Queue): Queue {
    q.(immediates := q.immediates + 1, changes := q.changes + 1)
  }

  /** The state setter together with its synchronous listeners: the timer and the game launcher. */
  function SetPhase(q: Queue, phase: Phase): Queue {
    match phase
    case Waiting => q.(phase := Waiting, timer := Disarmed, frozen := false)
    case Ready => q.(phase := Ready, timer := ReadyUpTimer(q.clock + q.cfg.readyUpTimeout),
                     frozen := false, readySince := q.clock)
    case Launching => q.(phase := Launching, timer := Disarmed, frozen := true, launches := q.launches + 1,
                         launchedAt := q.changes)
  }

  function Fresh(cfg: Config): Queue {
    Queue(cfg, EmptySlots(cfg.classes), Waiting, Disarmed, 0, None, 0, false, false, 0, 0, 0, 0, [])
  }

  function Reset(q: Queue): Queue {
    EmitSlotsChange(q.(slots := EmptySlots(q.cfg.classes), frozen := false, launchFailed := false, log := []))
  }

  function JoinStartRefusal(q: Queue): Option<Refusal> {
    if q.phase == Launching then Some(CannotJoinAtThisQueueState) else None
  }

  /** First half of a join, inside the mutex and up to its first await. */
  function JoinStart(q: Queue, slotId: nat, player: PlayerId): Queue {
    if q.joining.Some? || JoinStartRefusal(q).Some? then q else q.(joining := Some((slotId, player)))
  }

  function JoinFinishRefusal(q: Queue, slotId: nat, admitted: bool): Option<Refusal> {
    var t := FindId(q.slots, slotId);
    if !admitted then Some(PlayerNotAdmitted)
    else if t == |q.slots| then Some(NoSuchSlot)
    else if q.slots[t].player.Some? then Some(SlotOccupied)
    else None
  }

  function ClaimSlot(q: Queue, t: nat, player: PlayerId): Queue
    requires t < |q.slots|
  {
    var cleared := ClearPlayer(q.slots, player);
    var claimed := cleared[t := cleared[t].(player := Some(player))];
    var isReady := q.phase == Ready || PlayerCount(claimed) == |claimed|;
    var slots := if isReady then claimed[t := claimed[t].(ready := true)] else claimed;
    var isNew := FindPlayer(q.slots, Some(player)) == |q.slots|;
    EmitSlotsChange(q.(slots := slots, log := if isNew then q.log + [Joined(player)] else q.log))
  }

  /** Second half of a join: `admitted` is the database's verdict on the player. */
  function JoinFinish(q: Queue, admitted: bool): Queue {
    match q.joining
    case None => q
    case Some((slotId, player)) =>
      if JoinFinishRefusal(q, slotId, admitted).Some? then q.(joining := None)
      else ClaimSlot(q.(joining := None), FindId(q.slots, slotId), player)
  }

  function LeaveRefusal(q: Queue, player: PlayerId): Option<Refusal> {
    var i := FindPlayer(q.slots, Some(player));
    if i == |q.slots| then Some(PlayerNotInTheQueue)
    else if q.slots[i].ready && q.phase != Waiting then Some(CannotLeaveAtThisQueueState)
    else None
  }

  /** Empties slot `i` and publishes that `who` left. */
  function Vacate(q: Queue, i: nat, who: Option<PlayerId>): Queue
    requires i < |q.slots|
  {
    q.(slots := q.slots[i := Clear(q.slots[i])], log := q.log + [Left(who)])
  }

  function Leave(q: Queue, player: PlayerId): Queue {
    if LeaveRefusal(q, player).Some? then q
    else EmitSlotsChange(Vacate(q, FindPlayer(q.slots, Some(player)), Some(player)))
  }

  function KickOne(q: Queue, who: Option<PlayerId>): Queue {
    var i := FindPlayer(q.slots, who);
    if i == |q.slots| then q else Vacate(q, i, who)
  }

  function KickEach(q: Queue, players: seq<Option<PlayerId>>): Queue {
    if players == [] then q
    else KickOne(KickEach(q, players[..|players|-1]), players[|players|-1])
  }

  function Kick(q: Queue, players: seq<Option<PlayerId>>): Queue {
    if q.phase == Launching then q else EmitSlotsChange(KickEach(q, players))
  }

  function ReadyUpRefusal(q: Queue, player: PlayerId): Option<Refusal> {
    if q.phase != Ready then Some(WrongQueueState)
    else if FindPlayer(q.slots, Some(player)) == |q.slots| then Some(PlayerNotInTheQueue)
    else None
  }

  function ReadyUp(q: Queue, player: PlayerId): Queue {
    if ReadyUpRefusal(q, player).Some? then q
    else
      var i := FindPlayer(q.slots, Some(player));
      EmitSlotsChange(q.(slots := q.slots[i := q.slots[i].(ready := true)]))
  }

  function MaybeUpdateState(q: Queue): Queue {
    match q.phase
    case Waiting =>
      if PlayerCount(q.slots) == |q.slots| then SetPhase(q, Ready) else q
    case Ready =>
      if PlayerCount(q.slots) == 0 then SetPhase(q, Waiting)
      else if ReadyCount(q.slots) == |q.slots| then SetPhase(q, Launching)
      else q
    case Launching => SetPhase(q, Waiting)
  }

  function RunImmediate(q: Queue): Queue {
    if q.immediates == 0 then q else MaybeUpdateState(q.(immediates := q.immediates - 1))
  }

  function UnreadyQueue(q: Queue): Queue {
    SetPhase(EmitSlotsChange(q.(slots := Unready(q.slots))), Waiting)
  }

  function KickUnreadyPlayers(q: Queue): Queue {
    if ReadyCount(q.slots) < |q.slots| then Kick(q, UnreadyPlayers(q.slots)) else q
  }

  function OnReadyUpTimeout(q: Queue): Queue {
    var k := KickUnreadyPlayers(q);
    if q.cfg.readyUpTimeout < q.cfg.readyStateTimeout then
      k.(timer := UnreadyTimer(k.clock + (q.cfg.readyStateTimeout - q.cfg.readyUpTimeout)))
    else
      UnreadyQueue(k)
  }

  function FireTimer(q: Queue): Queue {
    match q.timer
    case Disarmed => q
    case ReadyUpTimer(due) => if q.clock < due then q else OnReadyUpTimeout(q.(timer := Disarmed))
    case UnreadyTimer(due) => if q.clock < due then q else UnreadyQueue(q.(timer := Disarmed))
  }

  /** Time never passes the deadline of an armed timer: timers fire on time. */
  function Elapse(q: Queue, ms: nat): Queue {
    if q.timer != Disarmed && q.clock + ms > q.timer.due then q else q.(clock := q.clock + ms)
  }

  /** A launch that created its game resets the queue; one that threw does not. */
  function LaunchCompletes(q: Queue): Queue {
    if q.launches == 0 then q else Reset(q.(launches := q.launches - 1))
  }

  function LaunchFails(q: Queue): Queue {
    if q.launches == 0 then q else q.(launches := q.launches - 1, launchFailed := true)
  }

  // ----- runs

  datatype Step =
    | StepJoinStart(slotId: nat, player: PlayerId)
    | StepJoinFinish(admitted: bool)
    | StepLeave(player: PlayerId)
    | StepKick(players: seq<PlayerId>)
    | StepReadyUp(player: PlayerId)
    | StepImmediate
    | StepTimer
    | StepElapse(ms: nat)
    | StepLaunchCompletes
    | StepLaunchFails

  /** The arguments of a kick as the queue sees them. */
  function Present(players: seq<PlayerId>): seq<Option<PlayerId>> {
    seq(|players|, i requires 0 <= i < |players| => Some(players[i]))
  }

  /** One atomic step of the service; a step that is not possible changes nothing. */
  function Apply(q: Queue, step: Step): Queue {
    match step
    case StepJoinStart(slotId, player) => JoinStart(q, slotId, player)
    case StepJoinFinish(admitted) => JoinFinish(q, admitted)
    case StepLeave(player) => Leave(q, player)
    case StepKick(players) => Kick(q, Present(players))
    case StepReadyUp(player) => ReadyUp(q, player)
    case StepImmediate => RunImmediate(q)
    case StepTimer => FireTimer(q)
    case StepElapse(ms) => Elapse(q, ms)
    case StepLaunchCompletes => LaunchCompletes(q)
    case StepLaunchFails => LaunchFails(q)
  }

  function Run(q: Queue, steps: seq<Step>): Queue {
    if steps == [] then q else Apply(Run(q, steps[..|steps|-1]), steps[|steps|-1])
  }
}
