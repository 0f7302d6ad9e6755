/** Friendships between queued players, and the lobby they form with the queue. */
module Friends {
  import opened Common
  import opened QueueModel
  import QS = QueueService

  datatype MarkError = WrongPhase | NotInTheQueue(player: PlayerId) | CannotMarkAsFriend | AlreadyMarked

  function Without(fs: seq<Friendship>, source: PlayerId): seq<Friendship> {
    if fs == [] then []
    else (if fs[0].source != source then [fs[0]] else []) + Without(fs[1..], source)
  }

  predicate HasTarget(fs: seq<Friendship>, target: PlayerId) {
    exists i :: 0 <= i < |fs| && fs[i].target == target
  }

  function MarkRefusal(phase: Phase, slots: seq<Slot>, fs: seq<Friendship>, source: PlayerId, target: Option<PlayerId>):
    Option<MarkError>
  {
    if phase == Launching then Some(WrongPhase)
    else if target.None? then None
    else
      var s, t := FindPlayer(slots, Some(source)), FindPlayer(slots, target);
      if s == |slots| then Some(NotInTheQueue(source))
      else if t == |slots| then Some(NotInTheQueue(target.value))
      else if slots[t].gameClass !in slots[s].canMakeFriendsWith then Some(CannotMarkAsFriend)
      else if HasTarget(fs, target.value) then Some(AlreadyMarked)
      else None
  }

  function Mark(phase: Phase, slots: seq<Slot>, fs: seq<Friendship>, source: PlayerId, target: Option<PlayerId>):
    seq<Friendship>
  {
    if MarkRefusal(phase, slots, fs, source, target).Some? then fs
    else Without(fs, source) + if target.Some? then [Friendship(source, target.value)] else []
  }

  predicate HoldsMedicSlot(slots: seq<Slot>, player: PlayerId) {
    var i := FindPlayer(slots, Some(player));
    i < |slots| && slots[i].gameClass == Medic
  }

  /** Run on every slot change: only queued medics keep their friends. */
  function Cleanup(slots: seq<Slot>, fs: seq<Friendship>): (r: seq<Friendship>)
    ensures forall f :: f in r <==> f in fs && HoldsMedicSlot(slots, f.source)
  {
    if fs == [] then []
    else (if HoldsMedicSlot(slots, fs[0].source) then [fs[0]] else []) + Cleanup(slots, fs[1..])
  }

  class FriendsService {
    const queue: QS.QueueService
    var friendships: seq<Friendship>

    constructor (queue: QS.QueueService)
      ensures friendships == [] && this.queue == queue
    {
      this.queue := queue;
      friendships := [];
    }

    method MarkFriend(source: PlayerId, target: Option<PlayerId>) returns (refusal: Option<MarkError>)
      modifies this
      ensures refusal == MarkRefusal(queue.state, queue.slots, old(friendships), source, target)
      ensures friendships == Mark(queue.state, queue.slots, old(friendships), source, target)
    {
      if queue.state == Launching {
        return Some(WrongPhase);
      }
      if target == None {
        friendships := Without(friendships, source);
      } else {
        var s := FindPlayer(queue.slots, Some(source));
        if s == |queue.slots| {
          return Some(NotInTheQueue(source));
        }
        var t := FindPlayer(queue.slots, target);
        if t == |queue.slots| {
          return Some(NotInTheQueue(target.value));
        }
        if queue.slots[t].gameClass !in queue.slots[s].canMakeFriendsWith {
          return Some(CannotMarkAsFriend);
        }
        if HasTarget(friendships, target.value) {
          return Some(AlreadyMarked);
        }
        friendships := Without(friendships, source) + [Friendship(source, target.value)];
      }
      return None;
    }

    method CleanupFriendships()
      modifies this
      ensures forall f :: f in friendships <==> f in old(friendships) && HoldsMedicSlot(queue.slots, f.source)
      ensures friendships == Cleanup(queue.slots, old(friendships))
    {
      friendships := Cleanup(queue.slots, friendships);
    }
  }

  // ----- the lobby

  datatype Lobby = Lobby(q: Queue, friendships: seq<Friendship>)

  datatype LobbyStep = QueueStep(step: Step) | MarkStep(source: PlayerId, target: Option<PlayerId>)

  /** The friends service listens to every slot change the queue publishes. */
  function ApplyLobby(l: Lobby, step: LobbyStep): Lobby {
    match step
    case QueueStep(s) =>
      var q := Apply(l.q, s);
      Lobby(q, if q.changes > l.q.changes then Cleanup(q.slots, l.friendships) else l.friendships)
    case MarkStep(source, target) =>
      l.(friendships := Mark(l.q.phase, l.q.slots, l.friendships, source, target))
  }

  function RunLobby(l: Lobby, steps: seq<LobbyStep>): Lobby {
    if steps == [] then l else ApplyLobby(RunLobby(l, steps[..|steps|-1]), steps[|steps|-1])
  }

  function FreshLobby(cfg: Config): Lobby {
    Lobby(Fresh(cfg), [])
  }
}
