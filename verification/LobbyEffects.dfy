/** When a friend may be marked, and what a mark and a slot change do to the friendships. */
module LobbyEffects {
  import opened Common
  import opened QueueModel
  import opened QueueSafety
  import opened Friends
  import QE = QueueEffects
  import LT = LobbyTheorems

  /** Nobody is marked while launching; both players must be queued, and a missing source is named first. */
  lemma MarkRefusedEarly(phase: Phase, slots: seq<Slot>, fs: seq<Friendship>, source: PlayerId,
                         target: Option<PlayerId>)
    ensures
      var refusal := MarkRefusal(phase, slots, fs, source, target);
      && (refusal == Some(WrongPhase) <==> phase == Launching)
      && (target == None ==> (refusal == None <==> phase != Launching))
      && (forall p :: refusal == Some(NotInTheQueue(p)) <==>
            && phase != Launching && target.Some? && p !in Occupants(slots)
            && (p == source || (p == target.value && source in Occupants(slots))))
  {
    QE.InQueue(slots, source);
    if target.Some? {
      QE.InQueue(slots, target.value);
    }
  }

  /**
    With both players queued it is the source's slot that says whom it may pick, and a target can be
    picked once: even the player who picked it before cannot do so again.
   */
  lemma MarkRefusalExactly(phase: Phase, slots: seq<Slot>, fs: seq<Friendship>, i: nat, j: nat)
    requires OneSlotPerPlayer(slots) && phase != Launching
    requires i < |slots| && slots[i].player.Some? && j < |slots| && slots[j].player.Some?
    ensures
      var target := slots[j].player.value;
      var allowed := slots[j].gameClass in slots[i].canMakeFriendsWith;
      var taken := exists f :: f in fs && f.target == target;
      var refusal := MarkRefusal(phase, slots, fs, slots[i].player.value, Some(target));
      && (refusal == Some(CannotMarkAsFriend) <==> !allowed)
      && (refusal == Some(AlreadyMarked) <==> allowed && taken)
      && (refusal == None <==> allowed && !taken)
  {
    assert FindPlayer(slots, slots[i].player) == i;
    assert FindPlayer(slots, slots[j].player) == j;
    var target := slots[j].player.value;
    if f :| f in fs && f.target == target {
      var k :| 0 <= k < |fs| && fs[k] == f;
    }
    if HasTarget(fs, target) {
      var k :| 0 <= k < |fs| && fs[k].target == target;
      assert fs[k] in fs;
    }
  }

  ghost predicate IsMedic(slots: seq<Slot>, player: PlayerId) {
    exists i :: 0 <= i < |slots| && slots[i].player == Some(player) && slots[i].gameClass == Medic
  }

  lemma MedicExactly(slots: seq<Slot>, player: PlayerId)
    requires OneSlotPerPlayer(slots)
    ensures HoldsMedicSlot(slots, player) <==> IsMedic(slots, player)
  {
    if i :| 0 <= i < |slots| && slots[i].player == Some(player) && slots[i].gameClass == Medic {
      assert FindPlayer(slots, Some(player)) == i;
    }
  }

  /** A friendship ends exactly by another mark of its source, or by a slot change that leaves the source no medic. */
  lemma FriendshipExactly(cfg: Config, steps: seq<LobbyStep>, step: LobbyStep, f: Friendship)
    requires |EmptySlots(cfg.classes)| > 0
    ensures
      var l := RunLobby(FreshLobby(cfg), steps);
      var r := ApplyLobby(l, step);
      f in r.friendships <==>
      match step
      case MarkStep(source, target) =>
        var accepted := MarkRefusal(l.q.phase, l.q.slots, l.friendships, source, target).None?;
        if accepted && f.source == source then target == Some(f.target) else f in l.friendships
      case QueueStep(_) => f in l.friendships && (r.q.changes > l.q.changes ==> IsMedic(r.q.slots, f.source))
  {
    var l := RunLobby(FreshLobby(cfg), steps);
    LT.FriendsAreUnique(cfg, steps);
    LT.LobbyQueue(cfg, steps);
    match step
    case MarkStep(source, target) =>
      if MarkRefusal(l.q.phase, l.q.slots, l.friendships, source, target).None? {
        LT.MarkEffect(l.q.phase, l.q.slots, l.friendships, source, target);
      }
    case QueueStep(s) =>
      StepKeeps(l.q, s);
      LT.CleanupKeeps(Apply(l.q, s).slots, l.friendships);
      MedicExactly(Apply(l.q, s).slots, f.source);
  }
}
