/**
  A player in two games at once: a game in progress beside the queue and its launches.  A
  replacement is kicked from the queue, which does nothing while the queue is launching.
 */
module TwoGames {
  import opened Common
  import Q = QueueModel
  import QS = QueueSafety
  import QT = QueueTheorems
  import LL = LaunchLedger
  import G = GameLifecycle
  import LC = LifecycleTheorems

  /** `clear`: what the join under way has read, namely that its player had no active game. */
  datatype Hall = Hall(ledger: LL.Ledger, game: G.Game, clear: Option<bool>)

  datatype HallStep =
    | OnQueue(call: Q.Step)                     // anything but the end of a join
    | OnLaunch(i: nat, stage: LaunchStep, id: GameId)
    | OnRead                                    // the join reads the player's record
    | OnJoin(admitted: bool)                    // and claims the slot
    | OnReplace(replacee: PlayerId, replacement: PlayerId, banned: bool)
    | OnGame(event: G.Step)                     // anything else that happens to the game

  datatype LaunchStep = Checks | Makes | Throws

  function LedgerStepOf(i: nat, step: LaunchStep): LL.LedgerStep {
    match step
    case Checks => LL.Check(i)
    case Makes => LL.Make(i)
    case Throws => LL.Throw(i)
  }

  function PlayersIn(slots: seq<Q.Slot>): set<PlayerId> {
    set s | s in slots && s.player.Some? :: s.player.value
  }

  /** A game made of these slots marks its players, whatever mark they had. */
  function Marked(g: G.Game, slots: seq<Q.Slot>, id: GameId): G.Game {
    g.(activeGame := g.activeGame + map p | p in PlayersIn(slots) :: id)
  }

  function Step(h: Hall, step: HallStep): Hall {
    match step
    case OnQueue(s) =>
      if s.StepJoinFinish? then h
      else
        var l := LL.Act(h.ledger, LL.QueueStep(s));
        Hall(l, h.game, if s.StepJoinStart? && h.ledger.q.joining.None? then None else h.clear)
    case OnLaunch(i, s, id) =>
      var made := s.Makes? && i < |h.ledger.launches| && h.ledger.launches[i].stage.Checked?;
      h.(ledger := LL.Act(h.ledger, LedgerStepOf(i, s)),
         game := if made then Marked(h.game, h.ledger.launches[i].stage.slots, id) else h.game)
    case OnRead =>
      if h.ledger.q.joining.None? || h.clear.Some? then h
      else h.(clear := Some(h.ledger.q.joining.value.1 !in h.game.activeGame))
    case OnJoin(admitted) =>
      if h.clear.None? then h
      else Hall(LL.Act(h.ledger, LL.QueueStep(Q.StepJoinFinish(admitted && h.clear.value))), h.game, None)
    case OnReplace(replacee, replacement, banned) =>
      var g := G.ReplacePlayer(h.game, replacee, replacement, banned);
      if Replaces(h, step) then Hall(LL.Act(h.ledger, LL.QueueStep(Q.StepKick([replacement]))), g, h.clear)
      else h.(game := g)
    case OnGame(s) => if s.StepReplace? then h else h.(game := G.Apply(h.game, s))
  }

  /** The replacement gets a slot of the game. */
  predicate Replaces(h: Hall, step: HallStep) {
    step.OnReplace? && step.replacee != step.replacement &&
    G.ReplaceRefusal(h.game, step.replacee, step.replacement, step.banned).None?
  }

  // ----- who may end up in a second game

  ghost predicate InSlots(slots: seq<Q.Slot>, p: PlayerId) {
    exists i :: 0 <= i < |slots| && slots[i].player == Some(p)
  }

  /** The slots that a launch under way will make its game of, as they are. */
  function SlotsOf(l: LL.Ledger, i: nat): seq<Q.Slot>
    requires i < |l.launches|
  {
    match l.launches[i].stage
    case Checked(slots) => slots
    case _ => LL.ArrayOf(l, l.launches[i].arrayNo)
  }

  /** The player is in the queue, or in the slots of a launch under way. */
  ghost predicate Bound(l: LL.Ledger, p: PlayerId) {
    InSlots(l.q.slots, p) || exists i :: 0 <= i < |l.launches| && LL.IsOut(l.launches[i]) && InSlots(SlotsOf(l, i), p)
  }

  /** Nobody who plays the game can become a player of a second one. */
  ghost predicate Apart(h: Hall) {
    G.InProgress(h.game.state) ==> forall p :: LC.Holds(h.game.slots, p) ==> !Bound(h.ledger, p)
  }

  /** A kick does not reach the player: the queue is launching, or a launch has slots of its own. */
  ghost predicate OutOfReach(l: LL.Ledger, p: PlayerId) {
    || (l.q.phase == Q.Launching && InSlots(l.q.slots, p))
    || exists i :: 0 <= i < |l.launches| && LL.IsOut(l.launches[i]) && InSlots(SlotsOf(l, i), p) &&
         (l.launches[i].stage.Checked? || l.launches[i].arrayNo < |l.replaced|)
  }

  // ----- players only enter the queue by a join

  /** Slot by slot, players stay or go. */
  ghost predicate OnlyGo(before: seq<Q.Slot>, after: seq<Q.Slot>) {
    && |after| == |before|
    && forall i :: 0 <= i < |before| ==> after[i].player == before[i].player || after[i].player.None?
  }

  lemma StillIn(before: seq<Q.Slot>, after: seq<Q.Slot>, p: PlayerId)
    requires OnlyGo(before, after) && InSlots(after, p)
    ensures InSlots(before, p)
  {
    var i :| 0 <= i < |after| && after[i].player == Some(p);
    assert before[i].player == Some(p);
  }

  lemma KickOnlyGo(q: Q.Queue, players: seq<Option<PlayerId>>)
    requires QS.SlotsOk(q)
    ensures OnlyGo(q.slots, Q.Kick(q, players).slots)
  {
    QS.KickEachKeeps(q, players);
  }

  lemma TimerOnlyGo(q: Q.Queue)
    requires QS.Inv(q)
    ensures OnlyGo(q.slots, Q.FireTimer(q).slots)
  {
    var off := q.(timer := Q.Disarmed);
    if q.timer.ReadyUpTimer? {
      QT.KickUnreadyEffect(off);
      QT.UnreadyEffect(Q.KickUnreadyPlayers(off));
    } else {
      QT.UnreadyEffect(off);
    }
  }

  lemma QueueOnlyGo(q: Q.Queue, s: Q.Step)
    requires QS.Inv(q) && !s.StepJoinFinish?
    ensures OnlyGo(q.slots, Q.Apply(q, s).slots)
  {
    match s
    case StepKick(players) => KickOnlyGo(q, Q.Present(players));
    case StepTimer => TimerOnlyGo(q);
    case StepLaunchCompletes => ResetOnlyGo(q);
    case _ =>
  }

  lemma ResetOnlyGo(q: Q.Queue)
    requires QS.Inv(q)
    ensures OnlyGo(q.slots, Q.LaunchCompletes(q).slots)
  {
    QS.EmptySlotsAreFresh(q.cfg.classes);
  }

  lemma QueueStepLaunches(l: LL.Ledger, s: Q.Step, i: nat)
    requires LL.Consistent(l)
    ensures
      var r := LL.Act(l, LL.QueueStep(s));
      && r.replaced == l.replaced
      && (i < |r.launches| ==>
            (i < |l.launches| && r.launches[i] == l.launches[i]) || r.launches[i] == LL.Launch(|l.replaced|, LL.Begun))
  {
    LL.LaunchesOf(l, LL.QueueStep(s));
  }

  /** A launch whose slots are not those of the queue was out before the step, with the same slots. */
  lemma QueueStepSlots(l: LL.Ledger, s: Q.Step, i: nat, p: PlayerId)
    requires LL.Consistent(l)
    requires
      var r := LL.Act(l, LL.QueueStep(s));
      i < |r.launches| && LL.IsOut(r.launches[i]) && InSlots(SlotsOf(r, i), p) && !InSlots(r.q.slots, p)
    ensures i < |l.launches| && LL.IsOut(l.launches[i]) && InSlots(SlotsOf(l, i), p)
  {
    QueueStepLaunches(l, s, i);
  }

  lemma QueueStepOnlyLoses(l: LL.Ledger, s: Q.Step, p: PlayerId)
    requires LL.Consistent(l) && !s.StepJoinFinish? && Bound(LL.Act(l, LL.QueueStep(s)), p)
    ensures Bound(l, p)
  {
    if s != Q.StepLaunchCompletes && s != Q.StepLaunchFails {
      var r := LL.Act(l, LL.QueueStep(s));
      if InSlots(r.q.slots, p) {
        QueueOnlyGo(l.q, s);
        StillIn(l.q.slots, r.q.slots, p);
      } else {
        var i :| 0 <= i < |r.launches| && LL.IsOut(r.launches[i]) && InSlots(SlotsOf(r, i), p);
        QueueStepSlots(l, s, i, p);
      }
    }
  }

  /** A launch goes on with the slots it had. */
  lemma SameSlots(l: LL.Ledger, i: nat, step: LaunchStep, k: nat)
    requires LL.Consistent(l) && k < |l.launches|
    ensures
      var r := LL.Act(l, LedgerStepOf(i, step));
      && |r.launches| == |l.launches|
      && (LL.IsOut(r.launches[k]) ==> LL.IsOut(l.launches[k]) && SlotsOf(r, k) == SlotsOf(l, k))
  {
    assert LL.LaunchOk(l, l.launches[k]);
    match step
    case Checks => CheckSameSlots(l, i, k);
    case Makes => MakeSameSlots(l, i, k);
    case Throws =>
  }

  lemma CheckSameSlots(l: LL.Ledger, i: nat, k: nat)
    requires k < |l.launches|
    ensures
      var r := LL.Act(l, LL.Check(i));
      && |r.launches| == |l.launches|
      && (LL.IsOut(r.launches[k]) ==> LL.IsOut(l.launches[k]) && SlotsOf(r, k) == SlotsOf(l, k))
  {
  }

  lemma MakeSameSlots(l: LL.Ledger, i: nat, k: nat)
    requires k < |l.launches| && LL.LaunchOk(l, l.launches[k])
    ensures
      var r := LL.Act(l, LL.Make(i));
      && |r.launches| == |l.launches|
      && (LL.IsOut(r.launches[k]) ==> LL.IsOut(l.launches[k]) && SlotsOf(r, k) == SlotsOf(l, k))
  {
  }

  lemma LaunchKeepsQueue(l: LL.Ledger, i: nat, step: LaunchStep)
    requires LL.Consistent(l)
    ensures OnlyGo(l.q.slots, LL.Act(l, LedgerStepOf(i, step)).q.slots)
  {
    ResetOnlyGo(l.q);
    var r := LL.Act(l, LedgerStepOf(i, step));
    assert r.q.slots == l.q.slots || r.q == Q.LaunchCompletes(l.q);
  }

  lemma LaunchOnlyLoses(l: LL.Ledger, i: nat, step: LaunchStep, p: PlayerId)
    requires LL.Consistent(l) && Bound(LL.Act(l, LedgerStepOf(i, step)), p)
    ensures Bound(l, p)
  {
    var r := LL.Act(l, LedgerStepOf(i, step));
    if InSlots(r.q.slots, p) {
      LaunchKeepsQueue(l, i, step);
      StillIn(l.q.slots, r.q.slots, p);
    } else {
      var k :| 0 <= k < |r.launches| && LL.IsOut(r.launches[k]) && InSlots(SlotsOf(r, k), p);
      LaunchCount(l, i, step);
      SameSlots(l, i, step, k);
    }
  }

  lemma LaunchCount(l: LL.Ledger, i: nat, step: LaunchStep)
    ensures |LL.Act(l, LedgerStepOf(i, step)).launches| == |l.launches|
  {
  }

  lemma Joined(q: Q.Queue, p: PlayerId)
    requires QS.Inv(q) && q.joining.Some? && InSlots(Q.JoinFinish(q, true).slots, p)
    ensures InSlots(q.slots, p) || (p == q.joining.value.1 && Q.JoinFinishRefusal(q, q.joining.value.0, true).None?)
  {
    QT.JoinEffect(q, true);
    var r := Q.JoinFinish(q, true);
    var i :| 0 <= i < |r.slots| && r.slots[i].player == Some(p);
    if Q.JoinFinishRefusal(q, q.joining.value.0, true).None? && p != q.joining.value.1 {
      assert q.slots[i].player == Some(p);
    }
  }

  lemma JoinerIsIn(q: Q.Queue)
    requires QS.Inv(q) && q.joining.Some? && Q.JoinFinishRefusal(q, q.joining.value.0, true).None?
    ensures InSlots(Q.JoinFinish(q, true).slots, q.joining.value.1)
  {
    var t := Q.FindId(q.slots, q.joining.value.0);
    QS.ClaimSlots(q.(joining := None), t, q.joining.value.1);
    assert Q.JoinFinish(q, true).slots[t].player == Some(q.joining.value.1);
  }

  /** A join binds its player, if it is accepted, and nobody else. */
  lemma JoinBinds(l: LL.Ledger, p: PlayerId)
    requires LL.Consistent(l) && l.q.joining.Some? && Bound(LL.Act(l, LL.QueueStep(Q.StepJoinFinish(true))), p)
    ensures Bound(l, p) || (p == l.q.joining.value.1 && Q.JoinFinishRefusal(l.q, l.q.joining.value.0, true).None?)
  {
    var r := LL.Act(l, LL.QueueStep(Q.StepJoinFinish(true)));
    LL.LaunchesOf(l, LL.QueueStep(Q.StepJoinFinish(true)));
    QT.OthersKeepLaunches(l.q, Q.StepJoinFinish(true));
    if InSlots(r.q.slots, p) {
      Joined(l.q, p);
    } else {
      var i :| 0 <= i < |r.launches| && LL.IsOut(r.launches[i]) && InSlots(SlotsOf(r, i), p);
      assert r.launches[i] == l.launches[i];
    }
  }

  lemma RefusedJoinBindsNobody(l: LL.Ledger, p: PlayerId)
    requires Bound(LL.Act(l, LL.QueueStep(Q.StepJoinFinish(false))), p)
    ensures Bound(l, p)
  {
    var r := LL.Act(l, LL.QueueStep(Q.StepJoinFinish(false)));
    assert r.q.slots == l.q.slots && r.launches == l.launches && r.replaced == l.replaced;
    if !InSlots(l.q.slots, p) {
      var i :| 0 <= i < |r.launches| && LL.IsOut(r.launches[i]) && InSlots(SlotsOf(r, i), p);
      assert SlotsOf(r, i) == SlotsOf(l, i);
    }
  }

  // ----- what a kick leaves

  /** After the kick the player is still bound exactly if out of its reach. */
  lemma KickLeaves(l: LL.Ledger, p: PlayerId)
    requires LL.Consistent(l)
    ensures Bound(LL.Act(l, LL.QueueStep(Q.StepKick([p]))), p) <==> OutOfReach(l, p)
  {
    var r := LL.Act(l, LL.QueueStep(Q.StepKick([p])));
    QT.OthersKeepLaunches(l.q, Q.StepKick([p]));
    assert r.launches == l.launches && r.replaced == l.replaced;
    assert Q.Present([p]) == [Some(p)];
    if l.q.phase == Q.Launching {
      assert r == l;
      if Bound(l, p) && !InSlots(l.q.slots, p) {
        var i :| 0 <= i < |l.launches| && LL.IsOut(l.launches[i]) && InSlots(SlotsOf(l, i), p);
        assert l.launches[i].stage.Checked? || l.launches[i].arrayNo < |l.replaced|;
      }
    } else {
      KickedIsOut(l.q, p);
      forall i | 0 <= i < |l.launches| && (l.launches[i].stage.Checked? || l.launches[i].arrayNo < |l.replaced|)
        ensures SlotsOf(r, i) == SlotsOf(l, i)
      {
      }
    }
  }

  lemma KickedIsOut(q: Q.Queue, p: PlayerId)
    requires QS.SlotsOk(q) && q.phase != Q.Launching
    ensures !InSlots(Q.Kick(q, [Some(p)]).slots, p)
  {
    var r := Q.Kick(q, [Some(p)]);
    QS.KickEachKeeps(q, [Some(p)]);
    forall i | 0 <= i < |r.slots| ensures r.slots[i].player != Some(p) {
      if q.slots[i].player == Some(p) {
        assert q.slots[i].player in [Some(p)];
        assert r.slots[i] == Q.Clear(q.slots[i]);
      } else {
        assert r.slots[i].player == q.slots[i].player || r.slots[i].player.None?;
      }
    }
  }

  // ----- who plays the game

  /** Only a replacement gets a slot of the game. */
  lemma HoldsAfter(g: G.Game, step: G.Step, p: PlayerId)
    requires LC.Holds(G.Apply(g, step).slots, p)
    ensures LC.Holds(g.slots, p) || (step.StepReplace? && step.replacement == p && step.replacee != p &&
              G.ReplaceRefusal(g, step.replacee, p, step.banned).None?)
  {
    var r := G.Apply(g, step);
    var i :| 0 <= i < |r.slots| && r.slots[i].player == p && r.slots[i].status != G.Replaced;
    match step
    case StepSubstitute(q) => HeldBy(g.slots, G.FindSlot(g.slots, q), i, p);
    case StepCancel(q) => HeldBy(g.slots, G.FindSlot(g.slots, q), i, p);
    case StepReplace(replacee, replacement, banned) => HeldBy(g.slots, G.FindWaiting(g.slots, replacee), i, p);
    case _ =>
      assert g.slots[i].player == p && g.slots[i].status != G.Replaced;
  }

  lemma HeldBy(slots: seq<G.GameSlot>, k: nat, i: nat, p: PlayerId)
    ensures k < |slots| && slots[k].player == p && slots[k].status != G.Replaced ==> LC.Holds(slots, p)
    ensures i < |slots| && slots[i].player == p && slots[i].status != G.Replaced ==> LC.Holds(slots, p)
  {
  }

  lemma ReplacementHolds(g: G.Game, replacee: PlayerId, p: PlayerId, banned: bool)
    requires replacee != p && G.ReplaceRefusal(g, replacee, p, banned).None?
    ensures LC.Holds(G.ReplacePlayer(g, replacee, p, banned).slots, p)
  {
    var r := G.ReplacePlayer(g, replacee, p, banned);
    assert r.slots[|g.slots|].player == p && r.slots[|g.slots|].status != G.Replaced;
  }

  lemma StateOnlyEnds(g: G.Game, step: G.Step)
    ensures G.InProgress(G.Apply(g, step).state) ==> G.InProgress(g.state)
  {
  }

  // ----- exactly when

  /**
    A player of the queue or of a launch replaces somebody out of reach of the kick; or a join that
    read the player's record before a replacement claims its slot after it.
   */
  ghost predicate Entangles(h: Hall, step: HallStep) {
    && G.InProgress(h.game.state)
    && match step
       case OnReplace(_, replacement, _) => Replaces(h, step) && OutOfReach(h.ledger, replacement)
       case OnJoin(admitted) =>
         && h.clear == Some(true) && admitted && h.ledger.q.joining.Some?
         && Q.JoinFinishRefusal(h.ledger.q, h.ledger.q.joining.value.0, true).None?
         && LC.Holds(h.game.slots, h.ledger.q.joining.value.1)
       case _ => false
  }

  lemma ReplaceExactly(h: Hall, step: HallStep)
    requires LL.Consistent(h.ledger) && Apart(h) && Replaces(h, step)
    ensures Apart(Step(h, step)) <==> !Entangles(h, step)
  {
    var r := Step(h, step);
    var s := G.StepReplace(step.replacee, step.replacement, step.banned);
    KickLeaves(h.ledger, step.replacement);
    ReplacementHolds(h.game, step.replacee, step.replacement, step.banned);
    StateOnlyEnds(h.game, s);
    if G.InProgress(h.game.state) {
      forall p | LC.Holds(r.game.slots, p) && p != step.replacement ensures !Bound(r.ledger, p) {
        HoldsAfter(h.game, s, p);
        if Bound(r.ledger, p) {
          QueueStepOnlyLoses(h.ledger, Q.StepKick([step.replacement]), p);
        }
      }
    }
  }

  lemma JoinExactly(h: Hall, admitted: bool)
    requires LL.Consistent(h.ledger) && Apart(h) && h.clear.Some?
    ensures Apart(Step(h, OnJoin(admitted))) <==> !Entangles(h, OnJoin(admitted))
  {
    var r := Step(h, OnJoin(admitted));
    if Entangles(h, OnJoin(admitted)) {
      JoinerIsIn(h.ledger.q);
      assert Bound(r.ledger, h.ledger.q.joining.value.1);
    } else if G.InProgress(h.game.state) {
      forall p | LC.Holds(r.game.slots, p) ensures !Bound(r.ledger, p) {
        if Bound(r.ledger, p) {
          if admitted && h.clear.value && h.ledger.q.joining.Some? {
            JoinBinds(h.ledger, p);
          } else if !(admitted && h.clear.value) {
            RefusedJoinBindsNobody(h.ledger, p);
          }
        }
      }
    }
  }

  lemma OthersStayApart(h: Hall, step: HallStep)
    requires LL.Consistent(h.ledger) && Apart(h) && !Replaces(h, step) && !step.OnJoin?
    ensures Apart(Step(h, step))
  {
    var r := Step(h, step);
    if G.InProgress(r.game.state) {
      forall p | LC.Holds(r.game.slots, p) && Bound(r.ledger, p)
        ensures LC.Holds(h.game.slots, p) && Bound(h.ledger, p)
      {
        match step
        case OnQueue(s) => if !s.StepJoinFinish? { QueueStepOnlyLoses(h.ledger, s, p); }
        case OnLaunch(i, s, _) => LaunchOnlyLoses(h.ledger, i, s, p);
        case OnReplace(replacee, replacement, banned) =>
          HoldsAfter(h.game, G.StepReplace(replacee, replacement, banned), p);
        case OnGame(s) => if !s.StepReplace? { HoldsAfter(h.game, s, p); }
        case _ =>
      }
    }
  }

  lemma StepApartExactly(h: Hall, step: HallStep)
    requires LL.Consistent(h.ledger) && Apart(h)
    ensures Apart(Step(h, step)) <==> !Entangles(h, step)
  {
    if Replaces(h, step) {
      ReplaceExactly(h, step);
    } else if step.OnJoin? && h.clear.Some? {
      JoinExactly(h, step.admitted);
    } else if !step.OnJoin? {
      OthersStayApart(h, step);
    }
  }

  // ----- over whole runs

  function StepAll(h: Hall, steps: seq<HallStep>): Hall {
    if steps == [] then h else Step(StepAll(h, steps[..|steps|-1]), steps[|steps|-1])
  }

  /** A fresh queue beside a game. */
  function Start(cfg: Q.Config, g: G.Game): Hall {
    Hall(LL.FreshLedger(cfg), g, None)
  }

  lemma StepKeepsLedger(h: Hall, step: HallStep)
    requires LL.Consistent(h.ledger)
    ensures LL.Consistent(Step(h, step).ledger)
  {
    match step
    case OnQueue(s) => LL.ActKeeps(h.ledger, LL.QueueStep(s));
    case OnLaunch(i, s, _) => LL.ActKeeps(h.ledger, LedgerStepOf(i, s));
    case OnJoin(admitted) =>
      if h.clear.Some? { LL.ActKeeps(h.ledger, LL.QueueStep(Q.StepJoinFinish(admitted && h.clear.value))); }
    case OnReplace(_, replacement, _) => LL.ActKeeps(h.ledger, LL.QueueStep(Q.StepKick([replacement])));
    case _ =>
  }

  ghost predicate AlwaysApart(h: Hall, steps: seq<HallStep>) {
    Apart(StepAll(h, steps)) && (steps != [] ==> AlwaysApart(h, steps[..|steps|-1]))
  }

  ghost predicate NeverEntangled(h: Hall, steps: seq<HallStep>) {
    steps != [] ==>
      NeverEntangled(h, steps[..|steps|-1]) && !Entangles(StepAll(h, steps[..|steps|-1]), steps[|steps|-1])
  }

  lemma StartIsApart(cfg: Q.Config, g: G.Game)
    ensures Apart(Start(cfg, g))
  {
    QS.EmptySlotsAreFresh(cfg.classes);
  }

  /**
    Exactly the runs in which no replacement is out of reach of its kick, and no join overtakes a
    replacement, keep the players of the game out of the queue and of every launch under way.
   */
  lemma {:induction false} ApartExactly(cfg: Q.Config, g: G.Game, steps: seq<HallStep>)
    requires |Q.EmptySlots(cfg.classes)| > 0
    ensures LL.Consistent(StepAll(Start(cfg, g), steps).ledger)
    ensures AlwaysApart(Start(cfg, g), steps) <==> NeverEntangled(Start(cfg, g), steps)
  {
    StartIsApart(cfg, g);
    if steps == [] {
      LL.LedgerKeeps(cfg, []);
    } else {
      var init := steps[..|steps|-1];
      ApartExactly(cfg, g, init);
      var h := StepAll(Start(cfg, g), init);
      StepKeepsLedger(h, steps[|steps|-1]);
      if Apart(h) {
        StepApartExactly(h, steps[|steps|-1]);
      }
    }
  }

  /** In such a run no launch makes a game with a player of the game in progress. */
  lemma NobodyPlaysTwice(cfg: Q.Config, g: G.Game, steps: seq<HallStep>, i: nat, p: PlayerId)
    requires |Q.EmptySlots(cfg.classes)| > 0 && NeverEntangled(Start(cfg, g), steps)
    requires
      var h := StepAll(Start(cfg, g), steps);
      && i < |h.ledger.launches| && h.ledger.launches[i].stage.Checked? && InSlots(h.ledger.launches[i].stage.slots, p)
      && G.InProgress(h.game.state)
    ensures !LC.Holds(StepAll(Start(cfg, g), steps).game.slots, p)
  {
    ApartExactly(cfg, g, steps);
    var h := StepAll(Start(cfg, g), steps);
    assert LL.IsOut(h.ledger.launches[i]) && SlotsOf(h.ledger, i) == h.ledger.launches[i].stage.slots;
    assert Bound(h.ledger, p);
  }

  /** And otherwise the launch that still has the player makes the second game, as soon as it goes on. */
  lemma EntangledPlaysTwice(h: Hall, i: nat, p: PlayerId, id: GameId)
    requires G.InProgress(h.game.state) && LC.Holds(h.game.slots, p)
    requires i < |h.ledger.launches| && LL.IsOut(h.ledger.launches[i])
    requires InSlots(SlotsOf(h.ledger, i), p) && Q.Full(SlotsOf(h.ledger, i))
    ensures
      var r := Step(Step(h, OnLaunch(i, Checks, id)), OnLaunch(i, Makes, id));
      && |r.ledger.launches| == |h.ledger.launches| && r.ledger.launches[i].stage == LL.Made(SlotsOf(h.ledger, i))
      && G.InProgress(r.game.state) && LC.Holds(r.game.slots, p) && r.game.activeGame[p] == id
  {
    Q.Counts(SlotsOf(h.ledger, i));
    var slots := SlotsOf(h.ledger, i);
    var k :| 0 <= k < |slots| && slots[k].player == Some(p);
    assert slots[k] in slots;
    assert p in PlayersIn(slots);
  }
}
