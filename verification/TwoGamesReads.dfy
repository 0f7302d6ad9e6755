/** What a join has read when it claims its slot: it entangles a player only if replaced in meanwhile. */
module TwoGamesReads {
  import opened Common
  import opened TwoGames
  import Q = QueueModel
  import QT = QueueTheorems
  import LL = LaunchLedger
  import G = GameLifecycle
  import LC = LifecycleTheorems

  // ----- the join and its read

  lemma QueueKeepsJoining(l: LL.Ledger, s: Q.Step)
    requires l.q.joining.Some? && !s.StepJoinFinish?
    ensures LL.Act(l, LL.QueueStep(s)).q.joining == l.q.joining
  {
    match s
    case StepKick(players) => QT.KickEachFrame(l.q, Q.Present(players));
    case StepTimer => QT.TimerFrame(l.q);
    case _ =>
  }

  /** While a join has read and not ended, nothing makes it another join or another read. */
  lemma StepKeepsRead(h: Hall, step: HallStep)
    requires h.clear.Some? ==> h.ledger.q.joining.Some?
    requires Step(h, step).clear.Some?
    ensures
      var r := Step(h, step);
      && h.ledger.q.joining.Some? && r.ledger.q.joining == h.ledger.q.joining
      && if h.clear.Some? then r.clear == h.clear
         else step == OnRead && (r.clear.value <==> h.ledger.q.joining.value.1 !in h.game.activeGame)
  {
    match step
    case OnQueue(s) => if h.clear.Some? && !s.StepJoinFinish? { QueueKeepsJoining(h.ledger, s); }
    case OnReplace(_, replacement, _) => QueueKeepsJoining(h.ledger, Q.StepKick([replacement]));
    case _ =>
  }

  lemma {:induction false} ReadsWhileJoining(cfg: Q.Config, g: G.Game, steps: seq<HallStep>)
    ensures
      var h := StepAll(Start(cfg, g), steps);
      h.clear.Some? ==> h.ledger.q.joining.Some?
  {
    if steps != [] {
      var init, last := steps[..|steps|-1], steps[|steps|-1];
      ReadsWhileJoining(cfg, g, init);
      if StepAll(Start(cfg, g), steps).clear.Some? {
        StepKeepsRead(StepAll(Start(cfg, g), init), last);
      }
    }
  }

  /**
    What a join goes by was read at one moment of the run, while the same join was under way: that
    its player had no active game then.
   */
  lemma {:induction false} ReadExactly(cfg: Q.Config, g: G.Game, steps: seq<HallStep>) returns (k: nat)
    requires StepAll(Start(cfg, g), steps).clear.Some?
    ensures k < |steps| && steps[k] == OnRead
    ensures
      var h, at := StepAll(Start(cfg, g), steps), StepAll(Start(cfg, g), steps[..k]);
      && at.ledger.q.joining == h.ledger.q.joining && h.ledger.q.joining.Some?
      && (h.clear.value <==> h.ledger.q.joining.value.1 !in at.game.activeGame)
  {
    var init, last := steps[..|steps|-1], steps[|steps|-1];
    var before := StepAll(Start(cfg, g), init);
    ReadsWhileJoining(cfg, g, init);
    StepKeepsRead(before, last);
    if before.clear.Some? {
      k := ReadExactly(cfg, g, init);
      assert init[..k] == steps[..k];
    } else {
      k := |init|;
    }
  }

  // ----- who plays is marked

  /** As long as the game goes on, nobody is waiting to be freed, and all who play are marked with it. */
  ghost predicate PlayersMarked(g: G.Game) {
    G.InProgress(g.state) ==> g.freeings == 0 && forall p :: LC.Holds(g.slots, p) ==> LC.Marked(g, p)
  }

  lemma GameKeepsMarks(g: G.Game, s: G.Step)
    requires PlayersMarked(g)
    ensures PlayersMarked(G.Apply(g, s))
  {
    var r := G.Apply(g, s);
    if G.InProgress(r.state) {
      StateOnlyEnds(g, s);
      forall p | LC.Holds(r.slots, p) ensures LC.Marked(r, p) {
        HoldsAfter(g, s, p);
        if s.StepReplace? && s.replacee == p && r != g && s.replacement != p {
          ReplaceeIsOut(g, p, s.replacement, s.banned);
        }
      }
    }
  }

  lemma ReplaceeIsOut(g: G.Game, p: PlayerId, replacement: PlayerId, banned: bool)
    requires p != replacement && G.ReplaceRefusal(g, p, replacement, banned).None?
    ensures !LC.Holds(G.ReplacePlayer(g, p, replacement, banned).slots, p)
  {
  }

  lemma TheirSlot(slots: seq<Q.Slot>, p: PlayerId)
    requires p in PlayersIn(slots)
    ensures InSlots(slots, p)
  {
    var s :| s in slots && s.player == Some(p);
  }

  lemma LaunchKeepsMarks(h: Hall, i: nat, s: LaunchStep, id: GameId)
    requires PlayersMarked(h.game) && Apart(h)
    ensures PlayersMarked(Step(h, OnLaunch(i, s, id)).game)
  {
    if s.Makes? && i < |h.ledger.launches| && h.ledger.launches[i].stage.Checked? && G.InProgress(h.game.state) {
      var slots := h.ledger.launches[i].stage.slots;
      assert LL.IsOut(h.ledger.launches[i]) && SlotsOf(h.ledger, i) == slots;
      forall p | p in PlayersIn(slots) ensures !LC.Holds(h.game.slots, p) {
        TheirSlot(slots, p);
        assert Bound(h.ledger, p);
      }
    }
  }

  lemma {:induction false} PlayersAreMarked(cfg: Q.Config, g: G.Game, steps: seq<HallStep>)
    requires |Q.EmptySlots(cfg.classes)| > 0 && LC.Created(g) && NeverEntangled(Start(cfg, g), steps)
    ensures PlayersMarked(StepAll(Start(cfg, g), steps).game)
  {
    if steps != [] {
      var init, last := steps[..|steps|-1], steps[|steps|-1];
      var h := StepAll(Start(cfg, g), init);
      PlayersAreMarked(cfg, g, init);
      ApartExactly(cfg, g, init);
      match last
      case OnLaunch(i, s, id) => LaunchKeepsMarks(h, i, s, id);
      case OnReplace(replacee, replacement, banned) =>
        GameKeepsMarks(h.game, G.StepReplace(replacee, replacement, banned));
      case OnGame(s) => if !s.StepReplace? { GameKeepsMarks(h.game, s); }
      case _ =>
    }
  }

  // ----- the replacement in between

  lemma GameOnlyEnds(h: Hall, step: HallStep)
    requires G.InProgress(Step(h, step).game.state)
    ensures G.InProgress(h.game.state)
  {
  }

  lemma GainsOnlyByReplacement(h: Hall, step: HallStep, p: PlayerId)
    requires LC.Holds(Step(h, step).game.slots, p) && !LC.Holds(h.game.slots, p)
    ensures step.OnReplace? && step.replacement == p && Replaces(h, step)
  {
    match step
    case OnReplace(replacee, replacement, banned) =>
      HoldsAfter(h.game, G.StepReplace(replacee, replacement, banned), p);
    case OnGame(s) => if !s.StepReplace? { HoldsAfter(h.game, s, p); }
    case _ =>
  }

  lemma {:induction false} ReplacedSince(start: Hall, steps: seq<HallStep>, k: nat, p: PlayerId) returns (m: nat)
    requires k <= |steps| && !LC.Holds(StepAll(start, steps[..k]).game.slots, p)
    requires LC.Holds(StepAll(start, steps).game.slots, p)
    ensures k <= m < |steps| && steps[m].OnReplace? && steps[m].replacement == p
    ensures Replaces(StepAll(start, steps[..m]), steps[m])
  {
    assert steps[..|steps|] == steps;
    var init, last := steps[..|steps|-1], steps[|steps|-1];
    if LC.Holds(StepAll(start, init).game.slots, p) {
      assert init[..k] == steps[..k];
      m := ReplacedSince(start, init, k, p);
      assert init[..m] == steps[..m];
    } else {
      m := |init|;
      GainsOnlyByReplacement(StepAll(start, init), last, p);
    }
  }

  lemma {:induction false} WasInProgress(start: Hall, steps: seq<HallStep>, k: nat)
    requires k <= |steps| && G.InProgress(StepAll(start, steps).game.state)
    ensures G.InProgress(StepAll(start, steps[..k]).game.state)
  {
    if k == |steps| {
      assert steps[..k] == steps;
    } else {
      var init := steps[..|steps|-1];
      GameOnlyEnds(StepAll(start, init), steps[|steps|-1]);
      WasInProgress(start, init, k);
      assert init[..k] == steps[..k];
    }
  }

  lemma {:induction false} NeverBefore(start: Hall, steps: seq<HallStep>, k: nat)
    requires k <= |steps| && NeverEntangled(start, steps)
    ensures NeverEntangled(start, steps[..k])
  {
    if k == |steps| {
      assert steps[..k] == steps;
    } else {
      NeverBefore(start, steps[..|steps|-1], k);
      assert steps[..|steps|-1][..k] == steps[..k];
    }
  }

  /**
    The first join that entangles a player of the game read the record before the player replaced
    somebody in it, and claims its slot after that.
   */
  lemma EntanglingJoin(cfg: Q.Config, g: G.Game, steps: seq<HallStep>, admitted: bool) returns (k: nat, m: nat)
    requires |Q.EmptySlots(cfg.classes)| > 0 && LC.Created(g) && NeverEntangled(Start(cfg, g), steps)
    requires Entangles(StepAll(Start(cfg, g), steps), OnJoin(admitted))
    ensures k < m < |steps| && steps[k] == OnRead
    ensures
      var h, at := StepAll(Start(cfg, g), steps), StepAll(Start(cfg, g), steps[..k]);
      && at.ledger.q.joining == h.ledger.q.joining && h.ledger.q.joining.Some?
      && steps[m].OnReplace? && steps[m].replacement == h.ledger.q.joining.value.1
      && Replaces(StepAll(Start(cfg, g), steps[..m]), steps[m])
  {
    var start := Start(cfg, g);
    var h := StepAll(start, steps);
    k := ReadExactly(cfg, g, steps);
    var p := h.ledger.q.joining.value.1;
    NeverBefore(start, steps, k);
    PlayersAreMarked(cfg, g, steps[..k]);
    WasInProgress(start, steps, k);
    m := ReplacedSince(start, steps, k, p);
  }
}
