/** Launches and friends: a launch takes the friendships of its beginning, and the slots of its check. */
module LaunchTeams {
  import opened Common
  import opened QueueModel
  import opened QueueSafety
  import opened QueueTheorems
  import opened LaunchLedger
  import opened Friends
  import opened LobbyTheorems
  import PT = PickTeams
  import FT = FriendTeams

  /** What a launch took when it began; `seen` and `at` are the slots and the slot changes so far at that moment. */
  datatype Pick = Pick(friends: seq<Friendship>, seen: seq<Slot>, at: nat)

  /** `picks` are those of the launches, in the same order. */
  datatype Lounge = Lounge(ledger: Ledger, friendships: seq<Friendship>, picks: seq<Pick>)

  datatype LoungeStep = OnLedger(step: LedgerStep) | OnMark(source: PlayerId, target: Option<PlayerId>)

  function Do(x: Lounge, step: LoungeStep): Lounge {
    match step
    case OnLedger(s) =>
      var l := Act(x.ledger, s);
      Lounge(l,
             if l.q.changes > x.ledger.q.changes then Cleanup(l.q.slots, x.friendships) else x.friendships,
             if |l.launches| > |x.ledger.launches|
             then x.picks + [Pick(x.friendships, x.ledger.q.slots, x.ledger.q.changes)] else x.picks)
    case OnMark(source, target) =>
      x.(friendships := Mark(x.ledger.q.phase, x.ledger.q.slots, x.friendships, source, target))
  }

  function DoAll(x: Lounge, steps: seq<LoungeStep>): Lounge {
    if steps == [] then x else Do(DoAll(x, steps[..|steps|-1]), steps[|steps|-1])
  }

  function FreshLounge(cfg: Config): Lounge {
    Lounge(FreshLedger(cfg), [], [])
  }

  function AsLobby(x: Lounge): Lobby {
    Lobby(x.ledger.q, x.friendships)
  }

  // ----- it is the lobby of Friends

  ghost predicate LobbyReached(cfg: Config, l: Lobby) {
    exists run :: l == RunLobby(FreshLobby(cfg), run)
  }

  lemma LobbyThen(cfg: Config, l: Lobby, step: LobbyStep)
    requires LobbyReached(cfg, l)
    ensures LobbyReached(cfg, ApplyLobby(l, step))
  {
    var run :| l == RunLobby(FreshLobby(cfg), run);
    assert (run + [step])[..|run|] == run;
    assert ApplyLobby(l, step) == RunLobby(FreshLobby(cfg), run + [step]);
  }

  lemma DoIsLobbyStep(cfg: Config, x: Lounge, step: LoungeStep)
    requires LobbyReached(cfg, AsLobby(x))
    ensures LobbyReached(cfg, AsLobby(Do(x, step)))
  {
    match step
    case OnLedger(s) =>
      ActIsQueueStep(x.ledger, s);
      LobbyThen(cfg, AsLobby(x), LobbyStep.QueueStep(AsQueueStep(s)));
      if Act(x.ledger, s).q == x.ledger.q {
        assert AsLobby(Do(x, step)) == AsLobby(x);
      }
    case OnMark(source, target) => LobbyThen(cfg, AsLobby(x), MarkStep(source, target));
  }

  // ----- what a launch took belongs together

  /** Some moment of the lobby had these friendships and these slots. */
  ghost predicate OneMoment(cfg: Config, friends: seq<Friendship>, slots: seq<Slot>) {
    exists l :: LobbyReached(cfg, l) && l.q.slots == slots && l.friendships == friends
  }

  ghost predicate PicksOk(cfg: Config, x: Lounge) {
    && |x.picks| == |x.ledger.launches|
    && (forall i :: 0 <= i < |x.picks| ==> OneMoment(cfg, x.picks[i].friends, x.picks[i].seen))
    && (forall i :: 0 <= i < |x.picks| ==> PickOk(x, i))
  }

  /** Until a slot change is published, the array of a launch is as the launch saw it. */
  ghost predicate PickOk(x: Lounge, i: nat)
    requires i < |x.picks| && |x.picks| == |x.ledger.launches|
  {
    && x.picks[i].at <= x.ledger.q.changes
    && (x.ledger.q.changes == x.picks[i].at ==>
          x.ledger.launches[i].arrayNo == |x.ledger.replaced| && x.ledger.q.slots == x.picks[i].seen)
  }

  lemma LaunchCount(l: Ledger, step: LedgerStep)
    requires Consistent(l)
    ensures
      var r := Act(l, step);
      && |l.launches| <= |r.launches| <= |l.launches| + 1
      && (forall i :: 0 <= i < |l.launches| ==> r.launches[i].arrayNo == l.launches[i].arrayNo)
      && (|r.launches| > |l.launches| ==> r.launches[|l.launches|] == Launch(|l.replaced|, Begun))
  {
    LaunchesOf(l, step);
  }

  lemma ActPublishes(l: Ledger, step: LedgerStep)
    requires Consistent(l)
    ensures
      var r := Act(l, step);
      && r.q.changes >= l.q.changes
      && (r.q.changes == l.q.changes ==> r.q.slots == l.q.slots && r.replaced == l.replaced)
      && (|r.launches| > |l.launches| ==> r.q.changes == l.q.changes)
  {
    match step
    case QueueStep(s) =>
      StepPublishes(l.q, s);
      LaunchesOf(l, step);
    case Make(i) =>
      if i < |l.launches| && l.launches[i].stage.Checked? {
        MakeKeeps(l, i);
        OutSet(l.launches, i, Thrown);
      }
    case _ =>
  }

  lemma DoKeepsPicks(cfg: Config, x: Lounge, step: LoungeStep)
    requires Consistent(x.ledger) && LobbyReached(cfg, AsLobby(x)) && PicksOk(cfg, x)
    ensures PicksOk(cfg, Do(x, step))
  {
    var r := Do(x, step);
    match step
    case OnLedger(s) =>
      LaunchCount(x.ledger, s);
      ActPublishes(x.ledger, s);
      assert OneMoment(cfg, x.friendships, x.ledger.q.slots);
      forall i | 0 <= i < |r.picks| ensures PickOk(r, i) {
        assert i < |x.picks| ==> PickOk(x, i);
      }
    case OnMark(_, _) =>
      forall i | 0 <= i < |r.picks| ensures PickOk(r, i) {
        assert PickOk(x, i);
      }
  }

  lemma {:induction false} LoungeKeeps(cfg: Config, steps: seq<LoungeStep>)
    requires |EmptySlots(cfg.classes)| > 0
    ensures
      var x := DoAll(FreshLounge(cfg), steps);
      Consistent(x.ledger) && x.ledger.q.cfg == cfg && LobbyReached(cfg, AsLobby(x)) && PicksOk(cfg, x)
  {
    if steps == [] {
      LedgerKeeps(cfg, []);
      assert FreshLobby(cfg) == RunLobby(FreshLobby(cfg), []);
    } else {
      var x := DoAll(FreshLounge(cfg), steps[..|steps|-1]);
      LoungeKeeps(cfg, steps[..|steps|-1]);
      DoIsLobbyStep(cfg, x, steps[|steps|-1]);
      DoKeepsPicks(cfg, x, steps[|steps|-1]);
      if steps[|steps|-1].OnLedger? {
        ActKeeps(x.ledger, steps[|steps|-1].step);
      }
    }
  }

  /** A launch that checks before any slot change is published reads the slots it began with. */
  lemma UntouchedUntilCheck(cfg: Config, steps: seq<LoungeStep>, i: nat)
    requires |EmptySlots(cfg.classes)| > 0
    requires
      var x := DoAll(FreshLounge(cfg), steps);
      i < |x.ledger.launches| && |x.picks| == |x.ledger.launches|
      && x.ledger.launches[i].stage == Begun && x.ledger.q.changes == x.picks[i].at
    ensures
      var x := DoAll(FreshLounge(cfg), steps);
      ArrayOf(x.ledger, x.ledger.launches[i].arrayNo) == x.picks[i].seen
  {
    LoungeKeeps(cfg, steps);
    assert PickOk(DoAll(FreshLounge(cfg), steps), i);
  }

  /** The slots that a launch has read and makes, or has made, its game of. */
  function SlotsRead(launch: Launch): Option<seq<Slot>> {
    match launch.stage
    case Checked(slots) => Some(slots)
    case Made(slots) => Some(slots)
    case _ => None
  }

  /**
    A launch whose slots were still those it began with finds teams exactly if no medic's friend is
    the other medic.
   */
  lemma LaunchTeamsExactly(cfg: Config, steps: seq<LoungeStep>, i: nat, skill: Skill, shuffled: seq<PT.PlayerSlot>)
    requires |EmptySlots(cfg.classes)| > 0 && DistinctClasses(cfg) && OneOrTwoEach(cfg) && OnlyMedicsPick(cfg)
    requires exists c :: c in cfg.classes && c.name == Medic && c.count == 1
    requires
      var x := DoAll(FreshLounge(cfg), steps);
      && |x.picks| == |x.ledger.launches| && i < |x.picks| && SlotsRead(x.ledger.launches[i]) == Some(x.picks[i].seen)
      && Full(x.picks[i].seen) && multiset(shuffled) == multiset(PlayersOf(x.picks[i].seen, skill))
    ensures
      var fs := DoAll(FreshLounge(cfg), steps).picks[i].friends;
      PT.Select(shuffled, Some(FT.FriendLists(fs))).Ok? <==> FT.NoMedicPair(shuffled, fs)
  {
    LoungeKeeps(cfg, steps);
    var pick := DoAll(FreshLounge(cfg), steps).picks[i];
    assert OneMoment(cfg, pick.friends, pick.seen);
    var l :| LobbyReached(cfg, l) && l.q.slots == pick.seen && l.friendships == pick.friends;
    var run :| l == RunLobby(FreshLobby(cfg), run);
    LaunchFindsTeamsExactly(cfg, run, skill, shuffled);
  }
}
