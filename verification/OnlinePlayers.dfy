/** Who is online: open sockets, and a delayed check after every disconnect. */
module OnlinePlayers {
  import opened Common

  type Socket = nat

  /** `timers` lists the players whose delayed check has not run yet, one entry a check. */
  datatype Presence = Presence(sockets: map<PlayerId, seq<Socket>>, timers: seq<PlayerId>, online: set<PlayerId>)

  function SocketsOf(p: Presence, player: PlayerId): seq<Socket> {
    if player in p.sockets then p.sockets[player] else []
  }

  function Without(s: seq<Socket>, socket: Socket): seq<Socket> {
    if s == [] then []
    else (if s[0] != socket then [s[0]] else []) + Without(s[1..], socket)
  }

  function Connect(p: Presence, player: PlayerId, socket: Socket): Presence {
    var before := SocketsOf(p, player);
    if socket in before then p
    else p.(sockets := p.sockets[player := before + [socket]],
            online := if before == [] then p.online + {player} else p.online)
  }

  function Disconnect(p: Presence, player: PlayerId, socket: Socket): Presence {
    p.(sockets := p.sockets[player := Without(SocketsOf(p, player), socket)], timers := p.timers + [player])
  }

  /** The check at index `i` runs; checks of different players may run in any order. */
  function Verify(p: Presence, i: nat): Presence {
    if i >= |p.timers| then p
    else
      var player := p.timers[i];
      p.(timers := p.timers[..i] + p.timers[i+1..],
         online := if SocketsOf(p, player) == [] then p.online - {player} else p.online)
  }

  datatype PresenceStep =
    | StepConnect(player: PlayerId, socket: Socket)
    | StepDisconnect(player: PlayerId, socket: Socket)
    | StepVerify(i: nat)

  function Apply(p: Presence, step: PresenceStep): Presence {
    match step
    case StepConnect(player, socket) => Connect(p, player, socket)
    case StepDisconnect(player, socket) => Disconnect(p, player, socket)
    case StepVerify(i) => Verify(p, i)
  }

  function Run(p: Presence, steps: seq<PresenceStep>): Presence {
    if steps == [] then p else Apply(Run(p, steps[..|steps|-1]), steps[|steps|-1])
  }

  const NOBODY := Presence(map[], [], {})

  // ----- the promises

  ghost predicate Inv(p: Presence) {
    && (forall x :: SocketsOf(p, x) != [] ==> x in p.online)
    && (forall x :: x in p.online && SocketsOf(p, x) == [] ==> x in p.timers)
    && (forall x :: x in p.timers ==> x in p.sockets)
  }

  lemma StepKeeps(p: Presence, step: PresenceStep)
    requires Inv(p)
    ensures Inv(Apply(p, step))
  {
    var r := Apply(p, step);
    match step
    case StepConnect(player, socket) =>
      assert forall x :: x != player ==> SocketsOf(r, x) == SocketsOf(p, x);
    case StepDisconnect(player, socket) =>
      assert forall x :: x != player ==> SocketsOf(r, x) == SocketsOf(p, x);
      assert forall x :: x in p.timers ==> x in r.timers;
      assert r.timers[|p.timers|] == player;
      assert SocketsOf(r, player) != [] ==> SocketsOf(p, player) != [];
    case StepVerify(i) =>
      if i < |p.timers| {
        forall x | x in p.timers && x != p.timers[i] ensures x in r.timers {
          var k :| 0 <= k < |p.timers| && p.timers[k] == x;
          assert r.timers[if k < i then k else k - 1] == x;
        }
        assert forall x :: SocketsOf(r, x) == SocketsOf(p, x);
      }
  }

  lemma {:induction false} RunKeeps(steps: seq<PresenceStep>)
    ensures Inv(Run(NOBODY, steps))
  {
    if steps != [] {
      RunKeeps(steps[..|steps|-1]);
      StepKeeps(Run(NOBODY, steps[..|steps|-1]), steps[|steps|-1]);
    }
  }

  // ----- what happened so far

  /** The socket was opened by the player and not closed since. */
  ghost predicate Open(steps: seq<PresenceStep>, player: PlayerId, socket: Socket) {
    exists k :: 0 <= k < |steps| && steps[k] == StepConnect(player, socket) && NotClosedAfter(steps, k, player, socket)
  }

  ghost predicate NotClosedAfter(steps: seq<PresenceStep>, k: nat, player: PlayerId, socket: Socket) {
    forall j :: k < j < |steps| ==> steps[j] != StepDisconnect(player, socket)
  }

  ghost predicate Connected(steps: seq<PresenceStep>, player: PlayerId) {
    exists socket :: Open(steps, player, socket)
  }

  lemma OpenAfter(before: seq<PresenceStep>, last: PresenceStep, player: PlayerId, socket: Socket)
    ensures Open(before + [last], player, socket) <==>
            || last == StepConnect(player, socket)
            || (Open(before, player, socket) && last != StepDisconnect(player, socket))
  {
    var steps := before + [last];
    if last == StepConnect(player, socket) {
      assert NotClosedAfter(steps, |before|, player, socket);
    }
    if Open(before, player, socket) && last != StepDisconnect(player, socket) {
      var k :|
        0 <= k < |before| && before[k] == StepConnect(player, socket) && NotClosedAfter(before, k, player, socket);
      assert steps[k] == before[k] && NotClosedAfter(steps, k, player, socket);
    }
    if Open(steps, player, socket) && last != StepConnect(player, socket) {
      var k :| 0 <= k < |steps| && steps[k] == StepConnect(player, socket) && NotClosedAfter(steps, k, player, socket);
      assert steps[|before|] == last;
      assert before[k] == steps[k];
      assert forall j :: k < j < |before| ==> before[j] == steps[j];
      assert NotClosedAfter(before, k, player, socket);
    }
  }

  lemma WithoutExactly(s: seq<Socket>, socket: Socket, other: Socket)
    ensures multiset(Without(s, socket))[other] == if other == socket then 0 else multiset(s)[other]
  {
    if s != [] {
      assert s == [s[0]] + s[1..];
    }
  }

  lemma StepSockets(p: Presence, step: PresenceStep, x: PlayerId, s: Socket)
    ensures
      var n := multiset(SocketsOf(p, x))[s];
      multiset(SocketsOf(Apply(p, step), x))[s] ==
      if step == StepDisconnect(x, s) then 0 else if step == StepConnect(x, s) && n == 0 then 1 else n
  {
    if step.StepDisconnect? { WithoutExactly(SocketsOf(p, x), step.socket, s); }
  }

  /** The sockets kept for a player are exactly those opened and not closed since, each once. */
  lemma {:induction false} SocketsExactly(steps: seq<PresenceStep>, x: PlayerId, s: Socket)
    ensures multiset(SocketsOf(Run(NOBODY, steps), x))[s] == if Open(steps, x, s) then 1 else 0
  {
    if steps != [] {
      var init, last := steps[..|steps|-1], steps[|steps|-1];
      SocketsExactly(init, x, s);
      StepSockets(Run(NOBODY, init), last, x, s);
      Snoc(steps);
      OpenAfter(init, last, x, s);
    }
  }

  lemma ConnectedExactly(steps: seq<PresenceStep>, x: PlayerId)
    ensures Connected(steps, x) <==> SocketsOf(Run(NOBODY, steps), x) != []
  {
    var sockets := SocketsOf(Run(NOBODY, steps), x);
    forall s ensures Open(steps, x, s) <==> s in sockets {
      SocketsExactly(steps, x, s);
    }
    if sockets != [] {
      assert sockets[0] in sockets;
    }
  }

  /**
    A player with an open socket is online; one listed without a socket has a check pending,
    so once every check has run the list is exactly the players with a socket.
   */
  lemma OnlineExactly(steps: seq<PresenceStep>, x: PlayerId)
    ensures
      var p := Run(NOBODY, steps);
      && (Connected(steps, x) ==> x in p.online)
      && (x in p.online && !Connected(steps, x) ==> x in p.timers)
      && (x in p.timers ==> x in p.sockets)
      && (p.timers == [] ==> (x in p.online <==> Connected(steps, x)))
  {
    RunKeeps(steps);
    ConnectedExactly(steps, x);
  }

  /** A player comes online by connecting, and goes exactly by a check that finds no open socket. */
  lemma OnlineChangesExactly(steps: seq<PresenceStep>, step: PresenceStep, x: PlayerId)
    ensures
      var p := Run(NOBODY, steps);
      var r := Apply(p, step);
      if x in p.online
      then x !in r.online <==>
           step.StepVerify? && step.i < |p.timers| && p.timers[step.i] == x && !Connected(steps, x)
      else x in r.online <==> step.StepConnect? && step.player == x
  {
    RunKeeps(steps);
    ConnectedExactly(steps, x);
  }

  /** Every disconnect owes one check of the player, and a check that runs pays one. */
  lemma ChecksOwed(p: Presence, step: PresenceStep)
    ensures
      var r := Apply(p, step);
      match step
      case StepConnect(_, _) => r.timers == p.timers
      case StepDisconnect(player, _) => multiset(r.timers) == multiset(p.timers) + multiset{player}
      case StepVerify(i) =>
        if i < |p.timers| then multiset(r.timers) + multiset{p.timers[i]} == multiset(p.timers) else r == p
  {
    if step.StepVerify? && step.i < |p.timers| {
      var i := step.i;
      assert p.timers == p.timers[..i] + [p.timers[i]] + p.timers[i+1..];
    }
  }

  ghost function Checks(n: nat): seq<PresenceStep> {
    seq(n, _ => StepVerify(0))
  }

  /** Letting the pending checks run, oldest first, gets there. */
  lemma {:induction false} ChecksSettle(steps: seq<PresenceStep>)
    ensures
      var p := Run(NOBODY, steps);
      var r := Run(p, Checks(|p.timers|));
      r.timers == [] && r.sockets == p.sockets && forall x :: x in r.online <==> Connected(steps, x)
  {
    var p := Run(NOBODY, steps);
    RunKeeps(steps);
    Drain(p, |p.timers|);
    forall x ensures Connected(steps, x) <==> SocketsOf(p, x) != [] {
      ConnectedExactly(steps, x);
    }
  }

  lemma {:induction false} Drain(p: Presence, n: nat)
    requires Inv(p) && n <= |p.timers|
    ensures
      var r := Run(p, Checks(n));
      Inv(r) && r.timers == p.timers[n..] && r.sockets == p.sockets
  {
    if n > 0 {
      assert Checks(n)[..n-1] == Checks(n - 1);
      Drain(p, n - 1);
      StepKeeps(Run(p, Checks(n - 1)), StepVerify(0));
      assert p.timers[n-1..][..0] + p.timers[n-1..][1..] == p.timers[n..];
    }
  }

  // ----- the service

  class OnlinePlayersService {
    var sockets: map<PlayerId, seq<Socket>>
    var timers: seq<PlayerId>
    var onlinePlayers: set<PlayerId>

    ghost function View(): Presence
      reads this
    {
      Presence(sockets, timers, onlinePlayers)
    }

    constructor ()
      ensures View() == NOBODY
    {
      sockets, timers, onlinePlayers := map[], [], {};
    }

    method OnConnected(player: PlayerId, socket: Socket)
      modifies this
      ensures View() == Connect(old(View()), player, socket)
    {
      var before := if player in sockets then sockets[player] else [];
      if socket !in before {
        sockets := sockets[player := before + [socket]];
        if before == [] {
          onlinePlayers := onlinePlayers + {player};
        }
      }
    }

    method OnDisconnected(player: PlayerId, socket: Socket)
      modifies this
      ensures View() == Disconnect(old(View()), player, socket)
    {
      var before := if player in sockets then sockets[player] else [];
      sockets := sockets[player := Without(before, socket)];
      timers := timers + [player];
    }

    method VerifyPlayer(i: nat)
      requires i < |timers|
      modifies this
      ensures View() == Verify(old(View()), i)
    {
      var player := timers[i];
      timers := timers[..i] + timers[i+1..];
      if player !in sockets || sockets[player] == [] {
        onlinePlayers := onlinePlayers - {player};
      }
    }
  }
}
