/**
 * Cluster-wide presence (backend/src/services/presence.service.ts, backend/src/sockets/index.ts):
 * a shared connection counter and an online key per user, kept alive by socket heartbeats.
 * addConnection, removeConnection and refreshConnection are atomic.
 */
module Presence {
  import opened Base
  import opened R = Redis

  const TTL: nat := 300_000

  // ---------------------------------------------------------------- the service

  function AddConnection(st: Store, u: nat, now: int): Store {
    SetEx(Expire(IncrBy(st, ConnKey(u), 1, now).0, ConnKey(u), TTL, now), OnlineKey(u), 1, TTL, now)
  }

  /** DECR, and the two keys go away with the last connection. The flag: was this the last one? */
  function RemoveConnection(st: Store, u: nat, now: int): (Store, bool) {
    var (st', remaining) := IncrBy(st, ConnKey(u), -1, now);
    if remaining <= 0 then (Del(st', {ConnKey(u), OnlineKey(u)}), true) else (st', false)
  }

  function RefreshConnection(st: Store, u: nat, now: int): Store {
    SetEx(Expire(st, ConnKey(u), TTL, now), OnlineKey(u), 1, TTL, now)
  }

  predicate IsOnline(st: Store, u: nat, now: int) {
    Live(st, OnlineKey(u), now)
  }

  // ---------------------------------------------------------------- the cluster

  datatype Socket = Socket(user: nat, node: nat, beat: int)

  datatype Cluster = Cluster(st: Store, sockets: map<nat, Socket>, now: int)

  datatype Event =
    | Connect(socket: nat, user: nat, node: nat)
    | Disconnect(socket: nat)
    | Beat(socket: nat)
    | Crash(node: nat)
    | Tick(ms: nat)

  datatype Outcome = Quiet | WentOnline | WentOffline

  function SocketsOf(c: Cluster, u: nat): set<nat> {
    set s | s in c.sockets && c.sockets[s].user == u
  }

  predicate OnlineOnNode(c: Cluster, u: nat, node: nat) {
    exists s :: s in c.sockets && c.sockets[s].user == u && c.sockets[s].node == node
  }

  /** isUserOnline: the local room first, then the shared key. */
  predicate IsUserOnline(c: Cluster, u: nat, node: nat) {
    OnlineOnNode(c, u, node) || IsOnline(c.st, u, c.now)
  }

  function ConnectStep(c: Cluster, s: nat, u: nat, node: nat): (Cluster, Outcome) {
    (c.(st := AddConnection(c.st, u, c.now), sockets := c.sockets[s := Socket(u, node, c.now)]),
     if IsUserOnline(c, u, node) then Quiet else WentOnline)
  }

  function DisconnectStep(c: Cluster, s: nat): (Cluster, Outcome)
    requires s in c.sockets
  {
    var k := c.sockets[s];
    var r := RemoveConnection(c.st, k.user, c.now);
    var c' := c.(st := r.0, sockets := c.sockets - {s});
    (c', if !OnlineOnNode(c', k.user, k.node) && r.1 then WentOffline else Quiet)
  }

  function Step(c: Cluster, e: Event): (Cluster, Outcome) {
    match e
    case Connect(s, u, node) => if s in c.sockets then (c, Quiet) else ConnectStep(c, s, u, node)
    case Disconnect(s) => if s in c.sockets then DisconnectStep(c, s) else (c, Quiet)
    case Beat(s) =>
      if s in c.sockets then
        (c.(st := RefreshConnection(c.st, c.sockets[s].user, c.now),
            sockets := c.sockets[s := c.sockets[s].(beat := c.now)]), Quiet)
      else (c, Quiet)
    case Crash(n) => (c.(sockets := map s | s in c.sockets && c.sockets[s].node != n :: c.sockets[s]), Quiet)
    case Tick(ms) => (c.(now := c.now + ms), Quiet)
  }

  function Run(c: Cluster, es: seq<Event>): Cluster {
    if es == [] then c else Step(Run(c, Front(es)), Last(es)).0
  }

  /** Heartbeats come in time: no live socket goes a full time to live without one. */
  ghost predicate Timely(c: Cluster) {
    forall s :: s in c.sockets ==> c.now < c.sockets[s].beat + TTL
  }

  ghost predicate TimelyRun(c: Cluster, es: seq<Event>) {
    forall i :: 0 <= i <= |es| ==> Timely(Run(c, es[..i]))
  }

  function Empty(now: int): Cluster {
    Cluster(map[], map[], now)
  }

  // ---------------------------------------------------------------- with crashes

  /** What the keys of one user guarantee about that user's sockets. */
  ghost predicate UserOk(c: Cluster, u: nat) {
    && Count(c.st, ConnKey(u), c.now) >= |SocketsOf(c, u)|
    && (forall s :: s in SocketsOf(c, u) ==>
          && ConnKey(u) in c.st && c.st[ConnKey(u)].expires.Some?
          && c.st[ConnKey(u)].expires.value >= c.sockets[s].beat + TTL
          && OnlineKey(u) in c.st && c.st[OnlineKey(u)].expires.Some?
          && c.st[OnlineKey(u)].expires.value >= c.sockets[s].beat + TTL
          && c.sockets[s].beat <= c.now)
    && (OnlineKey(u) in c.st ==>
          c.st[OnlineKey(u)].expires.Some? && c.st[OnlineKey(u)].expires.value <= c.now + TTL)
  }

  ghost predicate Inv(c: Cluster) {
    forall u :: UserOk(c, u)
  }

  lemma KeysOfOthers(c: Cluster, e: Event, u: nat)
    requires match e
             case Connect(s, v, _) => s !in c.sockets ==> v != u
             case Disconnect(s) => s in c.sockets ==> c.sockets[s].user != u
             case Beat(s) => s in c.sockets ==> c.sockets[s].user != u
             case _ => true
    ensures ConnKey(u) in Step(c, e).0.st <==> ConnKey(u) in c.st
    ensures OnlineKey(u) in Step(c, e).0.st <==> OnlineKey(u) in c.st
    ensures ConnKey(u) in c.st ==> Step(c, e).0.st[ConnKey(u)] == c.st[ConnKey(u)]
    ensures OnlineKey(u) in c.st ==> Step(c, e).0.st[OnlineKey(u)] == c.st[OnlineKey(u)]
    ensures !e.Crash? ==> SocketsOf(Step(c, e).0, u) == SocketsOf(c, u)
    ensures SocketsOf(Step(c, e).0, u) <= SocketsOf(c, u)
    ensures forall s :: s in SocketsOf(Step(c, e).0, u) ==> Step(c, e).0.sockets[s] == c.sockets[s]
  {
  }

  lemma ConnectOk(c: Cluster, s: nat, u: nat, node: nat)
    requires UserOk(c, u) && Timely(c) && s !in c.sockets
    ensures UserOk(ConnectStep(c, s, u, node).0, u)
    ensures Count(ConnectStep(c, s, u, node).0.st, ConnKey(u), c.now) == Count(c.st, ConnKey(u), c.now) + 1
    ensures SocketsOf(ConnectStep(c, s, u, node).0, u) == SocketsOf(c, u) + {s}
  {
    var c' := ConnectStep(c, s, u, node).0;
    assert SocketsOf(c', u) == SocketsOf(c, u) + {s};
  }

  lemma DisconnectOk(c: Cluster, s: nat)
    requires s in c.sockets && UserOk(c, c.sockets[s].user) && Timely(c)
    ensures UserOk(DisconnectStep(c, s).0, c.sockets[s].user)
    ensures SocketsOf(DisconnectStep(c, s).0, c.sockets[s].user) == SocketsOf(c, c.sockets[s].user) - {s}
  {
    var u := c.sockets[s].user;
    var c' := DisconnectStep(c, s).0;
    assert s in SocketsOf(c, u);
    assert SocketsOf(c', u) == SocketsOf(c, u) - {s};
    assert Live(c.st, ConnKey(u), c.now);
    if SocketsOf(c', u) != {} {
      SubsetSize({s}, SocketsOf(c, u));
      assert |SocketsOf(c', u)| > 0;
    }
  }

  lemma StepInv(c: Cluster, e: Event)
    requires Inv(c) && Timely(c) && Timely(Step(c, e).0)
    ensures Inv(Step(c, e).0)
  {
    forall u
      ensures UserOk(Step(c, e).0, u)
    {
      assert UserOk(c, u);
      StepUser(c, e, u);
    }
  }

  lemma StepUser(c: Cluster, e: Event, u: nat)
    requires UserOk(c, u) && Timely(c) && Timely(Step(c, e).0)
    ensures UserOk(Step(c, e).0, u)
  {
    match e
    case Connect(s, v, node) =>
      if s !in c.sockets && v == u { ConnectOk(c, s, u, node); } else if s !in c.sockets { KeysOfOthers(c, e, u); }
    case Disconnect(s) =>
      if s in c.sockets && c.sockets[s].user == u { DisconnectOk(c, s); } else { KeysOfOthers(c, e, u); }
    case Beat(s) =>
      if s in c.sockets && c.sockets[s].user == u { BeatOk(c, s); } else { KeysOfOthers(c, e, u); }
    case Crash(_) =>
      KeysOfOthers(c, e, u);
      SubsetSize(SocketsOf(Step(c, e).0, u), SocketsOf(c, u));
    case Tick(ms) => TickOk(c, ms, u);
  }

  lemma BeatOk(c: Cluster, s: nat)
    requires s in c.sockets && UserOk(c, c.sockets[s].user) && Timely(c)
    ensures UserOk(Step(c, Beat(s)).0, c.sockets[s].user)
    ensures SocketsOf(Step(c, Beat(s)).0, c.sockets[s].user) == SocketsOf(c, c.sockets[s].user)
  {
    var u := c.sockets[s].user;
    assert s in SocketsOf(c, u);
    assert Live(c.st, ConnKey(u), c.now);
    assert SocketsOf(Step(c, Beat(s)).0, u) == SocketsOf(c, u);
  }

  lemma TickOk(c: Cluster, ms: nat, u: nat)
    requires UserOk(c, u) && Timely(Step(c, Tick(ms)).0)
    ensures UserOk(Step(c, Tick(ms)).0, u)
    ensures SocketsOf(Step(c, Tick(ms)).0, u) == SocketsOf(c, u)
  {
    var c' := Step(c, Tick(ms)).0;
    assert SocketsOf(c', u) == SocketsOf(c, u);
    if SocketsOf(c, u) != {} {
      var s :| s in SocketsOf(c, u);
      assert Live(c'.st, ConnKey(u), c'.now);
    }
  }

  lemma TimelyPrefix(c: Cluster, es: seq<Event>, n: nat)
    requires TimelyRun(c, es) && n <= |es|
    ensures TimelyRun(c, es[..n]) && Timely(Run(c, es[..n]))
  {
    forall i | 0 <= i <= n ensures Timely(Run(c, es[..n][..i])) {
      assert es[..n][..i] == es[..i];
    }
  }

  lemma {:induction false} RunInv(now: int, es: seq<Event>)
    requires TimelyRun(Empty(now), es)
    ensures Inv(Run(Empty(now), es)) && Timely(Run(Empty(now), es))
  {
    TimelyPrefix(Empty(now), es, |es|);
    assert es[..|es|] == es;
    if es != [] {
      TimelyPrefix(Empty(now), es, |es| - 1);
      RunInv(now, Front(es));
      StepInv(Run(Empty(now), Front(es)), Last(es));
    } else {
      assert forall u :: SocketsOf(Empty(now), u) == {};
    }
  }

  /** Crashes or not: the counter never falls below the live sockets, and a connected user reads online. */
  lemma NeverUndercounted(now: int, es: seq<Event>, u: nat)
    requires TimelyRun(Empty(now), es)
    ensures var c := Run(Empty(now), es);
            && Count(c.st, ConnKey(u), c.now) >= |SocketsOf(c, u)|
            && (SocketsOf(c, u) != {} ==> IsOnline(c.st, u, c.now))
  {
    RunInv(now, es);
    var c := Run(Empty(now), es);
    assert UserOk(c, u);
  }

  /** The cluster after the first `k` events. */
  function At(now: int, es: seq<Event>, k: nat): Cluster
    requires k <= |es|
  {
    Run(Empty(now), es[..k])
  }

  ghost predicate Idle(now: int, es: seq<Event>, u: nat, i: nat, j: nat)
    requires i <= j <= |es|
  {
    forall k :: i <= k <= j ==> SocketsOf(At(now, es, k), u) == {}
  }

  lemma AtInv(now: int, es: seq<Event>, u: nat, i: nat)
    requires TimelyRun(Empty(now), es) && i <= |es|
    ensures UserOk(At(now, es, i), u)
  {
    TimelyPrefix(Empty(now), es, i);
    RunInv(now, es[..i]);
  }

  lemma {:induction false} OnlineKeyAges(now: int, es: seq<Event>, u: nat, i: nat, j: nat)
    requires TimelyRun(Empty(now), es) && i <= j <= |es| && Idle(now, es, u, i, j)
    ensures OnlineKey(u) in At(now, es, j).st ==>
              && At(now, es, j).st[OnlineKey(u)].expires.Some?
              && At(now, es, j).st[OnlineKey(u)].expires.value <= At(now, es, i).now + TTL
    decreases j
  {
    if i < j {
      OnlineKeyAges(now, es, u, i, j - 1);
      TakeFront(es, j - 1);
      assert At(now, es, j) == Step(At(now, es, j - 1), es[j - 1]).0;
      IdleKeyUntouched(At(now, es, j - 1), es[j - 1], u);
    } else {
      AtInv(now, es, u, i);
    }
  }

  /** Nobody touches the online key of a user without sockets. */
  lemma IdleKeyUntouched(c: Cluster, e: Event, u: nat)
    requires SocketsOf(c, u) == {} && SocketsOf(Step(c, e).0, u) == {}
    ensures OnlineKey(u) in Step(c, e).0.st ==>
              OnlineKey(u) in c.st && Step(c, e).0.st[OnlineKey(u)] == c.st[OnlineKey(u)]
  {
    if e.Disconnect? || e.Beat? { assert e.socket !in SocketsOf(c, u); }
    if e.Connect? { assert e.socket !in SocketsOf(Step(c, e).0, u); }
    KeysOfOthers(c, e, u);
  }

  /** However the last live socket went away, its user reads offline at most 300 s later. */
  lemma OfflineAfterTtl(now: int, es: seq<Event>, u: nat, i: nat, j: nat)
    requires TimelyRun(Empty(now), es) && i <= j <= |es| && Idle(now, es, u, i, j)
    requires At(now, es, j).now >= At(now, es, i).now + TTL
    ensures !IsOnline(At(now, es, j).st, u, At(now, es, j).now)
  {
    OnlineKeyAges(now, es, u, i, j);
  }

  // ---------------------------------------------------------------- without crashes

  /** The keys of a user exist exactly while the user has sockets, and the counter counts them. */
  ghost predicate UserExact(c: Cluster, u: nat) {
    && UserOk(c, u)
    && Count(c.st, ConnKey(u), c.now) == |SocketsOf(c, u)|
    && (SocketsOf(c, u) == {} ==> OnlineKey(u) !in c.st && ConnKey(u) !in c.st)
  }

  lemma StepExact(c: Cluster, e: Event, u: nat)
    requires UserExact(c, u) && Timely(c) && Timely(Step(c, e).0) && !e.Crash?
    ensures UserExact(Step(c, e).0, u)
  {
    StepUser(c, e, u);
    match e
    case Connect(s, v, node) =>
      if s !in c.sockets && v == u { ConnectOk(c, s, u, node); } else if s !in c.sockets { KeysOfOthers(c, e, u); }
    case Disconnect(s) =>
      if s in c.sockets && c.sockets[s].user == u { DisconnectExact(c, s); } else { KeysOfOthers(c, e, u); }
    case Beat(s) =>
      if s in c.sockets && c.sockets[s].user == u { BeatExact(c, s); } else { KeysOfOthers(c, e, u); }
    case Tick(ms) => TickExact(c, ms, u);
  }

  lemma BeatExact(c: Cluster, s: nat)
    requires s in c.sockets && UserExact(c, c.sockets[s].user) && Timely(c)
    ensures var u := c.sockets[s].user;
            Count(Step(c, Beat(s)).0.st, ConnKey(u), c.now) == |SocketsOf(Step(c, Beat(s)).0, u)|
    ensures SocketsOf(Step(c, Beat(s)).0, c.sockets[s].user) != {}
  {
    BeatOk(c, s);
    assert s in SocketsOf(c, c.sockets[s].user);
  }

  lemma TickExact(c: Cluster, ms: nat, u: nat)
    requires UserExact(c, u) && Timely(Step(c, Tick(ms)).0)
    ensures UserExact(Step(c, Tick(ms)).0, u)
  {
    TickOk(c, ms, u);
    var c' := Step(c, Tick(ms)).0;
    if SocketsOf(c, u) != {} {
      var s :| s in SocketsOf(c, u);
      assert Live(c'.st, ConnKey(u), c'.now);
    }
  }

  /** removeConnection reports the last connection exactly when it is the last one. */
  lemma DisconnectExact(c: Cluster, s: nat)
    requires s in c.sockets && UserExact(c, c.sockets[s].user) && Timely(c)
    ensures RemoveConnection(c.st, c.sockets[s].user, c.now).1 <==> SocketsOf(c, c.sockets[s].user) == {s}
    ensures UserExact(DisconnectStep(c, s).0, c.sockets[s].user)
  {
    var u := c.sockets[s].user;
    DisconnectOk(c, s);
    assert s in SocketsOf(c, u);
    assert Live(c.st, ConnKey(u), c.now);
    var rest := SocketsOf(c, u) - {s};
    assert |SocketsOf(c, u)| == |rest| + 1;
    assert rest == {} <==> SocketsOf(c, u) == {s};
  }

  lemma {:induction false} RunExact(now: int, es: seq<Event>, u: nat)
    requires TimelyRun(Empty(now), es)
    requires forall i :: 0 <= i < |es| ==> !es[i].Crash?
    ensures UserExact(Run(Empty(now), es), u) && Timely(Run(Empty(now), es))
  {
    TimelyPrefix(Empty(now), es, |es|);
    assert es[..|es|] == es;
    if es != [] {
      TimelyPrefix(Empty(now), es, |es| - 1);
      RunExact(now, Front(es), u);
      StepExact(Run(Empty(now), Front(es)), Last(es), u);
    } else {
      assert SocketsOf(Empty(now), u) == {};
    }
  }

  /**
   * Without crashes a user reads online exactly while a socket is live somewhere in the cluster.
   * The first socket, and no other, is announced as going online; removing a socket reports the
   * last connection, and announces going offline, exactly for the last one.
   */
  lemma PresenceExact(now: int, es: seq<Event>, e: Event)
    requires TimelyRun(Empty(now), es)
    requires forall i :: 0 <= i < |es| ==> !es[i].Crash?
    ensures var c := Run(Empty(now), es);
            && (forall u :: IsOnline(c.st, u, c.now) <==> SocketsOf(c, u) != {})
            && (e.Connect? && e.socket !in c.sockets ==>
                  (Step(c, e).1 == WentOnline <==> SocketsOf(c, e.user) == {}))
            && (e.Disconnect? && e.socket in c.sockets ==>
                  var u := c.sockets[e.socket].user;
                  && (RemoveConnection(c.st, u, c.now).1 <==> SocketsOf(c, u) == {e.socket})
                  && (Step(c, e).1 == WentOffline <==> SocketsOf(Step(c, e).0, u) == {}))
  {
    var c := Run(Empty(now), es);
    forall u
      ensures IsOnline(c.st, u, c.now) <==> SocketsOf(c, u) != {}
    {
      RunExact(now, es, u);
    }
    RunExact(now, es, 0);
    if e.Connect? && e.socket !in c.sockets {
      FirstSocket(c, e.user, e.node);
    }
    if e.Disconnect? && e.socket in c.sockets {
      RunExact(now, es, c.sockets[e.socket].user);
      LastSocket(c, e.socket);
    }
  }

  lemma FirstSocket(c: Cluster, u: nat, node: nat)
    requires IsOnline(c.st, u, c.now) <==> SocketsOf(c, u) != {}
    ensures IsUserOnline(c, u, node) <==> SocketsOf(c, u) != {}
  {
    if OnlineOnNode(c, u, node) {
      var s :| s in c.sockets && c.sockets[s].user == u && c.sockets[s].node == node;
      assert s in SocketsOf(c, u);
    }
  }

  lemma LastSocket(c: Cluster, s: nat)
    requires s in c.sockets && UserExact(c, c.sockets[s].user) && Timely(c)
    ensures RemoveConnection(c.st, c.sockets[s].user, c.now).1 <==> SocketsOf(c, c.sockets[s].user) == {s}
    ensures DisconnectStep(c, s).1 == WentOffline <==> SocketsOf(DisconnectStep(c, s).0, c.sockets[s].user) == {}
  {
    var u := c.sockets[s].user;
    var c' := DisconnectStep(c, s).0;
    DisconnectExact(c, s);
    DisconnectOk(c, s);
    if OnlineOnNode(c', u, c.sockets[s].node) {
      var t :| t in c'.sockets && c'.sockets[t].user == u && c'.sockets[t].node == c.sockets[s].node;
      assert t in SocketsOf(c', u);
    }
    assert s in SocketsOf(c, u);
    assert SocketsOf(c', u) == {} <==> SocketsOf(c, u) == {s};
  }

  // ---------------------------------------------------------------- announcements in every state

  /** The user has a socket on the node besides `s`. */
  predicate AnotherOnNode(c: Cluster, u: nat, node: nat, s: nat) {
    exists t :: t in c.sockets && t != s && c.sockets[t].user == u && c.sockets[t].node == node
  }

  /**
   * Whatever the shared keys hold: a connection is announced exactly if its node has no other socket of
   * the user and the online key is not live, the end of one exactly if its node has no other socket of
   * the user and the counter does not count any other.
   */
  lemma AnnouncedExactly(c: Cluster, e: Event)
    ensures match e
            case Connect(s, u, node) =>
              s !in c.sockets ==>
                (Step(c, e).1 == WentOnline <==> !AnotherOnNode(c, u, node, s) && !Live(c.st, OnlineKey(u), c.now))
            case Disconnect(s) =>
              s in c.sockets ==>
                var k := c.sockets[s];
                (Step(c, e).1 == WentOffline <==>
                   !AnotherOnNode(c, k.user, k.node, s) && Count(c.st, ConnKey(k.user), c.now) <= 1)
            case _ => Step(c, e).1 == Quiet
  {
    match e
    case Connect(s, u, node) =>
      if s !in c.sockets { assert OnlineOnNode(c, u, node) <==> AnotherOnNode(c, u, node, s); }
    case Disconnect(s) =>
      if s in c.sockets { EndAnnounced(c, s); }
    case _ =>
  }

  lemma EndAnnounced(c: Cluster, s: nat)
    requires s in c.sockets
    ensures var k := c.sockets[s];
            DisconnectStep(c, s).1 == WentOffline <==>
            !AnotherOnNode(c, k.user, k.node, s) && Count(c.st, ConnKey(k.user), c.now) <= 1
  {
    var k, z := c.sockets[s], DisconnectStep(c, s).0;
    if OnlineOnNode(z, k.user, k.node) {
      var t :| t in z.sockets && z.sockets[t].user == k.user && z.sockets[t].node == k.node;
      assert t in c.sockets && t != s && c.sockets[t] == z.sockets[t];
    }
    if AnotherOnNode(c, k.user, k.node, s) {
      var t :| t in c.sockets && t != s && c.sockets[t].user == k.user && c.sockets[t].node == k.node;
      assert t in z.sockets && z.sockets[t] == c.sockets[t];
    }
  }
}
