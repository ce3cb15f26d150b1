/**
  * The services that talk to Redis, command by command: the job lock, presence and the socket
  * rate limit, and the connection handlers of a socket server that use presence. Each call names
  * the state its connection to Redis is in; a failing or missing connection takes the fallback
  * the source takes.
  */
module RedisServices {
  import opened Base
  import opened R = Redis
  import JobLock
  import P = Presence
  import RateLimit

  /** The shared store, with the commands the services send. */
  class SharedRedis {
    var st: Store
    var now: int

    constructor (now: int)
      ensures st == map[] && this.now == now
    {
      this.st, this.now := map[], now;
    }

    method SetEx(k: Key, value: int, ttl: nat)
      modifies `st
      ensures st == R.SetEx(old(st), k, value, ttl, now)
    {
      st := st[k := Entry(value, Some(now + ttl))];
    }

    method SetNx(k: Key, value: int, ttl: nat) returns (acquired: bool)
      modifies `st
      ensures (st, acquired) == R.SetNx(old(st), k, value, ttl, now)
    {
      acquired := !(k in st && (st[k].expires.None? || now < st[k].expires.value));
      if acquired { SetEx(k, value, ttl); }
    }

    method IncrBy(k: Key, delta: int) returns (value: int)
      modifies `st
      ensures (st, value) == R.IncrBy(old(st), k, delta, now)
    {
      var live := k in st && (st[k].expires.None? || now < st[k].expires.value);
      value := delta + if live then st[k].value else 0;
      st := st[k := Entry(value, if live then st[k].expires else None)];
    }

    method Expire(k: Key, ttl: nat)
      modifies `st
      ensures st == R.Expire(old(st), k, ttl, now)
    {
      if k in st && (st[k].expires.None? || now < st[k].expires.value) {
        st := st[k := st[k].(expires := Some(now + ttl))];
      }
    }

    method Del(ks: set<Key>)
      modifies `st
      ensures st == R.Del(old(st), ks)
    {
      st := st - ks;
    }

    predicate Has(k: Key)
      reads this
    {
      k in st && (st[k].expires.None? || now < st[k].expires.value)
    }
  }

  // ---- The job lock ----

  /** Whether this tick runs the job. */
  method RunExclusive(redis: SharedRedis, job: nat, ttl: nat, link: JobLock.Link) returns (run: bool)
    modifies redis`st
    ensures (redis.st, run) == JobLock.RunExclusiveStep(old(redis.st), job, ttl, redis.now, link)
    ensures !link.Up? ==> run && redis.st == old(redis.st)
    ensures link.Up? ==> (run <==> !old(redis.Has(JobKey(job))))
    ensures link.Up? ==>
              redis.st == old(redis.st) + if run then map[JobKey(job) := Entry(1, Some(redis.now + ttl))] else map[]
  {
    if link.Up? {
      var acquired := redis.SetNx(JobKey(job), 1, ttl);
      if !acquired { return false; }
    }
    run := true;
  }

  // ---- Presence ----

  class PresenceService {
    const redis: SharedRedis

    constructor (redis: SharedRedis)
      ensures this.redis == redis
    {
      this.redis := redis;
    }

    method AddConnection(u: nat, link: JobLock.Link)
      modifies redis`st
      ensures redis.st == if link.Up? then P.AddConnection(old(redis.st), u, redis.now) else old(redis.st)
    {
      if !link.Up? { return; }
      var _ := redis.IncrBy(ConnKey(u), 1);
      redis.Expire(ConnKey(u), P.TTL);
      redis.SetEx(OnlineKey(u), 1, P.TTL);
    }

    /** Whether this was the last connection anywhere; the answer is yes when Redis cannot be asked. */
    method RemoveConnection(u: nat, link: JobLock.Link) returns (last: bool)
      modifies redis`st
      ensures (redis.st, last) ==
              if link.Up? then P.RemoveConnection(old(redis.st), u, redis.now) else (old(redis.st), true)
    {
      if !link.Up? { return true; }
      var remaining := redis.IncrBy(ConnKey(u), -1);
      if remaining <= 0 {
        redis.Del({ConnKey(u), OnlineKey(u)});
        return true;
      }
      last := false;
    }

    method RefreshConnection(u: nat, link: JobLock.Link)
      modifies redis`st
      ensures redis.st == if link.Up? then P.RefreshConnection(old(redis.st), u, redis.now) else old(redis.st)
    {
      if !link.Up? { return; }
      redis.Expire(ConnKey(u), P.TTL);
      redis.SetEx(OnlineKey(u), 1, P.TTL);
    }

    method IsOnline(u: nat, link: JobLock.Link) returns (online: bool)
      ensures online <==> link.Up? && P.IsOnline(redis.st, u, redis.now)
    {
      online := link.Up? && redis.Has(OnlineKey(u));
    }

    /** Allowed when Redis cannot be asked. */
    method CheckSocketRateLimit(u: nat, action: nat, maxPerMinute: nat, link: JobLock.Link) returns (allowed: bool)
      modifies redis`st
      ensures (redis.st, allowed) ==
              if link.Up? then RateLimit.CheckStep(old(redis.st), LimitKey(action, u), maxPerMinute, redis.now)
              else (old(redis.st), true)
    {
      if !link.Up? { return true; }
      var count := redis.IncrBy(LimitKey(action, u), 1);
      if count == 1 { redis.Expire(LimitKey(action, u), RateLimit.WINDOW); }
      allowed := count <= maxPerMinute;
    }
  }

  // ---- One node's socket server ----

  /** `rooms` are the sockets connected to this node. `elsewhere` stands for those of other nodes. */
  class SocketServer {
    const node: nat
    const presence: PresenceService
    var rooms: map<nat, P.Socket>

    constructor (node: nat, presence: PresenceService)
      ensures this.node == node && this.presence == presence && rooms == map[]
    {
      this.node, this.presence := node, presence;
      rooms := map[];
    }

    ghost predicate Valid()
      reads this
    {
      forall s :: s in rooms ==> rooms[s].node == node
    }

    ghost predicate Elsewhere(elsewhere: map<nat, P.Socket>)
      reads this
    {
      forall s :: s in elsewhere ==> s !in rooms && elsewhere[s].node != node
    }

    ghost function Whole(elsewhere: map<nat, P.Socket>): P.Cluster
      reads this, presence, presence.redis
    {
      P.Cluster(presence.redis.st, elsewhere + rooms, presence.redis.now)
    }

    predicate IsUserOnlineLocal(u: nat)
      reads this
    {
      exists s :: s in rooms && rooms[s].user == u
    }

    method IsUserOnline(u: nat, link: JobLock.Link) returns (online: bool)
      ensures online <==> IsUserOnlineLocal(u) || (link.Up? && P.IsOnline(presence.redis.st, u, presence.redis.now))
    {
      if IsUserOnlineLocal(u) { return true; }
      online := presence.IsOnline(u, link);
    }

    /** Whether the user's peers are told that the user came online. */
    method HandleConnection(s: nat, u: nat, link: JobLock.Link, ghost elsewhere: map<nat, P.Socket>)
      returns (announce: bool)
      requires Valid() && Elsewhere(elsewhere) && s !in rooms && s !in elsewhere
      modifies `rooms, presence.redis`st
      ensures Valid()
      ensures link.Up? ==>
                (Whole(elsewhere), if announce then P.WentOnline else P.Quiet) ==
                  P.Step(old(Whole(elsewhere)), P.Connect(s, u, node))
      ensures !link.Up? ==> presence.redis.st == old(presence.redis.st) && (announce <==> !old(IsUserOnlineLocal(u)))
    {
      LocalIsOnNode(Whole(elsewhere), rooms, elsewhere, u, node);
      var wasOnline := IsUserOnline(u, link);
      presence.AddConnection(u, link);
      rooms := rooms[s := P.Socket(u, node, presence.redis.now)];
      assert elsewhere + rooms == (elsewhere + old(rooms))[s := P.Socket(u, node, presence.redis.now)];
      announce := !wasOnline;
    }

    /** The interval of 120 seconds has fired for a socket that is still connected. */
    method Heartbeat(s: nat, link: JobLock.Link, ghost elsewhere: map<nat, P.Socket>)
      requires Valid() && Elsewhere(elsewhere) && s in rooms
      modifies `rooms, presence.redis`st
      ensures Valid()
      ensures link.Up? ==> Whole(elsewhere) == P.Step(old(Whole(elsewhere)), P.Beat(s)).0
      ensures !link.Up? ==> presence.redis.st == old(presence.redis.st)
    {
      presence.RefreshConnection(rooms[s].user, link);
      rooms := rooms[s := rooms[s].(beat := presence.redis.now)];
      assert elsewhere + rooms == (elsewhere + old(rooms))[s := rooms[s]];
    }

    /** Whether the user's peers are told that the user went offline. */
    method HandleDisconnect(s: nat, link: JobLock.Link, ghost elsewhere: map<nat, P.Socket>) returns (announce: bool)
      requires Valid() && Elsewhere(elsewhere) && s in rooms
      modifies `rooms, presence.redis`st
      ensures Valid()
      ensures link.Up? ==>
                (Whole(elsewhere), if announce then P.WentOffline else P.Quiet) ==
                  P.Step(old(Whole(elsewhere)), P.Disconnect(s))
      ensures !link.Up? ==> presence.redis.st == old(presence.redis.st)
                            && (announce <==> !IsUserOnlineLocal(old(rooms)[s].user))
    {
      var u := rooms[s].user;
      rooms := rooms - {s};
      var last := presence.RemoveConnection(u, link);
      assert elsewhere + rooms == (elsewhere + old(rooms)) - {s};
      LocalIsOnNode(Whole(elsewhere), rooms, elsewhere, u, node);
      announce := !IsUserOnlineLocal(u) && last;
    }
  }

  /** The sockets of a user on a node are exactly those in its rooms. */
  lemma LocalIsOnNode(c: P.Cluster, rooms: map<nat, P.Socket>, elsewhere: map<nat, P.Socket>, u: nat, node: nat)
    requires c.sockets == elsewhere + rooms
    requires forall s :: s in rooms ==> rooms[s].node == node
    requires forall s :: s in elsewhere ==> s !in rooms && elsewhere[s].node != node
    ensures P.OnlineOnNode(c, u, node) <==> exists s :: s in rooms && rooms[s].user == u
  {
    if s :| s in rooms && rooms[s].user == u {
      assert s in c.sockets && c.sockets[s] == rooms[s];
    }
  }
}
