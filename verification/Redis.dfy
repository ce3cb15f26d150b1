/** The part of Redis the backend relies on: keys with a value and a time to live. */
module Redis {
  import opened Base

  datatype Key =
    | JobKey(job: nat)                    // uzchat:joblock:<job>
    | ConnKey(user: nat)                  // uzchat:conn:<user>
    | OnlineKey(user: nat)                // uzchat:online:<user>
    | LimitKey(action: nat, user: nat)    // uzchat:srl:<action>:<user>

  datatype Entry = Entry(value: int, expires: Option<int>)

  type Store = map<Key, Entry>

  predicate Live(st: Store, k: Key, now: int) {
    k in st && (st[k].expires.None? || now < st[k].expires.value)
  }

  /** A missing or expired counter reads as 0. */
  function Count(st: Store, k: Key, now: int): int {
    if Live(st, k, now) then st[k].value else 0
  }

  /** SET key value EX ttl */
  function SetEx(st: Store, k: Key, value: int, ttl: nat, now: int): Store {
    st[k := Entry(value, Some(now + ttl))]
  }

  /** SET key value NX PX ttl: does nothing when the key is live. */
  function SetNx(st: Store, k: Key, value: int, ttl: nat, now: int): (Store, bool) {
    if Live(st, k, now) then (st, false) else (SetEx(st, k, value, ttl, now), true)
  }

  /** INCRBY: keeps the time to live of a live key, starts a missing key at 0 without one. */
  function IncrBy(st: Store, k: Key, delta: int, now: int): (Store, int) {
    if Live(st, k, now) then (st[k := st[k].(value := st[k].value + delta)], st[k].value + delta)
    else (st[k := Entry(delta, None)], delta)
  }

  /** EXPIRE: restarts the time to live of a live key. */
  function Expire(st: Store, k: Key, ttl: nat, now: int): Store {
    if Live(st, k, now) then st[k := st[k].(expires := Some(now + ttl))] else st
  }

  function Del(st: Store, ks: set<Key>): Store {
    st - ks
  }
}
