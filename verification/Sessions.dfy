/**
 * Refresh-token sessions: one stored row per session, rotated on every refresh,
 * with replay detection (backend/src/modules/auth/auth.service.ts).
 *
 * Every service call is one atomic step over a clock that never runs backwards.
 * The random jti and session id are a counter, so that freshness is explicit.
 * `signed` is what the JWT secret has signed: a presented string that verifies
 * is one of those tokens.
 */
module Sessions {
  import opened Base

  datatype Token = Token(jti: nat, sid: nat, sub: nat, expSec: int)

  datatype Row = Row(token: Token, userId: nat, expiresAt: int, revokedAt: Option<int>)

  datatype Server = Server(
    rows: map<nat, Row>,
    users: set<nat>,
    signed: set<Token>,
    nextId: nat,
    now: int,
    ttlMs: nat
  )

  /** Who revokes all the sessions of a user at once. */
  datatype Cause = PasswordReset | Ban | AdminRevoke

  datatype Event =
    | Register(user: nat)
    | Issue(user: nat)
    | Refresh(token: Token)
    | Logout(token: Token)
    | RevokeSession(user: nat, sid: nat)
    | RevokeOthers(user: nat, sid: nat)
    | RevokeAll(user: nat, cause: Cause)
    | DeleteAccount(user: nat)
    | Cleanup
    | Tick(ms: nat)

  datatype Outcome =
    | Done
    | Issued(token: Token)
    | Refreshed(token: Token)
    | Unauthorized
    | Replay
    | NotFound

  // ---------------------------------------------------------------- operations

  predicate JwtValid(s: Server, t: Token) {
    t in s.signed && s.now / 1000 < t.expSec
  }

  function Mint(s: Server, jti: nat, sid: nat, user: nat): Token {
    Token(jti, sid, user, s.now / 1000 + s.ttlMs / 1000)
  }

  /** `updateMany({ where: { ..., revokedAt: null }, data: { revokedAt: now } })` */
  function Revoke(row: Row, now: int): Row {
    if row.revokedAt.None? then row.(revokedAt := Some(now)) else row
  }

  function RevokeUser(rows: map<nat, Row>, user: nat, now: int): map<nat, Row> {
    map sid | sid in rows :: if rows[sid].userId == user then Revoke(rows[sid], now) else rows[sid]
  }

  function RevokeUserExcept(rows: map<nat, Row>, user: nat, keep: nat, now: int): map<nat, Row> {
    map sid | sid in rows ::
      if rows[sid].userId == user && sid != keep then Revoke(rows[sid], now) else rows[sid]
  }

  function RevokeToken(rows: map<nat, Row>, t: Token, now: int): map<nat, Row> {
    map sid | sid in rows :: if rows[sid].token == t then Revoke(rows[sid], now) else rows[sid]
  }

  function DropDead(rows: map<nat, Row>, now: int): map<nat, Row> {
    map sid | sid in rows && !(rows[sid].expiresAt < now || rows[sid].revokedAt.Some?) :: rows[sid]
  }

  function DropUser(rows: map<nat, Row>, user: nat): map<nat, Row> {
    map sid | sid in rows && rows[sid].userId != user :: rows[sid]
  }

  function IssueStep(s: Server, user: nat): (Server, Outcome) {
    if user !in s.users then (s, Unauthorized)
    else
      var sid := s.nextId;
      var t := Mint(s, s.nextId + 1, sid, user);
      (s.(rows := s.rows[sid := Row(t, user, s.now + s.ttlMs, None)],
          signed := s.signed + {t},
          nextId := s.nextId + 2),
       Issued(t))
  }

  function RefreshStep(s: Server, t: Token): (Server, Outcome) {
    if !JwtValid(s, t) then (s, Unauthorized)
    else if t.sid !in s.rows || s.rows[t.sid].expiresAt < s.now then (s, Unauthorized)
    else if s.rows[t.sid].revokedAt.Some? || s.rows[t.sid].token != t then
      (s.(rows := RevokeUser(s.rows, t.sub, s.now)), Replay)
    else if t.sub !in s.users then (s, Unauthorized)
    else
      var t' := Mint(s, s.nextId, t.sid, t.sub);
      (s.(rows := s.rows[t.sid := s.rows[t.sid].(token := t', expiresAt := s.now + s.ttlMs)],
          signed := s.signed + {t'},
          nextId := s.nextId + 1),
       Refreshed(t'))
  }

  function RevokeSessionStep(s: Server, user: nat, sid: nat): (Server, Outcome) {
    if sid !in s.rows || s.rows[sid].userId != user || s.rows[sid].revokedAt.Some? then (s, NotFound)
    else (s.(rows := s.rows[sid := s.rows[sid].(revokedAt := Some(s.now))]), Done)
  }

  function Step(s: Server, e: Event): (Server, Outcome) {
    match e
    case Register(u) => (s.(users := s.users + {u}), Done)
    case Issue(u) => IssueStep(s, u)
    case Refresh(t) => RefreshStep(s, t)
    case Logout(t) => (s.(rows := RevokeToken(s.rows, t, s.now)), Done)
    case RevokeSession(u, sid) => RevokeSessionStep(s, u, sid)
    case RevokeOthers(u, sid) => (s.(rows := RevokeUserExcept(s.rows, u, sid, s.now)), Done)
    case RevokeAll(u, _) => (s.(rows := RevokeUser(s.rows, u, s.now)), Done)
    case DeleteAccount(u) => (s.(users := s.users - {u}, rows := DropUser(s.rows, u)), Done)
    case Cleanup => (s.(rows := DropDead(s.rows, s.now)), Done)
    case Tick(ms) => (s.(now := s.now + ms), Done)
  }

  function Run(s: Server, es: seq<Event>): Server {
    if es == [] then s else Step(Run(s, Front(es)), Last(es)).0
  }

  /** What the i-th call of a run answers. */
  function Answer(s: Server, es: seq<Event>, i: nat): Outcome
    requires i < |es|
  {
    Step(Run(s, es[..i]), es[i]).1
  }

  function Empty(ttlMs: nat, now: int): Server {
    Server(map[], {}, {}, 0, now, ttlMs)
  }

  // ---------------------------------------------------------------- invariant

  ghost predicate Inv(s: Server) {
    && (forall sid :: sid in s.rows ==>
          s.rows[sid].token in s.signed && s.rows[sid].token.sid == sid && s.rows[sid].token.sub == s.rows[sid].userId)
    && (forall t :: t in s.signed ==> t.jti < s.nextId && t.sid < s.nextId)
  }

  lemma StepInv(s: Server, e: Event)
    requires Inv(s)
    ensures Inv(Step(s, e).0)
    ensures s.signed <= Step(s, e).0.signed
  {
  }

  lemma {:induction false} RunInv(s: Server, es: seq<Event>)
    requires Inv(s)
    ensures Inv(Run(s, es))
    ensures s.signed <= Run(s, es).signed
  {
    if es != [] {
      RunInv(s, Front(es));
      StepInv(Run(s, Front(es)), Last(es));
    }
  }

  // ---------------------------------------------------------------- rotation

  /** `t` is the token its session currently stands for, and the session is not revoked. */
  predicate Current(s: Server, t: Token) {
    t.sid in s.rows && s.rows[t.sid].token == t && s.rows[t.sid].revokedAt.None?
  }

  /** `t` was signed once but can no longer be redeemed. */
  predicate Spent(s: Server, t: Token) {
    t in s.signed && !Current(s, t)
  }

  predicate Redeemable(s: Server, t: Token) {
    RefreshStep(s, t).1.Refreshed?
  }

  /**
   * Exactly the calls that retire the current token `t`: its own redemption, the revocations
   * that cover it, the replay of any other token of the same user, and cleanup after it expired.
   */
  predicate Retires(s: Server, e: Event, t: Token) {
    match e
    case Refresh(t') =>
      if t' == t then Redeemable(s, t)
      else t'.sub == t.sub && RefreshStep(s, t').1.Replay?
    case Logout(t') => t' == t
    case RevokeSession(u, sid) => u == t.sub && sid == t.sid
    case RevokeOthers(u, sid) => u == t.sub && sid != t.sid
    case RevokeAll(u, _) => u == t.sub
    case DeleteAccount(u) => u == t.sub
    case Cleanup => t.sid in s.rows && s.rows[t.sid].expiresAt < s.now
    case _ => false
  }

  /** A spent token stays spent, whatever happens: no call ever revives it. */
  lemma SpentForever(s: Server, e: Event, t: Token)
    requires Inv(s) && Spent(s, t)
    ensures Spent(Step(s, e).0, t)
  {
    match e
    case Refresh(t') => if Redeemable(s, t') { assert t.jti < s.nextId; }
    case _ =>
  }

  /** A current token stays current through every call except those listed in `Retires`. */
  lemma RetiredExactly(s: Server, e: Event, t: Token)
    requires Inv(s) && Current(s, t)
    ensures Current(Step(s, e).0, t) <==> !Retires(s, e, t)
    ensures Retires(s, e, t) ==> Spent(Step(s, e).0, t)
  {
    match e
    case Refresh(t') => if Redeemable(s, t') { assert t.jti < s.nextId; }
    case _ =>
  }

  /** A refresh succeeds for the unexpired current token of an existing user, and for no other. */
  lemma RedeemableExactly(s: Server, t: Token)
    requires Inv(s)
    ensures Redeemable(s, t) <==>
            Current(s, t) && s.now <= s.rows[t.sid].expiresAt && s.now / 1000 < t.expSec && t.sub in s.users
  {
  }

  lemma {:induction false} SpentThrough(s: Server, es: seq<Event>, t: Token, i: nat, j: nat)
    requires Inv(s) && i <= j <= |es|
    requires Spent(Run(s, es[..i]), t)
    ensures Spent(Run(s, es[..j]), t)
    decreases j
  {
    if i < j {
      SpentThrough(s, es, t, i, j - 1);
      RunInv(s, es[..j - 1]);
      SpentForever(Run(s, es[..j - 1]), es[j - 1], t);
      TakeFront(es, j - 1);
    }
  }

  /** In every run each refresh token is redeemed at most once. */
  lemma RedeemedAtMostOnce(s: Server, es: seq<Event>, t: Token, i: nat, j: nat)
    requires Inv(s) && i < j < |es|
    requires es[i] == Refresh(t) && Answer(s, es, i).Refreshed?
    requires es[j] == Refresh(t)
    ensures !Answer(s, es, j).Refreshed?
  {
    var si := Run(s, es[..i]);
    RunInv(s, es[..i]);
    RetiredExactly(si, es[i], t);
    TakeFront(es, i);
    SpentThrough(s, es, t, i + 1, j);
  }

  /** Two tokens that could both be redeemed now belong to different sessions. */
  lemma OneRedeemablePerSession(s: Server, es: seq<Event>, t: Token, t': Token)
    requires Inv(s)
    requires Redeemable(Run(s, es), t) && Redeemable(Run(s, es), t') && t.sid == t'.sid
    ensures t == t'
  {
    RunInv(s, es);
  }

  /** After a reset, ban or admin revocation no earlier token of that user is ever redeemed again. */
  lemma NothingSurvivesRevokeAll(s: Server, es: seq<Event>, u: nat, cause: Cause, t: Token, i: nat, j: nat)
    requires Inv(s) && i < j < |es|
    requires es[i] == RevokeAll(u, cause)
    requires t in Run(s, es[..i]).signed && t.sub == u
    requires es[j] == Refresh(t)
    ensures !Answer(s, es, j).Refreshed?
  {
    var si := Run(s, es[..i]);
    RunInv(s, es[..i]);
    TakeFront(es, i);
    assert Spent(Step(si, es[i]).0, t);
    SpentThrough(s, es, t, i + 1, j);
  }

  /**
   * Reuse detection: presenting an already redeemed token while its session row is still stored,
   * unexpired and the JWT still valid leaves the user without a single usable session.
   */
  lemma ReuseRevokesFamily(s: Server, es: seq<Event>, t: Token, i: nat, j: nat, other: Token)
    requires Inv(s) && i < j < |es|
    requires es[i] == Refresh(t) && Answer(s, es, i).Refreshed?
    requires es[j] == Refresh(t) && JwtValid(Run(s, es[..j]), t)
    requires t.sid in Run(s, es[..j]).rows && Run(s, es[..j]).now <= Run(s, es[..j]).rows[t.sid].expiresAt
    requires other.sub == t.sub
    ensures Answer(s, es, j) == Replay
    ensures !Redeemable(Run(s, es[..j + 1]), other)
  {
    var sj := Run(s, es[..j]);
    RunInv(s, es[..i]);
    RetiredExactly(Run(s, es[..i]), es[i], t);
    TakeFront(es, i);
    SpentThrough(s, es, t, i + 1, j);
    RunInv(s, es[..j]);
    TakeFront(es, j);
    StepInv(sj, es[j]);
  }

  /** No call between i and j retires the token. */
  ghost predicate Undisturbed(s: Server, es: seq<Event>, t: Token, i: nat, j: nat)
    requires i <= j <= |es|
    decreases j
  {
    i < j ==> Undisturbed(s, es, t, i, j - 1) && !Retires(Run(s, es[..j - 1]), es[j - 1], t)
  }

  /** The converse of safety: a token handed out stays current for as long as nothing retires it. */
  lemma {:induction false} CurrentUntilRetired(s: Server, es: seq<Event>, t: Token, i: nat, j: nat)
    requires Inv(s) && i <= j <= |es|
    requires Current(Run(s, es[..i]), t)
    ensures Current(Run(s, es[..j]), t) <==> Undisturbed(s, es, t, i, j)
    decreases j
  {
    if i < j {
      CurrentUntilRetired(s, es, t, i, j - 1);
      CurrentNext(s, es, t, i, j - 1);
    }
  }

  lemma CurrentNext(s: Server, es: seq<Event>, t: Token, i: nat, j: nat)
    requires Inv(s) && i <= j < |es| && Current(Run(s, es[..i]), t)
    ensures Current(Run(s, es[..j + 1]), t) <==> Current(Run(s, es[..j]), t) && !Retires(Run(s, es[..j]), es[j], t)
  {
    RunInv(s, es[..i]);
    RunInv(s, es[..j]);
    RunMonotone(s, es, i, j);
    TakeFront(es, j);
    CurrentStep(Run(s, es[..j]), es[j], t);
  }

  /** A signed token is current after a call exactly if it was before and the call does not retire it. */
  lemma CurrentStep(s: Server, e: Event, t: Token)
    requires Inv(s) && t in s.signed
    ensures Current(Step(s, e).0, t) <==> Current(s, t) && !Retires(s, e, t)
  {
    if Current(s, t) { RetiredExactly(s, e, t); } else { SpentForever(s, e, t); }
  }

  lemma {:induction false} RunMonotone(s: Server, es: seq<Event>, i: nat, j: nat)
    requires Inv(s) && i <= j <= |es|
    ensures Run(s, es[..i]).signed <= Run(s, es[..j]).signed
    decreases j
  {
    if i < j {
      RunMonotone(s, es, i, j - 1);
      RunInv(s, es[..j - 1]);
      StepInv(Run(s, es[..j - 1]), es[j - 1]);
      TakeFront(es, j - 1);
    }
  }

  // ---------------------------------------------------------------- what a token handed out is good for

  predicate HandsOut(o: Outcome, t: Token) {
    o == Issued(t) || o == Refreshed(t)
  }

  /** The call ends the life of `t`: it is redeemed, revoked, or covered by a replay of the same user. */
  predicate Ends(s: Server, e: Event, t: Token) {
    match e
    case Refresh(t') => (t' == t && Step(s, e).1.Refreshed?) || (t'.sub == t.sub && Step(s, e).1.Replay?)
    case Logout(t') => t' == t
    case RevokeSession(u, sid) => u == t.sub && sid == t.sid
    case RevokeOthers(u, sid) => u == t.sub && sid != t.sid
    case RevokeAll(u, _) => u == t.sub
    case DeleteAccount(u) => u == t.sub
    case _ => false
  }

  /** By the clock alone, in whole seconds, a token handed out at `from` has not expired at `now`. */
  predicate InTime(from: int, now: int, ttlMs: nat) {
    now / 1000 < from / 1000 + ttlMs / 1000
  }

  lemma InTimeMs(from: int, now: int, ttlMs: nat)
    requires InTime(from, now, ttlMs)
    ensures now < from + ttlMs
  {
  }

  /** The session of `t` is open as it was when call `i` handed `t` out. */
  predicate OpenSince(s: Server, t: Token, from: int) {
    && Current(s, t)
    && s.rows[t.sid].expiresAt == from + s.ttlMs
    && t.expSec == from / 1000 + s.ttlMs / 1000
  }

  /** A token handed out is new, belongs to the user and session it was asked for, and opens its session anew. */
  lemma HandedOut(s: Server, e: Event, t: Token)
    requires Inv(s) && HandsOut(Step(s, e).1, t)
    ensures t !in s.signed && OpenSince(Step(s, e).0, t, s.now)
    ensures match e
            case Issue(u) => t.sub == u && t.sid !in s.rows
            case Refresh(t') => t.sub == t'.sub && t.sid == t'.sid
            case _ => false
  {
  }

  lemma OpenStep(s: Server, e: Event, t: Token, from: int)
    requires Inv(s) && OpenSince(s, t, from)
    ensures Current(Step(s, e).0, t) ==> OpenSince(Step(s, e).0, t, from)
  {
    match e
    case Refresh(t') => if Redeemable(s, t') { assert t.jti < s.nextId; }
    case _ =>
  }

  lemma {:induction false} RunClock(s: Server, es: seq<Event>)
    ensures Run(s, es).ttlMs == s.ttlMs && s.now <= Run(s, es).now
  {
    if es != [] { RunClock(s, Front(es)); }
  }

  /** In time, a call ends a current token if and only if it retires it. */
  lemma EndsExactly(s: Server, e: Event, t: Token, from: int)
    requires OpenSince(s, t, from) && InTime(from, s.now, s.ttlMs)
    ensures Retires(s, e, t) <==> Ends(s, e, t)
  {
    InTimeMs(from, s.now, s.ttlMs);
  }

  /** No call between `i` and `j` ends the life of `t`. */
  ghost predicate NotEnded(s: Server, es: seq<Event>, t: Token, i: nat, j: nat)
    requires i < j <= |es|
    decreases j
  {
    i + 1 < j ==> NotEnded(s, es, t, i, j - 1) && !Ends(Run(s, es[..j - 1]), es[j - 1], t)
  }

  lemma InTimeBefore(s: Server, e: Event, from: int)
    requires InTime(from, Step(s, e).0.now, s.ttlMs)
    ensures InTime(from, s.now, s.ttlMs)
  {
    assert s.now <= Step(s, e).0.now;
  }

  lemma OpenNext(s: Server, e: Event, t: Token, from: int)
    requires Inv(s) && t in s.signed && InTime(from, Step(s, e).0.now, s.ttlMs)
    requires Current(s, t) ==> OpenSince(s, t, from)
    ensures t in Step(s, e).0.signed
    ensures Current(Step(s, e).0, t) <==> Current(s, t) && !Ends(s, e, t)
    ensures Current(Step(s, e).0, t) ==> OpenSince(Step(s, e).0, t, from)
  {
    InTimeBefore(s, e, from);
    CurrentStep(s, e, t);
    StepInv(s, e);
    if Current(s, t) {
      EndsExactly(s, e, t, from);
      OpenStep(s, e, t, from);
    }
  }

  lemma {:induction false} OpenWhileInTime(s: Server, es: seq<Event>, t: Token, i: nat, j: nat)
    requires Inv(s) && i < j <= |es| && HandsOut(Answer(s, es, i), t)
    requires InTime(Run(s, es[..i]).now, Run(s, es[..j]).now, s.ttlMs)
    ensures t in Run(s, es[..j]).signed
    ensures Current(Run(s, es[..j]), t) <==> NotEnded(s, es, t, i, j)
    ensures Current(Run(s, es[..j]), t) ==> OpenSince(Run(s, es[..j]), t, Run(s, es[..i]).now)
    decreases j
  {
    if j == i + 1 {
      RunInv(s, es[..i]);
      TakeFront(es, i);
      HandedOut(Run(s, es[..i]), es[i], t);
    } else {
      TakeFront(es, j - 1);
      RunInv(s, es[..j - 1]);
      RunClock(s, es[..j - 1]);
      InTimeBefore(Run(s, es[..j - 1]), es[j - 1], Run(s, es[..i]).now);
      OpenWhileInTime(s, es, t, i, j - 1);
      OpenNext(Run(s, es[..j - 1]), es[j - 1], t, Run(s, es[..i]).now);
    }
  }

  /**
   * A token handed out by call `i` is good for exactly one refresh within its time to live: a refresh
   * with it succeeds if and only if nothing has ended it meanwhile, its user still exists, and the time
   * is not over. Once the time is over it is refused.
   */
  lemma UsableExactly(s: Server, es: seq<Event>, t: Token, i: nat, j: nat)
    requires Inv(s) && i < j < |es| && HandsOut(Answer(s, es, i), t)
    requires es[j] == Refresh(t)
    ensures var in_ := InTime(Run(s, es[..i]).now, Run(s, es[..j]).now, s.ttlMs);
            && (Answer(s, es, j).Refreshed? <==> in_ && t.sub in Run(s, es[..j]).users && NotEnded(s, es, t, i, j))
            && (!in_ ==> Answer(s, es, j) == Unauthorized)
  {
    RunInv(s, es[..i]);
    HandedOut(Run(s, es[..i]), es[i], t);
    RunClock(s, es[..i]);
    RunClock(s, es[..j]);
    RunInv(s, es[..j]);
    if InTime(Run(s, es[..i]).now, Run(s, es[..j]).now, s.ttlMs) {
      InTimeMs(Run(s, es[..i]).now, Run(s, es[..j]).now, s.ttlMs);
      OpenWhileInTime(s, es, t, i, j);
      TakeFront(es, i);
      RunMonotone(s, es, i + 1, j);
      RedeemableExactly(Run(s, es[..j]), t);
    }
  }

  /** A cleanup leaves exactly the sessions that are neither revoked nor expired, as they were. */
  lemma CleanupExactly(s: Server, sid: nat)
    ensures var rows := Step(s, Cleanup).0.rows;
            && (sid in rows <==> sid in s.rows && s.rows[sid].revokedAt.None? && s.now <= s.rows[sid].expiresAt)
            && (sid in rows ==> rows[sid] == s.rows[sid])
  {
  }
}
