/**
 * The mobile clients' single-flight token refresh (mobile/src/api/client.ts) running
 * against the refresh service, over a network that may lose or delay requests and replies.
 *
 * Any number of clients run at once; any revocation, cleanup or clock tick may happen in
 * between. A client does not crash while a refresh is in flight. JavaScript runs all
 * continuations of one settled promise before it starts anything new, which is the
 * scheduling condition `Prompt`; `DoublePresentation` shows what happens without it.
 */
module RefreshClient {
  import opened Base
  import opened S = Sessions

  /**
   * `stored` is the refresh token in secure storage, `promise` the module variable
   * `refreshPromise`, `flights` the running `refreshAccessToken` calls with the token each
   * one read, `awaiters` the callers suspended on a promise.
   */
  datatype Client = Client(
    stored: Option<Token>,
    promise: Option<nat>,
    flights: map<nat, Token>,
    awaiters: map<nat, nat>
  )

  /** `requests` travel to the server, `replies` back; `presented` is every token ever sent. */
  datatype System = System(
    server: Server,
    clients: map<nat, Client>,
    requests: map<nat, Token>,
    replies: map<nat, Option<Token>>,
    presented: set<Token>,
    nextFlight: nat
  )

  datatype Action =
    | Login(client: nat, user: nat)
    | Want(client: nat, awaiter: nat)       // a 401 reply, or an expired access token
    | Process(flight: nat)                  // the server handles a request
    | LoseRequest(flight: nat)
    | LoseReply(flight: nat)
    | Land(client: nat, flight: nat)        // a reply reaches refreshAccessToken
    | GiveUp(client: nat, flight: nat)      // network error or timeout
    | Resume(client: nat, awaiter: nat)     // `await refreshPromise` continues
    | ClearTokens(client: nat)              // banned or forced logout
    | Service(event: Event)                 // any other call the service receives

  const NEW_CLIENT := Client(None, None, map[], map[])

  // ---------------------------------------------------------------- client side

  /** `refreshPromise ??= refreshAccessToken()` followed by the caller suspending on it. */
  function WantStep(c: Client, awaiter: nat, flight: nat): Client {
    if c.promise.Some? then c.(awaiters := c.awaiters[awaiter := c.promise.value])
    else
      var c' := c.(promise := Some(flight), awaiters := c.awaiters[awaiter := flight]);
      if c.stored.Some? then c'.(flights := c.flights[flight := c.stored.value]) else c'
  }

  predicate Presents(c: Client) {
    c.promise.None? && c.stored.Some?
  }

  /** The refresh ends: a reply with tokens stores them, anything else clears the storage. */
  function SettleStep(c: Client, flight: nat, tokens: Option<Token>): Client {
    c.(stored := tokens, flights := c.flights - {flight})
  }

  /** A caller continues after `await refreshPromise` and sets the module variable to null. */
  function ResumeStep(c: Client, awaiter: nat): Client {
    if awaiter in c.awaiters && c.awaiters[awaiter] !in c.flights then
      c.(promise := None, awaiters := c.awaiters - {awaiter})
    else c
  }

  /** A new refresh starts only once every caller of the previous one has continued. */
  predicate Prompt(c: Client) {
    c.promise.None? ==> c.awaiters == map[]
  }

  // ---------------------------------------------------------------- the composed system

  function ClientOf(y: System, c: nat): Client {
    if c in y.clients then y.clients[c] else NEW_CLIENT
  }

  function ReplyOf(o: Outcome): Option<Token> {
    if o.Refreshed? then Some(o.token) else None
  }

  function WantAction(y: System, i: nat, awaiter: nat): System {
    var c := ClientOf(y, i);
    var y' := y.(clients := y.clients[i := WantStep(c, awaiter, y.nextFlight)], nextFlight := y.nextFlight + 1);
    if Presents(c) then
      y'.(requests := y.requests[y.nextFlight := c.stored.value], presented := y.presented + {c.stored.value})
    else y'
  }

  function ProcessAction(y: System, f: nat): System {
    if f !in y.requests then y
    else
      var r := Step(y.server, Refresh(y.requests[f]));
      y.(server := r.0, requests := y.requests - {f}, replies := y.replies[f := ReplyOf(r.1)])
  }

  function LoginAction(y: System, i: nat, user: nat): System {
    var r := Step(y.server, Issue(user));
    if r.1.Issued? then
      y.(server := r.0, clients := y.clients[i := ClientOf(y, i).(stored := Some(r.1.token))])
    else y
  }

  function Act(y: System, a: Action): System {
    match a
    case Login(i, u) => LoginAction(y, i, u)
    case Want(i, w) => WantAction(y, i, w)
    case Process(f) => ProcessAction(y, f)
    case LoseRequest(f) => y.(requests := y.requests - {f})
    case LoseReply(f) => y.(replies := y.replies - {f})
    case Land(i, f) =>
      if f in y.replies && f in ClientOf(y, i).flights then
        y.(clients := y.clients[i := SettleStep(ClientOf(y, i), f, y.replies[f])], replies := y.replies - {f})
      else y
    case GiveUp(i, f) =>
      if f in ClientOf(y, i).flights then
        y.(clients := y.clients[i := SettleStep(ClientOf(y, i), f, None)])
      else y
    case Resume(i, w) => y.(clients := y.clients[i := ResumeStep(ClientOf(y, i), w)])
    case ClearTokens(i) => y.(clients := y.clients[i := ClientOf(y, i).(stored := None)])
    case Service(e) => y.(server := Step(y.server, e).0)
  }

  /** Sessions are created for clients by `Login` and redeemed by `Process`. */
  predicate Allowed(y: System, a: Action) {
    match a
    case Want(i, w) => Prompt(ClientOf(y, i)) && w !in ClientOf(y, i).awaiters
    case Service(e) => !e.Refresh? && !e.Issue?
    case _ => true
  }

  function Exec(y: System, acts: seq<Action>): System {
    if acts == [] then y else Act(Exec(y, Front(acts)), Last(acts))
  }

  /** Every action of the run was possible when it happened. */
  ghost predicate Possible(y: System, acts: seq<Action>) {
    forall i :: 0 <= i < |acts| ==> Allowed(Exec(y, acts[..i]), acts[i])
  }

  function Start(ttlMs: nat, now: int): System {
    System(S.Empty(ttlMs, now), map[], map[], map[], {}, 0)
  }

  /** The token that action `a` sends to the server, if any. */
  function Sends(y: System, a: Action): Option<Token> {
    if a.Want? && Presents(ClientOf(y, a.client)) then ClientOf(y, a.client).stored else None
  }

  predicate IsReplay(y: System, a: Action) {
    a.Process? && a.flight in y.requests && Step(y.server, Refresh(y.requests[a.flight])).1.Replay?
  }

  /** The calls that revoke the session of the current token `t`. */
  predicate Covers(e: Event, t: Token) {
    match e
    case Logout(t') => t' == t
    case RevokeSession(u, sid) => u == t.sub && sid == t.sid
    case RevokeOthers(u, sid) => u == t.sub && sid != t.sid
    case RevokeAll(u, _) => u == t.sub
    case _ => false
  }

  /** The logouts and revocations, resets and bans of one user. */
  predicate RevokesFor(e: Event, u: nat) {
    match e
    case Logout(t) => t.sub == u
    case RevokeSession(v, _) => v == u
    case RevokeOthers(v, _) => v == u
    case RevokeAll(v, _) => v == u
    case _ => false
  }

  /** The actions that can end the session of `t` from outside: a revocation, or a replay by the same user. */
  predicate Ends(y: System, a: Action, t: Token) {
    match a
    case Service(e) => Covers(e, t)
    case Process(f) => IsReplay(y, a) && y.requests[f].sub == t.sub
    case _ => false
  }

  // ---------------------------------------------------------------- invariant

  /** A client runs at most one refresh, its promise variable points at it, and its caller still waits. */
  ghost predicate ClientOk(c: Client, next: nat) {
    && (c.promise.Some? ==> c.promise.value < next)
    && (forall f :: f in c.flights ==> f < next && c.promise == Some(f) && Awaited(c, f))
    && (forall f, w :: f in c.flights && w in c.awaiters ==> c.awaiters[w] == f)
  }

  ghost predicate Awaited(c: Client, f: nat) {
    exists w :: w in c.awaiters && c.awaiters[w] == f
  }

  ghost predicate SingleFlight(y: System) {
    forall i :: i in y.clients ==> ClientOk(y.clients[i], y.nextFlight)
  }

  /** A stored token has been presented only by the refresh that is in flight for it. */
  ghost predicate StoredFresh(y: System) {
    forall i :: i in y.clients && y.clients[i].stored.Some? ==>
      var t := y.clients[i].stored.value;
      && t in y.server.signed
      && (t in y.presented ==> exists f :: f in y.clients[i].flights && y.clients[i].flights[f] == t)
  }

  ghost predicate StoredOnce(y: System) {
    forall i, j :: i in y.clients && j in y.clients && y.clients[i].stored.Some? && i != j ==>
      y.clients[i].stored != y.clients[j].stored
  }

  ghost predicate RepliesFresh(y: System) {
    && (forall f :: f in y.replies && y.replies[f].Some? ==>
          y.replies[f].value in y.server.signed && y.replies[f].value !in y.presented)
    && (forall f, g :: f in y.replies && g in y.replies && y.replies[f].Some? && f != g ==>
          y.replies[f] != y.replies[g])
    && (forall f, i :: f in y.replies && y.replies[f].Some? && i in y.clients ==> y.clients[i].stored != y.replies[f])
  }

  ghost predicate RequestsOnce(y: System) {
    && (forall f :: f in y.requests ==> f < y.nextFlight && y.requests[f] in y.presented)
    && (forall f, g :: f in y.requests && g in y.requests && f != g ==> y.requests[f] != y.requests[g])
  }

  /** A token the server has not processed yet is still the one its session stands for. */
  ghost predicate UnprocessedCurrent(y: System) {
    forall t :: t in y.server.signed && t.sid in y.server.rows
                && (t !in y.presented || exists f :: f in y.requests && y.requests[f] == t)
      ==> y.server.rows[t.sid].token == t
  }

  ghost predicate SysInv(y: System) {
    && S.Inv(y.server)
    && y.presented <= y.server.signed
    && SingleFlight(y)
    && StoredFresh(y)
    && StoredOnce(y)
    && RepliesFresh(y)
    && RequestsOnce(y)
    && UnprocessedCurrent(y)
  }

  /** A login signs one new token, for a session of its own. */
  lemma LoginEffect(s: Server, u: nat)
    requires S.Inv(s)
    ensures var r := Step(s, Issue(u));
            && S.Inv(r.0)
            && (r.1.Issued? ==>
                  && r.1.token !in s.signed && r.0.signed == s.signed + {r.1.token}
                  && r.1.token.sid !in s.rows && r.0.rows.Keys == s.rows.Keys + {r.1.token.sid}
                  && r.0.rows[r.1.token.sid].token == r.1.token
                  && forall sid :: sid in s.rows ==> r.0.rows[sid] == s.rows[sid])
  {
    S.StepInv(s, Issue(u));
  }

  lemma LoginFlights(y: System, i: nat, u: nat)
    requires SysInv(y)
    ensures SingleFlight(LoginAction(y, i, u))
  {
    var y' := LoginAction(y, i, u);
    forall j | j in y'.clients
      ensures ClientOk(y'.clients[j], y'.nextFlight)
    {
      if j in y.clients {
        var c, c' := y.clients[j], y'.clients[j];
        assert c'.promise == c.promise && c'.flights == c.flights && c'.awaiters == c.awaiters;
        assert forall f :: Awaited(c, f) <==> Awaited(c', f);
      }
    }
  }

  lemma LoginFresh(y: System, i: nat, u: nat)
    requires SysInv(y)
    ensures StoredFresh(LoginAction(y, i, u))
  {
    LoginEffect(y.server, u);
  }

  lemma LoginOnce(y: System, i: nat, u: nat)
    requires SysInv(y)
    ensures StoredOnce(LoginAction(y, i, u))
  {
    LoginEffect(y.server, u);
  }

  lemma LoginUnprocessed(y: System, i: nat, u: nat)
    requires SysInv(y)
    ensures UnprocessedCurrent(LoginAction(y, i, u))
  {
    LoginEffect(y.server, u);
    var y' := LoginAction(y, i, u);
    forall t | t in y'.server.signed && t.sid in y'.server.rows
               && (t !in y'.presented || exists f :: f in y'.requests && y'.requests[f] == t)
      ensures y'.server.rows[t.sid].token == t
    {
      if t in y.server.signed {
        assert t !in y.presented || exists f :: f in y.requests && y.requests[f] == t;
      }
    }
  }

  lemma LoginMessages(y: System, i: nat, u: nat)
    requires SysInv(y)
    ensures RepliesFresh(LoginAction(y, i, u)) && RequestsOnce(LoginAction(y, i, u))
  {
    LoginEffect(y.server, u);
  }

  lemma LoginInv(y: System, i: nat, u: nat)
    requires SysInv(y)
    ensures SysInv(LoginAction(y, i, u))
  {
    LoginEffect(y.server, u);
    LoginFlights(y, i, u);
    LoginFresh(y, i, u);
    LoginOnce(y, i, u);
    LoginUnprocessed(y, i, u);
    LoginMessages(y, i, u);
  }

  lemma ClientOkLater(c: Client, next: nat)
    requires ClientOk(c, next)
    ensures ClientOk(c, next + 1)
  {
  }

  lemma WantOk(c: Client, w: nat, next: nat)
    requires ClientOk(c, next) && Prompt(c) && w !in c.awaiters
    ensures ClientOk(WantStep(c, w, next), next + 1)
    ensures c.promise.None? ==> c.flights == map[]
  {
    var c' := WantStep(c, w, next);
    assert w in c'.awaiters;
    forall f | f in c'.flights
      ensures Awaited(c', f)
    {
      if f in c.flights {
        var v :| v in c.awaiters && c.awaiters[v] == f;
        assert v in c'.awaiters && c'.awaiters[v] == f;
      }
    }
  }

  lemma ResumeOk(c: Client, w: nat, next: nat)
    requires ClientOk(c, next)
    ensures ClientOk(ResumeStep(c, w), next)
  {
    var c' := ResumeStep(c, w);
    forall f | f in c'.flights
      ensures c'.promise == Some(f) && Awaited(c', f)
    {
      var v :| v in c.awaiters && c.awaiters[v] == f;
      assert v in c'.awaiters && c'.awaiters[v] == f;
    }
  }

  lemma WantPresented(y: System, i: nat, w: nat)
    requires SysInv(y) && Allowed(y, Want(i, w))
    ensures Presents(ClientOf(y, i)) ==> ClientOf(y, i).stored.value !in y.presented
  {
    if i in y.clients {
      WantOk(y.clients[i], w, y.nextFlight);
    }
  }

  lemma WantFlights(y: System, i: nat, w: nat)
    requires SysInv(y) && Allowed(y, Want(i, w))
    ensures SingleFlight(WantAction(y, i, w))
  {
    var y' := WantAction(y, i, w);
    WantOk(ClientOf(y, i), w, y.nextFlight);
    forall j | j in y'.clients
      ensures ClientOk(y'.clients[j], y'.nextFlight)
    {
      if j != i { ClientOkLater(y.clients[j], y.nextFlight); }
    }
  }

  lemma WantKeepsStored(y: System, i: nat, w: nat)
    ensures var y' := WantAction(y, i, w);
            forall j :: j in y'.clients && y'.clients[j].stored.Some? ==>
              j in y.clients && y.clients[j].stored == y'.clients[j].stored
  {
    assert WantStep(ClientOf(y, i), w, y.nextFlight).stored == ClientOf(y, i).stored;
  }

  lemma WantOnce(y: System, i: nat, w: nat)
    requires StoredOnce(y)
    ensures StoredOnce(WantAction(y, i, w))
  {
    WantKeepsStored(y, i, w);
  }

  lemma WantFresh(y: System, i: nat, w: nat)
    requires SysInv(y) && Allowed(y, Want(i, w))
    ensures StoredFresh(WantAction(y, i, w))
  {
    var y' := WantAction(y, i, w);
    WantPresented(y, i, w);
    WantKeepsStored(y, i, w);
    forall j | j in y'.clients && y'.clients[j].stored.Some? && y'.clients[j].stored.value in y'.presented
      ensures exists f :: f in y'.clients[j].flights && y'.clients[j].flights[f] == y'.clients[j].stored.value
    {
      var t := y'.clients[j].stored.value;
      if t in y.presented {
        var f :| f in y.clients[j].flights && y.clients[j].flights[f] == t;
        if j == i { WantOk(y.clients[i], w, y.nextFlight); }
        assert f in y'.clients[j].flights && y'.clients[j].flights[f] == t;
      } else {
        assert j == i && y.nextFlight in y'.clients[i].flights && y'.clients[i].flights[y.nextFlight] == t;
      }
    }
  }

  lemma WantMessages(y: System, i: nat, w: nat)
    requires SysInv(y) && Allowed(y, Want(i, w))
    ensures RepliesFresh(WantAction(y, i, w))
    ensures RequestsOnce(WantAction(y, i, w))
  {
    WantPresented(y, i, w);
  }

  lemma WantUnprocessed(y: System, i: nat, w: nat)
    requires SysInv(y) && Allowed(y, Want(i, w))
    ensures UnprocessedCurrent(WantAction(y, i, w))
  {
    var y' := WantAction(y, i, w);
    WantPresented(y, i, w);
    forall t | t in y'.server.signed && t.sid in y'.server.rows
               && (t !in y'.presented || exists f :: f in y'.requests && y'.requests[f] == t)
      ensures y'.server.rows[t.sid].token == t
    {
      if t !in y.presented {
      } else {
        var f :| f in y'.requests && y'.requests[f] == t;
        assert f in y.requests && y.requests[f] == t;
      }
    }
  }

  lemma WantInv(y: System, i: nat, w: nat)
    requires SysInv(y) && Allowed(y, Want(i, w))
    ensures SysInv(WantAction(y, i, w))
    ensures Presents(ClientOf(y, i)) ==> ClientOf(y, i).stored.value !in y.presented
  {
    WantPresented(y, i, w);
    WantFlights(y, i, w);
    WantOnce(y, i, w);
    WantFresh(y, i, w);
    WantMessages(y, i, w);
    WantUnprocessed(y, i, w);
  }

  /** A refresh touches the row of its own session only, and only with a token never signed before. */
  lemma RefreshEffect(s: Server, t: Token)
    requires S.Inv(s)
    ensures var r := Step(s, Refresh(t));
            && r.0.rows.Keys == s.rows.Keys
            && (r.1.Refreshed? ==>
                  && s.rows.Keys >= {t.sid} && r.1.token !in s.signed && r.0.signed == s.signed + {r.1.token}
                  && r.1.token.sid == t.sid
                  && forall sid :: sid in s.rows ==>
                       r.0.rows[sid].token == if sid == t.sid then r.1.token else s.rows[sid].token)
            && (!r.1.Refreshed? ==>
                  r.0.signed == s.signed && forall sid :: sid in s.rows ==> r.0.rows[sid].token == s.rows[sid].token)
  {
  }

  /** Calls that neither open nor refresh a session leave every stored token string as it is. */
  lemma ServiceEffect(s: Server, e: Event)
    requires !e.Refresh? && !e.Issue?
    ensures Step(s, e).0.signed == s.signed
    ensures Step(s, e).0.rows.Keys <= s.rows.Keys
    ensures forall sid :: sid in Step(s, e).0.rows ==> Step(s, e).0.rows[sid].token == s.rows[sid].token
  {
  }

  lemma ProcessUnprocessed(y: System, f: nat)
    requires SysInv(y) && f in y.requests
    ensures UnprocessedCurrent(ProcessAction(y, f))
  {
    var u := y.requests[f];
    RefreshEffect(y.server, u);
    var y' := ProcessAction(y, f);
    forall t | t in y'.server.signed && t.sid in y'.server.rows
               && (t !in y'.presented || exists g :: g in y'.requests && y'.requests[g] == t)
      ensures y'.server.rows[t.sid].token == t
    {
      if t in y.server.signed {
        assert t != u;
        assert t !in y.presented || exists g :: g in y.requests && y.requests[g] == t;
        assert y.server.rows[t.sid].token == t;
      }
    }
  }

  lemma ProcessClients(y: System, f: nat)
    requires SysInv(y) && f in y.requests
    ensures SingleFlight(ProcessAction(y, f)) && StoredFresh(ProcessAction(y, f)) && StoredOnce(ProcessAction(y, f))
  {
    RefreshEffect(y.server, y.requests[f]);
    S.StepInv(y.server, Refresh(y.requests[f]));
  }

  lemma ProcessMessages(y: System, f: nat)
    requires SysInv(y) && f in y.requests
    ensures RepliesFresh(ProcessAction(y, f)) && RequestsOnce(ProcessAction(y, f))
  {
    RefreshEffect(y.server, y.requests[f]);
    S.StepInv(y.server, Refresh(y.requests[f]));
  }

  lemma ProcessInv(y: System, f: nat)
    requires SysInv(y)
    ensures SysInv(ProcessAction(y, f))
  {
    if f in y.requests {
      S.StepInv(y.server, Refresh(y.requests[f]));
      ProcessUnprocessed(y, f);
      ProcessClients(y, f);
      ProcessMessages(y, f);
    }
  }

  lemma ServiceInv(y: System, e: Event)
    requires SysInv(y) && Allowed(y, Service(e))
    ensures SysInv(Act(y, Service(e)))
  {
    ServiceEffect(y.server, e);
    S.StepInv(y.server, e);
    var y' := Act(y, Service(e));
    assert SingleFlight(y');
    assert StoredFresh(y');
    assert RepliesFresh(y');
    assert UnprocessedCurrent(y');
  }

  /** Steps that leave the server and the record alone and add no request. */
  lemma UnprocessedFrame(y: System, y': System)
    requires UnprocessedCurrent(y) && y'.server == y.server && y'.presented == y.presented
    requires forall f :: f in y'.requests ==> f in y.requests && y'.requests[f] == y.requests[f]
    ensures UnprocessedCurrent(y')
  {
    forall t | t in y'.server.signed && t.sid in y'.server.rows
               && (t !in y'.presented || exists f :: f in y'.requests && y'.requests[f] == t)
      ensures y'.server.rows[t.sid].token == t
    {
      if t in y'.presented {
        var f :| f in y'.requests && y'.requests[f] == t;
        assert f in y.requests && y.requests[f] == t;
      }
    }
  }

  // Landing, giving up, continuing and clearing change one client; messages can only get fewer.

  /** Only client `i` changes, and it keeps or loses its token, or stores one that came with a reply. */
  ghost predicate OneClient(y: System, y': System, i: nat) {
    && y'.server == y.server && y'.presented == y.presented && y'.requests == y.requests
    && y'.nextFlight == y.nextFlight
    && (forall j :: j in y'.clients && j != i ==> j in y.clients && y'.clients[j] == y.clients[j])
    && (forall f :: f in y'.replies ==> f in y.replies && y'.replies[f] == y.replies[f])
  }

  lemma OneClientFlights(y: System, y': System, i: nat)
    requires SingleFlight(y) && OneClient(y, y', i) && (i in y'.clients ==> ClientOk(y'.clients[i], y.nextFlight))
    ensures SingleFlight(y')
  {
  }

  /** The client's token, if it has one afterwards, is the one it had with its refreshes, or is new to everyone. */
  ghost predicate TokenOk(y: System, y': System, i: nat) {
    i in y'.clients && y'.clients[i].stored.Some? ==>
      var t := y'.clients[i].stored.value;
      || (i in y.clients && y.clients[i].stored == Some(t) && y'.clients[i].flights == y.clients[i].flights)
      || (exists f :: f in y.replies && y.replies[f] == Some(t) && f !in y'.replies)
  }

  lemma OneClientStored(y: System, y': System, i: nat)
    requires SysInv(y) && OneClient(y, y', i) && TokenOk(y, y', i)
    ensures StoredFresh(y')
    ensures StoredOnce(y')
  {
  }

  lemma OneClientReplies(y: System, y': System, i: nat)
    requires SysInv(y) && OneClient(y, y', i) && TokenOk(y, y', i)
    ensures RepliesFresh(y')
  {
  }

  lemma OneClientInv(y: System, y': System, i: nat)
    requires SysInv(y) && OneClient(y, y', i) && TokenOk(y, y', i)
    requires i in y'.clients ==> ClientOk(y'.clients[i], y.nextFlight)
    ensures SysInv(y')
  {
    OneClientFlights(y, y', i);
    OneClientStored(y, y', i);
    OneClientReplies(y, y', i);
    UnprocessedFrame(y, y');
  }

  lemma SettleOk(c: Client, f: nat, tokens: Option<Token>, next: nat)
    requires ClientOk(c, next) && f in c.flights
    ensures ClientOk(SettleStep(c, f, tokens), next)
  {
    var c' := SettleStep(c, f, tokens);
    assert forall g :: g in c.flights ==> g == f;
  }

  lemma LandInv(y: System, i: nat, f: nat)
    requires SysInv(y)
    ensures SysInv(Act(y, Land(i, f)))
  {
    if f in y.replies && f in ClientOf(y, i).flights {
      SettleOk(ClientOf(y, i), f, y.replies[f], y.nextFlight);
      OneClientInv(y, Act(y, Land(i, f)), i);
    }
  }

  lemma GiveUpInv(y: System, i: nat, f: nat)
    requires SysInv(y)
    ensures SysInv(Act(y, GiveUp(i, f)))
  {
    if f in ClientOf(y, i).flights {
      SettleOk(ClientOf(y, i), f, None, y.nextFlight);
      OneClientInv(y, Act(y, GiveUp(i, f)), i);
    }
  }

  lemma ResumeInv(y: System, i: nat, w: nat)
    requires SysInv(y)
    ensures SysInv(Act(y, Resume(i, w)))
  {
    ResumeOk(ClientOf(y, i), w, y.nextFlight);
    OneClientInv(y, Act(y, Resume(i, w)), i);
  }

  lemma ClearOk(c: Client, next: nat)
    requires ClientOk(c, next)
    ensures ClientOk(c.(stored := None), next)
  {
    var c' := c.(stored := None);
    assert forall f :: Awaited(c, f) <==> Awaited(c', f);
  }

  lemma ClearInv(y: System, i: nat)
    requires SysInv(y)
    ensures SysInv(Act(y, ClearTokens(i)))
  {
    ClearOk(ClientOf(y, i), y.nextFlight);
    OneClientInv(y, Act(y, ClearTokens(i)), i);
  }

  lemma LossInv(y: System, f: nat)
    requires SysInv(y)
    ensures SysInv(Act(y, LoseRequest(f))) && SysInv(Act(y, LoseReply(f)))
  {
    UnprocessedFrame(y, Act(y, LoseRequest(f)));
    UnprocessedFrame(y, Act(y, LoseReply(f)));
  }

  lemma ActInv(y: System, a: Action)
    requires SysInv(y) && Allowed(y, a)
    ensures SysInv(Act(y, a))
  {
    match a
    case Login(i, u) => LoginInv(y, i, u);
    case Want(i, w) => WantInv(y, i, w);
    case Process(f) => ProcessInv(y, f);
    case LoseRequest(f) => LossInv(y, f);
    case LoseReply(f) => LossInv(y, f);
    case Land(i, f) => LandInv(y, i, f);
    case GiveUp(i, f) => GiveUpInv(y, i, f);
    case Resume(i, w) => ResumeInv(y, i, w);
    case ClearTokens(i) => ClearInv(y, i);
    case Service(e) => ServiceInv(y, e);
  }

  lemma {:induction false} ExecInv(y: System, acts: seq<Action>)
    requires SysInv(y) && Possible(y, acts)
    ensures SysInv(Exec(y, acts))
  {
    if acts != [] {
      var front := Front(acts);
      forall i | 0 <= i < |front| ensures Allowed(Exec(y, front[..i]), front[i]) {
        assert front[..i] == acts[..i];
      }
      ExecInv(y, front);
      assert acts[..|front|] == front;
      ActInv(Exec(y, front), Last(acts));
    }
  }

  lemma PrefixPossible(y: System, acts: seq<Action>, n: nat)
    requires Possible(y, acts) && n <= |acts|
    ensures Possible(y, acts[..n])
  {
    forall i | 0 <= i < n ensures Allowed(Exec(y, acts[..n][..i]), acts[..n][i]) {
      assert acts[..n][..i] == acts[..i];
    }
  }

  // ---------------------------------------------------------------- theorems

  lemma SendIsRecorded(y: System, a: Action)
    ensures y.presented <= Act(y, a).presented
    ensures Sends(y, a).Some? ==> Sends(y, a).value in Act(y, a).presented
  {
  }

  /** Once sent, a token stays in the record of presented tokens. */
  lemma {:induction false} SentIsRecorded(y: System, acts: seq<Action>, i: nat, j: nat)
    requires i < j <= |acts|
    requires Sends(Exec(y, acts[..i]), acts[i]).Some?
    ensures Sends(Exec(y, acts[..i]), acts[i]).value in Exec(y, acts[..j]).presented
    decreases j
  {
    TakeFront(acts, j - 1);
    SendIsRecorded(Exec(y, acts[..j - 1]), acts[j - 1]);
    if i < j - 1 {
      SentIsRecorded(y, acts, i, j - 1);
    }
  }

  /** No client ever presents the same refresh token twice, and no two clients present the same one. */
  lemma NeverPresentedTwice(ttlMs: nat, now: int, acts: seq<Action>, i: nat, j: nat)
    requires Possible(Start(ttlMs, now), acts) && i < j < |acts|
    requires Sends(Exec(Start(ttlMs, now), acts[..i]), acts[i]).Some?
    requires Sends(Exec(Start(ttlMs, now), acts[..j]), acts[j]).Some?
    ensures Sends(Exec(Start(ttlMs, now), acts[..i]), acts[i]) != Sends(Exec(Start(ttlMs, now), acts[..j]), acts[j])
  {
    var y := Start(ttlMs, now);
    PrefixPossible(y, acts, j);
    ExecInv(y, acts[..j]);
    WantInv(Exec(y, acts[..j]), acts[j].client, acts[j].awaiter);
    SentIsRecorded(y, acts, i, j);
  }

  ghost predicate Unrevoked(s: Server, t: Token) {
    forall sid :: sid in s.rows && s.rows[sid].token == t ==> s.rows[sid].revokedAt.None?
  }

  /** A request being processed finds its own token in the row, so it can only look like a replay if revoked. */
  lemma ReplayMeansRevoked(y: System, a: Action)
    requires SysInv(y) && IsReplay(y, a)
    ensures !Unrevoked(y.server, y.requests[a.flight])
  {
    var t := y.requests[a.flight];
    assert y.server.rows[t.sid].token == t;
  }

  lemma UncoveredStep(s: Server, e: Event, t: Token)
    requires S.Inv(s) && Unrevoked(s, t) && !Covers(e, t)
    requires e.Refresh? && Step(s, e).1.Replay? ==> e.token.sub != t.sub
    ensures Unrevoked(Step(s, e).0, t)
  {
  }

  lemma NotEndedStep(y: System, a: Action, t: Token)
    requires SysInv(y) && Unrevoked(y.server, t) && Allowed(y, a) && !Ends(y, a, t)
    ensures Unrevoked(Act(y, a).server, t)
  {
    match a
    case Login(i, u) => UncoveredStep(y.server, Issue(u), t);
    case Process(f) => if f in y.requests { UncoveredStep(y.server, Refresh(y.requests[f]), t); }
    case Service(e) => UncoveredStep(y.server, e, t);
    case _ =>
  }

  lemma {:induction false} NotEndedSoFar(y: System, acts: seq<Action>, t: Token)
    requires SysInv(y) && Possible(y, acts) && Unrevoked(y.server, t)
    requires forall k :: 0 <= k < |acts| ==> !Ends(Exec(y, acts[..k]), acts[k], t)
    ensures Unrevoked(Exec(y, acts).server, t)
  {
    if acts != [] {
      var front := Front(acts);
      PrefixPossible(y, acts, |front|);
      forall k | 0 <= k < |front|
        ensures !Ends(Exec(y, front[..k]), front[k], t)
      {
        assert front[..k] == acts[..k];
      }
      NotEndedSoFar(y, front, t);
      ExecInv(y, front);
      assert acts[..|front|] == front;
      NotEndedStep(Exec(y, front), Last(acts), t);
    }
  }

  /**
   * The service treats a client's refresh with token `t` as a replay only if something ended the
   * session of `t` before: a logout with `t` itself, a revocation that covers its session, or an
   * earlier replay by the same user.
   */
  lemma ReplayOnlyAfterItsEnd(ttlMs: nat, now: int, acts: seq<Action>, i: nat)
    requires Possible(Start(ttlMs, now), acts) && i < |acts|
    requires IsReplay(Exec(Start(ttlMs, now), acts[..i]), acts[i])
    ensures var y := Start(ttlMs, now);
            var t := Exec(y, acts[..i]).requests[acts[i].flight];
            exists k :: 0 <= k < i && Ends(Exec(y, acts[..k]), acts[k], t)
  {
    var y := Start(ttlMs, now);
    var t := Exec(y, acts[..i]).requests[acts[i].flight];
    PrefixPossible(y, acts, i);
    ExecInv(y, acts[..i]);
    if forall k :: 0 <= k < i ==> !Ends(Exec(y, acts[..k]), acts[k], t) {
      forall k | 0 <= k < i
        ensures !Ends(Exec(y, acts[..i][..k]), acts[..i][k], t)
      {
        assert acts[..i][..k] == acts[..k];
      }
      NotEndedSoFar(y, acts[..i], t);
      ReplayMeansRevoked(Exec(y, acts[..i]), acts[i]);
    }
  }

  /**
   * So the replay branch, which ends all sessions of a user, is taken for a client's refresh only
   * after a logout, session revocation, password reset or ban of that same user.
   */
  lemma {:induction false} ReplayOnlyAfterRevocation(ttlMs: nat, now: int, acts: seq<Action>, i: nat)
    requires Possible(Start(ttlMs, now), acts) && i < |acts|
    requires IsReplay(Exec(Start(ttlMs, now), acts[..i]), acts[i])
    ensures var t := Exec(Start(ttlMs, now), acts[..i]).requests[acts[i].flight];
            exists k :: 0 <= k < i && acts[k].Service? && RevokesFor(acts[k].event, t.sub)
    decreases i
  {
    var y := Start(ttlMs, now);
    var t := Exec(y, acts[..i]).requests[acts[i].flight];
    ReplayOnlyAfterItsEnd(ttlMs, now, acts, i);
    var k :| 0 <= k < i && Ends(Exec(y, acts[..k]), acts[k], t);
    if acts[k].Service? {
      assert RevokesFor(acts[k].event, t.sub);
    } else {
      ReplayOnlyAfterRevocation(ttlMs, now, acts, k);
    }
  }

  /**
   * Why callers have to continue promptly. While a refresh of the stored token runs, a caller that
   * continues makes the next caller send the same token again exactly if it had been waiting for an
   * earlier refresh.
   */
  lemma LateCallerExactly(y: System, i: nat, f: nat, t: Token, w: nat, v: nat)
    requires var c := ClientOf(y, i);
             && c.stored == Some(t) && c.promise == Some(f) && c.flights == map[f := t] && w in c.awaiters
    ensures Sends(Act(y, Resume(i, w)), Want(i, v)) == Some(t) <==> ClientOf(y, i).awaiters[w] != f
  {
  }

  /**
   * Such a state arises without the scheduling condition: two callers wait for refresh 0; it lands; the first
   * continues and sets the variable to null; a third caller starts refresh 1; the second
   * continues late and sets the variable to null again; a fourth caller now sends the token
   * that refresh 1 has already sent.
   */
  lemma DoublePresentation(t0: Token, t1: Token)
    ensures var c0 := WantStep(WantStep(NEW_CLIENT.(stored := Some(t0)), 0, 0), 1, 1);
            var c1 := WantStep(ResumeStep(SettleStep(c0, 0, Some(t1)), 0), 2, 2);
            var c2 := ResumeStep(c1, 1);
            && c1.flights == map[2 := t1]
            && Presents(c2) && c2.stored == Some(t1) && !Prompt(c2)
  {
    var c0 := WantStep(WantStep(NEW_CLIENT.(stored := Some(t0)), 0, 0), 1, 1);
    assert c0.awaiters == map[0 := 0, 1 := 0];
    var c := ResumeStep(SettleStep(c0, 0, Some(t1)), 0);
    assert c.awaiters == map[1 := 0] && c.flights == map[];
    var c1 := WantStep(c, 2, 2);
    assert c1.awaiters == map[1 := 0, 2 := 2];
    assert 2 in ResumeStep(c1, 1).awaiters;
  }

  // ---------------------------------------------------------------- what refreshing gives

  /** The server's answer to the last request of flight `f` that it has processed. */
  function AnswerTo(y: System, acts: seq<Action>, f: nat): Option<Token> {
    if acts == [] then None
    else
      var z, a := Exec(y, Front(acts)), Last(acts);
      if a == Process(f) && f in z.requests then
        match Step(z.server, Refresh(z.requests[f])).1
        case Refreshed(t) => Some(t)
        case _ => None
      else AnswerTo(y, Front(acts), f)
  }

  /** The token client `i` was given last: by a login, or in the reply to its refresh; a failure takes it away. */
  function LastGiven(y: System, acts: seq<Action>, i: nat): Option<Token> {
    if acts == [] then None
    else
      var before, z := LastGiven(y, Front(acts), i), Exec(y, Front(acts));
      match Last(acts)
      case Login(j, u) =>
        (match Step(z.server, Issue(u)).1 case Issued(t) => if j == i then Some(t) else before case _ => before)
      case Land(j, f) =>
        if j == i && f in ClientOf(z, i).flights && f in z.replies then AnswerTo(y, Front(acts), f) else before
      case GiveUp(j, f) => if j == i && f in ClientOf(z, i).flights then None else before
      case ClearTokens(j) => if j == i then None else before
      case _ => before
  }

  lemma {:induction false} RepliesAreAnswers(y: System, acts: seq<Action>, f: nat)
    requires y.replies == map[] && f in Exec(y, acts).replies
    ensures Exec(y, acts).replies[f] == AnswerTo(y, acts, f)
  {
    if acts != [] {
      var z, a := Exec(y, Front(acts)), Last(acts);
      if !(a == Process(f) && f in z.requests) {
        assert f in z.replies && Act(z, a).replies[f] == z.replies[f];
        RepliesAreAnswers(y, Front(acts), f);
      }
    }
  }

  lemma StoredStep(y: System, a: Action, i: nat)
    ensures var before, after := ClientOf(y, i).stored, ClientOf(Act(y, a), i).stored;
            match a
            case Login(j, u) =>
              after == if j == i && Step(y.server, Issue(u)).1.Issued? then Some(Step(y.server, Issue(u)).1.token)
                       else before
            case Land(j, f) =>
              after == if j == i && f in ClientOf(y, i).flights && f in y.replies then y.replies[f] else before
            case GiveUp(j, f) => after == if j == i && f in ClientOf(y, i).flights then None else before
            case ClearTokens(j) => after == if j == i then None else before
            case _ => after == before
  {
  }

  /** Over every run, with any losses and delays, a client holds exactly the token it was given last. */
  lemma {:induction false} StoredIsLastGiven(ttlMs: nat, now: int, acts: seq<Action>, i: nat)
    ensures ClientOf(Exec(Start(ttlMs, now), acts), i).stored == LastGiven(Start(ttlMs, now), acts, i)
  {
    if acts != [] {
      var y, a := Start(ttlMs, now), Last(acts);
      var z := Exec(y, Front(acts));
      StoredIsLastGiven(ttlMs, now, Front(acts), i);
      StoredStep(z, a, i);
      if a.Land? && a.flight in z.replies { RepliesAreAnswers(y, Front(acts), a.flight); }
    }
  }

  // -- one refresh for all callers --

  function Wants(i: nat, ws: seq<nat>): seq<Action> {
    seq(|ws|, k requires 0 <= k < |ws| => Want(i, ws[k]))
  }

  function Resumes(i: nat, ws: seq<nat>): seq<Action> {
    seq(|ws|, k requires 0 <= k < |ws| => Resume(i, ws[k]))
  }

  function Waiting(ws: seq<nat>, f: nat): map<nat, nat> {
    map w | w in ws :: f
  }

  /** All the callers wait for one refresh, which has sent `t`. */
  function Asked(y: System, i: nat, t: Token, ws: seq<nat>): System {
    var f := y.nextFlight;
    y.(clients := y.clients[i := Client(Some(t), Some(f), map[f := t], Waiting(ws, f))],
       requests := y.requests[f := t],
       presented := y.presented + {t},
       nextFlight := f + |ws|)
  }

  lemma FirstWant(y: System, i: nat, t: Token, w: nat)
    requires ClientOf(y, i) == Client(Some(t), None, map[], map[])
    ensures Act(y, Want(i, w)) == Asked(y, i, t, [w])
  {
    assert Waiting([w], y.nextFlight) == map[w := y.nextFlight];
  }

  lemma NextWant(y: System, i: nat, t: Token, ws: seq<nat>, w: nat)
    ensures Act(Asked(y, i, t, ws), Want(i, w)) == Asked(y, i, t, ws + [w])
  {
    assert Waiting(ws + [w], y.nextFlight) == Waiting(ws, y.nextFlight)[w := y.nextFlight];
  }

  lemma {:induction false} WantsShareOne(y: System, i: nat, t: Token, ws: seq<nat>)
    requires ws != [] && ClientOf(y, i) == Client(Some(t), None, map[], map[])
    ensures Exec(y, Wants(i, ws)) == Asked(y, i, t, ws)
  {
    var front, w := Front(ws), Last(ws);
    assert Front(Wants(i, ws)) == Wants(i, front) && Last(Wants(i, ws)) == Want(i, w);
    assert ws == front + [w];
    if front == [] {
      assert Wants(i, front) == [];
      FirstWant(y, i, t, w);
    } else {
      WantsShareOne(y, i, t, front);
      NextWant(y, i, t, front, w);
    }
  }

  lemma {:induction false} ResumesAll(y: System, i: nat, stored: Option<Token>, f: nat, ws: seq<nat>, rest: seq<nat>)
    requires forall j, k :: 0 <= j < k < |ws + rest| ==> (ws + rest)[j] != (ws + rest)[k]
    requires i in y.clients && y.clients[i] == Client(stored, Some(f), map[], Waiting(ws + rest, f)) && ws != []
    ensures Exec(y, Resumes(i, ws)) == y.(clients := y.clients[i := Client(stored, None, map[], Waiting(rest, f))])
  {
    var front, w := Front(ws), Last(ws);
    assert Front(Resumes(i, ws)) == Resumes(i, front) && Last(Resumes(i, ws)) == Resume(i, w);
    assert ws + rest == front + ([w] + rest);
    assert w !in rest by {
      forall k | 0 <= k < |rest|
        ensures rest[k] != w
      {
        assert (ws + rest)[|ws| - 1] != (ws + rest)[|ws| + k];
      }
    }
    if front == [] {
      assert Resumes(i, front) == [];
    } else {
      ResumesAll(y, i, stored, f, front, [w] + rest);
    }
    ResumesOne(Exec(y, Resumes(i, front)), i, stored, f, w, rest);
  }

  lemma ResumesOne(y: System, i: nat, stored: Option<Token>, f: nat, w: nat, rest: seq<nat>)
    requires i in y.clients && y.clients[i].stored == stored && y.clients[i].flights == map[] && w !in rest
    requires y.clients[i].awaiters == Waiting([w] + rest, f)
    ensures Act(y, Resume(i, w)) == y.(clients := y.clients[i := Client(stored, None, map[], Waiting(rest, f))])
  {
    assert Waiting([w] + rest, f) - {w} == Waiting(rest, f);
  }

  /** All of a round: every caller asks, the server answers, the reply lands, every caller goes on. */
  function Round(i: nat, f: nat, ws: seq<nat>): seq<Action> {
    Wants(i, ws) + [Process(f)] + [Land(i, f)] + Resumes(i, ws)
  }

  lemma {:induction false} ExecAppend(y: System, a: seq<Action>, b: seq<Action>)
    ensures Exec(y, a + b) == Exec(Exec(y, a), b)
  {
    if b == [] {
      assert a + b == a;
    } else {
      assert Front(a + b) == a + Front(b) && Last(a + b) == Last(b);
      ExecAppend(y, a, Front(b));
    }
  }

  lemma ExecOne(y: System, a: Action)
    ensures Exec(y, [a]) == Act(y, a)
  {
    assert Front([a]) == [];
  }

  lemma RefreshedIsRedeemable(s: Server, t: Token)
    requires S.Inv(s) && Redeemable(s, t) && s.ttlMs >= 1000
    ensures var r := Step(s, Refresh(t));
            && r.1.Refreshed? && Redeemable(r.0, r.1.token)
            && r.1.token != t && r.1.token.sid == t.sid
  {
    S.StepInv(s, Refresh(t));
    S.HandedOut(s, Refresh(t), Step(s, Refresh(t)).1.token);
    S.RedeemableExactly(Step(s, Refresh(t)).0, Step(s, Refresh(t)).1.token);
  }

  /** The client holds a new token of the same session, waits for nothing, and nothing is under way. */
  predicate Renewed(y: System, z: System, i: nat, t: Token) {
    && i in z.clients && z.clients[i].stored.Some?
    && z.clients[i] == Client(z.clients[i].stored, None, map[], map[])
    && z.clients[i].stored.value.sid == t.sid && z.clients[i].stored.value != t
    && Redeemable(z.server, z.clients[i].stored.value)
    && z.requests == y.requests - {y.nextFlight} && z.replies == y.replies - {y.nextFlight}
    && z.presented == y.presented + {t}
    && forall j :: j in y.clients && j != i ==> j in z.clients && z.clients[j] == y.clients[j]
  }

  lemma AnswerComes(y: System, i: nat, t: Token, ws: seq<nat>)
    requires Redeemable(y.server, t)
    ensures var f, r := y.nextFlight, Step(y.server, Refresh(t));
            Act(Asked(y, i, t, ws), Process(f)) ==
              Asked(y, i, t, ws).(
                server := r.0, requests := y.requests - {f}, replies := y.replies[f := Some(r.1.token)])
  {
    var f := y.nextFlight;
    assert y.requests[f := t] - {f} == y.requests - {f};
  }

  lemma AnswerLands(y: System, i: nat, t: Token, ws: seq<nat>)
    requires Redeemable(y.server, t)
    ensures var f, r := y.nextFlight, Step(y.server, Refresh(t));
            Act(Act(Asked(y, i, t, ws), Process(f)), Land(i, f)) ==
              Asked(y, i, t, ws).(
                server := r.0, requests := y.requests - {f}, replies := y.replies - {f},
                clients := y.clients[i := Client(Some(r.1.token), Some(f), map[], Waiting(ws, f))])
  {
    var f, r := y.nextFlight, Step(y.server, Refresh(t));
    AnswerComes(y, i, t, ws);
    assert y.replies[f := Some(r.1.token)] - {f} == y.replies - {f};
    assert map[f := t] - {f} == map[];
  }

  /**
   * Any number of callers that need a new token at once share one request, which sends the stored token
   * once. If the service accepts it, they all go on with the client holding a new token of the same
   * session that can be refreshed again, and the client is ready for the next round. Nothing of any
   * other client changes.
   */
  lemma RoundRenews(y: System, i: nat, t: Token, ws: seq<nat>)
    requires S.Inv(y.server) && y.server.ttlMs >= 1000
    requires ClientOf(y, i) == Client(Some(t), None, map[], map[]) && Redeemable(y.server, t)
    requires ws != [] && forall j, k :: 0 <= j < k < |ws| ==> ws[j] != ws[k]
    ensures Renewed(y, Exec(y, Round(i, y.nextFlight, ws)), i, t)
  {
    var f, r := y.nextFlight, Step(y.server, Refresh(t));
    WantsShareOne(y, i, t, ws);
    AnswerLands(y, i, t, ws);
    RefreshedIsRedeemable(y.server, t);
    RoundInSteps(y, i, f, ws);
    var z := Act(Act(Asked(y, i, t, ws), Process(f)), Land(i, f));
    assert ws + [] == ws;
    ResumesAll(z, i, Some(r.1.token), f, ws, []);
    assert Waiting([], f) == map[];
  }

  lemma RoundInSteps(y: System, i: nat, f: nat, ws: seq<nat>)
    ensures Exec(y, Round(i, f, ws)) ==
            Exec(Act(Act(Exec(y, Wants(i, ws)), Process(f)), Land(i, f)), Resumes(i, ws))
  {
    ExecAppend(y, Wants(i, ws) + [Process(f)] + [Land(i, f)], Resumes(i, ws));
    ExecAppend(y, Wants(i, ws) + [Process(f)], [Land(i, f)]);
    ExecAppend(y, Wants(i, ws), [Process(f)]);
    ExecOne(Exec(y, Wants(i, ws)), Process(f));
    ExecOne(Act(Exec(y, Wants(i, ws)), Process(f)), Land(i, f));
  }
}
