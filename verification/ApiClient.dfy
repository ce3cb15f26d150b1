/**
  * The API client of one device as it runs: the module variable `refreshPromise`, the stored
  * refresh token, and what happens at each point where a call waits. `State()` is a client of the
  * refresh model.
  */
module ApiClient {
  import opened Base
  import S = Sessions
  import C = RefreshClient

  /** A request that came back unauthorized, and whether it was sent again already. */
  datatype Request = Request(id: nat, retried: bool)

  /** What the interceptor does with a request whose refresh has ended. */
  datatype Next = Resend(request: Request, accessToken: nat) | SignOut

  /** What a refresh yields. */
  datatype Tokens = Tokens(access: nat, refresh: S.Token)

  /** What comes back for one sending: a 401, with what a refresh would then yield, if anything, or something else. */
  datatype Reply = Unauthorized(renewed: Option<Tokens>) | Other

  /** How often a request goes out, given what comes back; without a stored token no refresh is sent. */
  function Sendings(r: Request, replies: seq<Reply>, stored: bool): nat
    decreases |replies|
  {
    if replies == [] then 0
    else if replies[0].Unauthorized? && !r.retried && stored && replies[0].renewed.Some?
    then 1 + Sendings(r.(retried := true), replies[1..], true)
    else 1
  }

  class Client {
    var stored: Option<S.Token>
    var refreshPromise: Option<nat>
    var flights: map<nat, S.Token>
    var awaiters: map<nat, nat>

    ghost function State(): C.Client
      reads this
    {
      C.Client(stored, refreshPromise, flights, awaiters)
    }

    constructor ()
      ensures State() == C.NEW_CLIENT
    {
      stored, refreshPromise, flights, awaiters := None, None, map[], map[];
    }

    /** The token a new refresh sends to the server; nothing is sent without a stored token. */
    method RefreshAccessToken(flight: nat) returns (sends: Option<S.Token>)
      modifies `flights
      ensures sends == stored
      ensures flights == if stored.Some? then old(flights)[flight := stored.value] else old(flights)
    {
      if stored.Some? { flights := flights[flight := stored.value]; }
      sends := stored;
    }

    /** A caller that needs a new access token, up to the point where it waits. */
    method AwaitRefresh(awaiter: nat, flight: nat) returns (sends: Option<S.Token>)
      modifies `refreshPromise, `flights, `awaiters
      ensures State() == C.WantStep(old(State()), awaiter, flight)
      ensures sends == if C.Presents(old(State())) then stored else None
    {
      sends := None;
      if refreshPromise.None? {
        refreshPromise := Some(flight);
        sends := RefreshAccessToken(flight);
      }
      awaiters := awaiters[awaiter := refreshPromise.value];
    }

    /** The refresh ends: tokens are stored, or cleared after any failure. */
    method Settle(flight: nat, tokens: Option<S.Token>)
      modifies `stored, `flights
      ensures State() == C.SettleStep(old(State()), flight, tokens)
    {
      stored := tokens;
      flights := flights - {flight};
    }

    /** A waiting caller goes on once its refresh has ended. */
    method Resume(awaiter: nat)
      requires awaiter in awaiters && awaiters[awaiter] !in flights
      modifies `refreshPromise, `awaiters
      ensures State() == C.ResumeStep(old(State()), awaiter)
    {
      refreshPromise := None;
      awaiters := awaiters - {awaiter};
    }

    /** The interceptor for a 401 reply: a request waits for a refresh at most once. */
    method OnUnauthorized(r: Request, flight: nat) returns (waits: bool, r': Request, sends: Option<S.Token>)
      modifies `refreshPromise, `flights, `awaiters
      ensures waits == !r.retried && r' == r.(retried := true)
      ensures State() == if r.retried then old(State()) else C.WantStep(old(State()), r.id, flight)
      ensures sends == if !r.retried && C.Presents(old(State())) then stored else None
    {
      if r.retried { return false, r, None; }
      r' := r.(retried := true);
      sends := AwaitRefresh(r.id, flight);
      waits := true;
    }

    /** The same caller after the refresh: it sends its request again with the new token, or signs out. */
    method AfterRefresh(r: Request, newToken: Option<nat>) returns (next: Next)
      requires r.retried && r.id in awaiters && awaiters[r.id] !in flights
      modifies `refreshPromise, `awaiters
      ensures State() == C.ResumeStep(old(State()), r.id)
      ensures next == if newToken.Some? then Resend(r, newToken.value) else SignOut
    {
      Resume(r.id);
      if newToken.Some? { return Resend(r, newToken.value); }
      next := SignOut;
    }

    /** A 403 reply: a ban clears the tokens and signs out, anything else is passed on. */
    method OnForbidden(banned: bool) returns (signsOut: bool)
      modifies `stored
      ensures signsOut == banned
      ensures State() == if banned then old(State()).(stored := None) else old(State())
    {
      if banned { stored := None; }
      signsOut := banned;
    }

    /** A whole exchange, while nobody else uses the client: the request is sent until nothing is left to do. */
    method Exchange(r: Request, replies: seq<Reply>, flight: nat) returns (sent: nat)
      requires refreshPromise.None? && flights == map[] && awaiters == map[]
      modifies this
      ensures sent == Sendings(r, replies, old(stored).Some?)
    {
      var request := r;
      sent := 0;
      while sent < |replies|
        invariant sent <= |replies|
        invariant refreshPromise.None? && flights == map[] && awaiters == map[]
        invariant Sendings(r, replies, old(stored).Some?) == sent + Sendings(request, replies[sent..], stored.Some?)
      {
        var reply := replies[sent];
        ghost var rest := replies[sent..];
        sent := sent + 1;
        assert rest[1..] == replies[sent..];
        if reply.Other? { return; }
        var waits, waiting, sends := OnUnauthorized(request, flight + sent);
        if !waits { return; }
        var newToken := None;
        if sends.Some? {
          Settle(flight + sent, if reply.renewed.Some? then Some(reply.renewed.value.refresh) else None);
          newToken := if reply.renewed.Some? then Some(reply.renewed.value.access) else None;
        }
        var next := AfterRefresh(waiting, newToken);
        if next.SignOut? { return; }
        request := next.request;
      }
    }
  }

  /** A request goes out at most twice, whatever is answered: again exactly after a 401 and a successful refresh. */
  lemma {:induction false} SentAtMostTwice(r: Request, replies: seq<Reply>, stored: bool)
    ensures Sendings(r, replies, stored) <= 2
    ensures Sendings(r, replies, stored) == 2 <==>
            !r.retried && stored && |replies| >= 2 && replies[0].Unauthorized? && replies[0].renewed.Some?
    decreases |replies|
  {
    if replies != [] && !r.retried { SentAtMostTwice(r.(retried := true), replies[1..], true); }
  }
}
