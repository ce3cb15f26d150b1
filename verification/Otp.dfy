/**
 * One-time codes: the table, the shared resend cooldown and the verification step that all
 * five flows (registration, login, phone change, two-factor recovery, password reset) run.
 *
 * Rows are grouped by phone, oldest first. Database and process share one clock, so a row
 * expires exactly OTP_TTL after its `createdAt`.
 */
module Otp {
  import opened Base
  import opened Spacing
  import opened Arithmetic

  const TTL: nat := 300_000
  const COOLDOWN: nat := 60_000
  const MAX_ATTEMPTS: nat := 5

  datatype Code = Code(secret: nat, createdAt: int, expiresAt: int, attempts: nat)

  datatype Table = Table(codes: map<nat, seq<Code>>, now: int)

  /**
   * `commits` is false when a flow still refuses after the code was right: the phone or the
   * user name is already taken.
   */
  datatype Event =
    | Request(phone: nat, secret: nat)
    | Verify(phone: nat, guess: nat, commits: bool)
    | Cleanup
    | Tick(ms: nat)

  datatype Outcome =
    | Done
    | Sent
    | TooSoon
    | Expired
    | Exhausted
    | Wrong
    | Conflict
    | Accepted

  function CodesOf(s: Table, phone: nat): seq<Code> {
    if phone in s.codes then s.codes[phone] else []
  }

  function WithCodes(s: Table, phone: nat, cs: seq<Code>): Table {
    s.(codes := s.codes[phone := cs])
  }

  /** `findFirst({ orderBy: { createdAt: "desc" } })`: the index of a latest row. */
  function Newest(cs: seq<Code>): (n: nat)
    requires cs != []
    ensures n < |cs| && forall i :: 0 <= i < |cs| ==> cs[i].createdAt <= cs[n].createdAt
  {
    if |cs| == 1 then 0
    else
      var n := Newest(Front(cs));
      if cs[n].createdAt <= Last(cs).createdAt then |cs| - 1 else n
  }

  /** assertOtpCooldown followed by the insertion of a new code. */
  function RequestRows(cs: seq<Code>, now: int, secret: nat): (seq<Code>, Outcome) {
    if cs != [] && COOLDOWN - (now - cs[Newest(cs)].createdAt) > 0 then (cs, TooSoon)
    else (cs + [Code(secret, now, now + TTL, 0)], Sent)
  }

  function VerifyRows(cs: seq<Code>, now: int, guess: nat, commits: bool): (seq<Code>, Outcome) {
    if cs == [] || cs[Newest(cs)].expiresAt < now then (cs, Expired)
    else
      var n := Newest(cs);
      if cs[n].attempts >= MAX_ATTEMPTS then (cs, Exhausted)
      else if cs[n].secret != guess then (cs[n := cs[n].(attempts := cs[n].attempts + 1)], Wrong)
      else if !commits then (cs, Conflict)
      else (cs[..n] + cs[n + 1..], Accepted)
  }

  function RequestStep(s: Table, phone: nat, secret: nat): (Table, Outcome) {
    var (cs, o) := RequestRows(CodesOf(s, phone), s.now, secret);
    (WithCodes(s, phone, cs), o)
  }

  function VerifyStep(s: Table, phone: nat, guess: nat, commits: bool): (Table, Outcome) {
    var (cs, o) := VerifyRows(CodesOf(s, phone), s.now, guess, commits);
    (WithCodes(s, phone, cs), o)
  }

  /** The rows that `deleteMany({ createdAt: { lt: cutoff } })` leaves. */
  function Keep(cs: seq<Code>, cutoff: int): seq<Code> {
    Filter((c: Code) => c.createdAt >= cutoff, cs)
  }

  function CleanupStep(s: Table): Table {
    s.(codes := map p | p in s.codes :: Keep(s.codes[p], s.now - TTL))
  }

  function Step(s: Table, e: Event): (Table, Outcome) {
    match e
    case Request(p, secret) => RequestStep(s, p, secret)
    case Verify(p, guess, commits) => VerifyStep(s, p, guess, commits)
    case Cleanup => (CleanupStep(s), Done)
    case Tick(ms) => (s.(now := s.now + ms), Done)
  }

  function Run(s: Table, es: seq<Event>): Table {
    if es == [] then s else Step(Run(s, Front(es)), Last(es)).0
  }

  function LastAnswer(s: Table, es: seq<Event>): Outcome
    requires es != []
  {
    Step(Run(s, Front(es)), Last(es)).1
  }

  // ---------------------------------------------------------------- invariant

  function Times(cs: seq<Code>): (ts: seq<int>)
    ensures |ts| == |cs| && forall i :: 0 <= i < |cs| ==> ts[i] == cs[i].createdAt
  {
    seq(|cs|, i requires 0 <= i < |cs| => cs[i].createdAt)
  }

  ghost predicate RowsOk(cs: seq<Code>, now: int) {
    && (forall i, j :: 0 <= i < j < |cs| ==> cs[j].createdAt - cs[i].createdAt >= COOLDOWN)
    && (forall i :: 0 <= i < |cs| ==>
          cs[i].createdAt <= now && cs[i].expiresAt == cs[i].createdAt + TTL && cs[i].attempts <= MAX_ATTEMPTS)
  }

  ghost predicate Inv(s: Table) {
    forall p :: p in s.codes ==> RowsOk(s.codes[p], s.now)
  }

  lemma NewestIsLast(cs: seq<Code>, now: int)
    requires RowsOk(cs, now) && cs != []
    ensures Newest(cs) == |cs| - 1
  {
    assert Last(cs).createdAt <= cs[Newest(cs)].createdAt;
  }

  ghost predicate Sorted(cs: seq<Code>) {
    forall i, j :: 0 <= i < j < |cs| ==> cs[i].createdAt <= cs[j].createdAt
  }

  lemma {:induction false} KeepNone(cs: seq<Code>, cutoff: int)
    requires forall i :: 0 <= i < |cs| ==> cs[i].createdAt < cutoff
    ensures Keep(cs, cutoff) == []
  {
    if cs != [] {
      KeepNone(Front(cs), cutoff);
      assert cs[|cs| - 1].createdAt < cutoff;
    }
  }

  lemma SliceFront(cs: seq<Code>, k: nat)
    requires k < |cs|
    ensures Front(cs)[k..] + [Last(cs)] == cs[k..]
  {
  }

  /** Cleanup removes an old front part of a phone's rows and nothing else. */
  lemma {:induction false} KeepSorted(cs: seq<Code>, cutoff: int) returns (k: nat)
    requires Sorted(cs)
    ensures k <= |cs| && Keep(cs, cutoff) == cs[k..]
    ensures forall i :: 0 <= i < |cs| ==> (cs[i].createdAt < cutoff <==> i < k)
  {
    if cs == [] {
      k := 0;
    } else if Last(cs).createdAt < cutoff {
      k := |cs|;
      KeepNone(cs, cutoff);
    } else {
      k := KeepSorted(Front(cs), cutoff);
      SliceFront(cs, k);
      forall i | 0 <= i < |cs|
        ensures cs[i].createdAt < cutoff <==> i < k
      {
        if i < |cs| - 1 { assert Front(cs)[i] == cs[i]; }
      }
    }
  }

  lemma KeepIsSuffix(cs: seq<Code>, cutoff: int, now: int) returns (k: nat)
    requires RowsOk(cs, now)
    ensures k <= |cs| && Keep(cs, cutoff) == cs[k..]
    ensures forall i :: 0 <= i < |cs| ==> (cs[i].createdAt < cutoff <==> i < k)
  {
    k := KeepSorted(cs, cutoff);
  }

  /** What a request does when the newest row is the last one. */
  function RequestLast(cs: seq<Code>, now: int, secret: nat): (seq<Code>, Outcome) {
    if cs != [] && now - Last(cs).createdAt < COOLDOWN then (cs, TooSoon)
    else (cs + [Code(secret, now, now + TTL, 0)], Sent)
  }

  function VerifyLast(cs: seq<Code>, now: int, guess: nat, commits: bool): (seq<Code>, Outcome) {
    if cs == [] || Last(cs).expiresAt < now then (cs, Expired)
    else if Last(cs).attempts >= MAX_ATTEMPTS then (cs, Exhausted)
    else if Last(cs).secret != guess then
      (Front(cs) + [Last(cs).(attempts := Last(cs).attempts + 1)], Wrong)
    else if !commits then (cs, Conflict)
    else (Front(cs), Accepted)
  }

  lemma RequestShape(cs: seq<Code>, now: int, secret: nat)
    requires RowsOk(cs, now)
    ensures RequestRows(cs, now, secret) == RequestLast(cs, now, secret)
    ensures RowsOk(RequestRows(cs, now, secret).0, now)
  {
    if cs != [] { NewestIsLast(cs, now); }
  }

  lemma VerifyShape(cs: seq<Code>, now: int, guess: nat, commits: bool)
    requires RowsOk(cs, now)
    ensures VerifyRows(cs, now, guess, commits) == VerifyLast(cs, now, guess, commits)
    ensures RowsOk(VerifyRows(cs, now, guess, commits).0, now)
  {
    if cs != [] {
      NewestIsLast(cs, now);
      var n := |cs| - 1;
      assert cs[..n] + cs[n + 1..] == Front(cs);
      assert cs[n := cs[n].(attempts := cs[n].attempts + 1)] == Front(cs) + [cs[n].(attempts := cs[n].attempts + 1)];
    }
  }

  lemma CleanupInv(s: Table)
    requires Inv(s)
    ensures Inv(CleanupStep(s))
  {
    forall p | p in s.codes
      ensures RowsOk(Keep(s.codes[p], s.now - TTL), s.now)
    {
      var k := KeepIsSuffix(s.codes[p], s.now - TTL, s.now);
    }
  }

  lemma StepInv(s: Table, e: Event)
    requires Inv(s)
    ensures Inv(Step(s, e).0)
    ensures s.now <= Step(s, e).0.now
  {
    match e
    case Request(p, secret) => RequestShape(CodesOf(s, p), s.now, secret);
    case Verify(p, guess, commits) => VerifyShape(CodesOf(s, p), s.now, guess, commits);
    case Cleanup => CleanupInv(s);
    case Tick(_) =>
  }

  lemma {:induction false} RunInv(s: Table, es: seq<Event>)
    requires Inv(s)
    ensures Inv(Run(s, es)) && s.now <= Run(s, es).now
  {
    if es != [] {
      RunInv(s, Front(es));
      StepInv(Run(s, Front(es)), Last(es));
    }
  }

  // ---------------------------------------------------------------- theorems

  function Unexpired(cs: seq<Code>, now: int): set<nat> {
    set i: nat | i < |cs| && cs[i].expiresAt >= now
  }

  /**
   * Whatever flows, guesses and cleanups happen: stored codes of a phone are a minute apart,
   * at most six can be used, and none has recorded more than five wrong guesses.
   */
  lemma StoredCodes(es: seq<Event>, now: int, p: nat)
    ensures var s := Run(Table(map[], now), es);
            var cs := CodesOf(s, p);
            && (forall i, j :: 0 <= i < j < |cs| ==> cs[j].createdAt - cs[i].createdAt >= COOLDOWN)
            && |Unexpired(cs, s.now)| <= 6
            && (forall i :: 0 <= i < |cs| ==> cs[i].attempts <= MAX_ATTEMPTS)
  {
    RunInv(Table(map[], now), es);
    var s := Run(Table(map[], now), es);
    var cs := CodesOf(s, p);
    var k := KeepIsSuffix(cs, s.now - TTL, s.now);
    SpacedCount(Times(cs[k..]), COOLDOWN, s.now - TTL, TTL);
    BoundedSet(Unexpired(cs, s.now), k, |cs|);
  }

  /** Wrong guesses recorded for a phone along a run. */
  function Wrongs(s: Table, es: seq<Event>, p: nat): nat {
    if es == [] then 0 else Wrongs(s, Front(es), p) + Tally(Run(s, Front(es)), Last(es), p)
  }

  /** No verification for this phone succeeded along the run. */
  ghost predicate NeverAccepted(s: Table, es: seq<Event>, p: nat) {
    es == [] ||
    (NeverAccepted(s, Front(es), p) && !(Last(es).Verify? && Last(es).phone == p && LastAnswer(s, es) == Accepted))
  }

  /**
   * What an attack has used up so far: `k` codes were created, the last one at `last`;
   * all but that one are full, and a missing last code is old enough not to matter.
   */
  ghost predicate Spent(cs: seq<Code>, now: int, start: int, k: nat, last: int, wrongs: nat) {
    && (k == 0 ==> cs == [] && wrongs == 0)
    && (k > 0 ==> start + (k - 1) * COOLDOWN <= last <= now)
    && (k > 0 && cs != [] ==>
          Last(cs).createdAt == last && Last(cs).attempts <= MAX_ATTEMPTS && wrongs <= 5 * (k - 1) + Last(cs).attempts)
    && (k > 0 && cs == [] ==> wrongs <= 5 * k && last < now - TTL)
  }

  lemma SpentRequest(cs: seq<Code>, now: int, start: int, k: nat, last: int, w: nat, secret: nat)
    requires start <= now && Spent(cs, now, start, k, last, w)
    ensures var sent := RequestLast(cs, now, secret).1 == Sent;
            Spent(RequestLast(cs, now, secret).0, now, start,
                  if sent then k + 1 else k, if sent then now else last, w)
  {
  }

  lemma SpentVerify(cs: seq<Code>, now: int, start: int, k: nat, last: int, w: nat, guess: nat, commits: bool)
    requires Spent(cs, now, start, k, last, w)
    requires VerifyLast(cs, now, guess, commits).1 != Accepted
    ensures Spent(VerifyLast(cs, now, guess, commits).0, now, start, k, last,
                  w + if VerifyLast(cs, now, guess, commits).1 == Wrong then 1 else 0)
  {
  }

  lemma SpentCleanup(cs: seq<Code>, now: int, start: int, k: nat, last: int, w: nat)
    requires RowsOk(cs, now) && Spent(cs, now, start, k, last, w)
    ensures Spent(Keep(cs, now - TTL), now, start, k, last, w)
  {
    var n := KeepIsSuffix(cs, now - TTL, now);
    if n < |cs| { assert Last(cs[n..]) == Last(cs); }
  }

  /** Was a wrong guess for phone `p` recorded? */
  function Tally(s: Table, e: Event, p: nat): nat {
    if e.Verify? && e.phone == p && Step(s, e).1 == Wrong then 1 else 0
  }

  lemma SpentRequestStep(s: Table, p: nat, secret: nat, start: int, k: nat, last: int, w: nat)
    requires Inv(s) && start <= s.now && Spent(CodesOf(s, p), s.now, start, k, last, w)
    ensures var (s', o) := Step(s, Request(p, secret));
            Spent(CodesOf(s', p), s'.now, start, if o == Sent then k + 1 else k, if o == Sent then s.now else last, w)
  {
    RequestShape(CodesOf(s, p), s.now, secret);
    SpentRequest(CodesOf(s, p), s.now, start, k, last, w, secret);
  }

  lemma SpentVerifyStep(s: Table, p: nat, guess: nat, commits: bool, start: int, k: nat, last: int, w: nat)
    requires Inv(s) && Spent(CodesOf(s, p), s.now, start, k, last, w)
    requires Step(s, Verify(p, guess, commits)).1 != Accepted
    ensures var (s', o) := Step(s, Verify(p, guess, commits));
            Spent(CodesOf(s', p), s'.now, start, k, last, w + if o == Wrong then 1 else 0)
  {
    VerifyShape(CodesOf(s, p), s.now, guess, commits);
    SpentVerify(CodesOf(s, p), s.now, start, k, last, w, guess, commits);
  }

  /** Cleanup, the passing of time and calls for other phones. */
  lemma SpentElsewhere(s: Table, e: Event, p: nat, start: int, k: nat, last: int, w: nat)
    requires Inv(s) && Spent(CodesOf(s, p), s.now, start, k, last, w)
    requires e.Request? || e.Verify? ==> e.phone != p
    ensures Spent(CodesOf(Step(s, e).0, p), Step(s, e).0.now, start, k, last, w)
  {
    if e.Request? || e.Verify? {
      OtherPhonesStay(s, e, p);
      NowStays(s, e);
    } else if e.Cleanup? {
      SpentCleanup(CodesOf(s, p), s.now, start, k, last, w);
    }
  }

  lemma SpentStep(s: Table, e: Event, p: nat, start: int, k: nat, last: int, w: nat) returns (k': nat, last': int)
    requires Inv(s) && start <= s.now && Spent(CodesOf(s, p), s.now, start, k, last, w)
    requires e.Verify? && e.phone == p ==> Step(s, e).1 != Accepted
    ensures Spent(CodesOf(Step(s, e).0, p), Step(s, e).0.now, start, k', last', w + Tally(s, e, p))
  {
    k', last' := k, last;
    if e.Request? && e.phone == p {
      SpentRequestStep(s, p, e.secret, start, k, last, w);
      if Step(s, e).1 == Sent { k', last' := k + 1, s.now; }
    } else if e.Verify? && e.phone == p {
      SpentVerifyStep(s, p, e.guess, e.commits, start, k, last, w);
    } else {
      SpentElsewhere(s, e, p, start, k, last, w);
    }
  }

  lemma {:induction false} SpentRun(s: Table, es: seq<Event>, p: nat) returns (k: nat, last: int)
    requires Inv(s) && CodesOf(s, p) == [] && NeverAccepted(s, es, p)
    ensures Spent(CodesOf(Run(s, es), p), Run(s, es).now, s.now, k, last, Wrongs(s, es, p))
  {
    if es == [] {
      k, last := 0, s.now;
    } else {
      k, last := SpentRun(s, Front(es), p);
      RunInv(s, Front(es));
      k, last := SpentStep(Run(s, Front(es)), Last(es), p, s.now, k, last, Wrongs(s, Front(es), p));
    }
  }

  /** How many wrong guesses fit into a time: five for each code, one code a minute. */
  function Budget(elapsed: nat): nat {
    MAX_ATTEMPTS * (1 + elapsed / COOLDOWN)
  }

  lemma {:induction false} ClockRuns(s: Table, es: seq<Event>)
    ensures s.now <= Run(s, es).now
  {
    if es != [] { ClockRuns(s, Front(es)); }
  }

  /** A guessing run of length T without a success records at most 5 * (1 + floor(T / 60 s)) wrong guesses. */
  lemma {:induction false} GuessBudget(s: Table, es: seq<Event>, p: nat)
    requires Inv(s) && CodesOf(s, p) == [] && NeverAccepted(s, es, p)
    ensures s.now <= Run(s, es).now
    ensures Wrongs(s, es, p) <= Budget(Run(s, es).now - s.now)
  {
    var k, last := SpentRun(s, es, p);
    ClockRuns(s, es);
    SpentBound(CodesOf(Run(s, es), p), Run(s, es).now, s.now, k, last, Wrongs(s, es, p));
  }

  lemma SpentBound(cs: seq<Code>, now: int, start: int, k: nat, last: int, w: nat)
    requires start <= now && Spent(cs, now, start, k, last, w)
    ensures w <= Budget(now - start)
  {
    if k > 0 { QuotientBound(k - 1, COOLDOWN, now - start); }
  }

  lemma UsedCode(s: Table, p: nat, guess: nat)
    requires Inv(s) && Step(s, Verify(p, guess, true)).1 == Accepted
    ensures CodesOf(s, p) != []
    ensures var s' := Step(s, Verify(p, guess, true)).0;
            s'.now == s.now && CodesOf(s', p) == Front(CodesOf(s, p)) && RowsOk(CodesOf(s', p), s.now)
  {
    VerifyShape(CodesOf(s, p), s.now, guess, true);
  }

  /** A success deletes only the newest code: the one before it decides the next verification. */
  lemma OlderCodeReturns(s: Table, p: nat, guess: nat, guess': nat)
    requires Inv(s) && |CodesOf(s, p)| >= 2
    requires Step(s, Verify(p, guess, true)).1 == Accepted
    ensures var s' := Step(s, Verify(p, guess, true)).0;
            var older := CodesOf(s, p)[|CodesOf(s, p)| - 2];
            Step(s', Verify(p, guess', true)).1 == Accepted <==>
            older.secret == guess' && older.expiresAt >= s.now && older.attempts < MAX_ATTEMPTS
  {
    UsedCode(s, p, guess);
    VerifyShape(Front(CodesOf(s, p)), s.now, guess', true);
  }

  lemma FirstRequest(s: Table, p: nat, a: nat)
    requires CodesOf(s, p) == []
    ensures var (s', o) := Step(s, Request(p, a));
            o == Sent && s'.now == s.now && CodesOf(s', p) == [Code(a, s.now, s.now + TTL, 0)]
  {
  }

  lemma SecondRequest(s: Table, p: nat, b: nat, c: Code)
    requires CodesOf(s, p) == [c] && s.now - c.createdAt >= COOLDOWN
    ensures var (s', o) := Step(s, Request(p, b));
            o == Sent && s'.now == s.now && CodesOf(s', p) == [c, Code(b, s.now, s.now + TTL, 0)]
  {
    assert Newest([c]) == 0;
  }

  /** With two usable codes a minute apart, both are accepted, the newer first. */
  lemma BothAccepted(s: Table, p: nat, c: Code, d: Code)
    requires CodesOf(s, p) == [c, d] && RowsOk([c, d], s.now)
    requires c.attempts == 0 && d.attempts == 0 && c.expiresAt >= s.now && d.expiresAt >= s.now
    ensures var (s', o) := Step(s, Verify(p, d.secret, true));
            o == Accepted && Step(s', Verify(p, c.secret, true)).1 == Accepted
  {
    VerifyShape([c, d], s.now, d.secret, true);
    assert Front([c, d]) == [c] && Last([c, d]) == d;
    VerifyShape([c], s.now, c.secret, true);
  }

  lemma TickKeepsCodes(s: Table, ms: nat, p: nat)
    ensures var s' := Step(s, Tick(ms)).0;
            CodesOf(s', p) == CodesOf(s, p) && s'.now == s.now + ms
  {
  }

  lemma TwoRequests(s0: Table, s1: Table, s2: Table, s3: Table, p: nat, a: nat, b: nat)
    requires s0.codes == map[] && s1 == Step(s0, Request(p, a)).0
    requires s2 == Step(s1, Tick(COOLDOWN)).0 && s3 == Step(s2, Request(p, b)).0
    ensures s3.now == s0.now + COOLDOWN
    ensures CodesOf(s3, p) == [Code(a, s0.now, s0.now + TTL, 0), Code(b, s3.now, s3.now + TTL, 0)]
  {
    FirstRequest(s0, p, a);
    TickKeepsCodes(s1, COOLDOWN, p);
    SecondRequest(s2, p, b, Code(a, s0.now, s0.now + TTL, 0));
  }

  /** It does happen, from an empty table: two codes requested a minute apart are both accepted. */
  lemma TwoCodesAccepted(s0: Table, s1: Table, s2: Table, s3: Table, s4: Table, p: nat, a: nat, b: nat)
    requires s0.codes == map[] && s1 == Step(s0, Request(p, a)).0
    requires s2 == Step(s1, Tick(COOLDOWN)).0 && s3 == Step(s2, Request(p, b)).0
    requires s4 == Step(s3, Verify(p, b, true)).0
    ensures Step(s3, Verify(p, b, true)).1 == Accepted && Step(s4, Verify(p, a, true)).1 == Accepted
  {
    TwoRequests(s0, s1, s2, s3, p, a, b);
    BothAccepted(s3, p, CodesOf(s3, p)[0], CodesOf(s3, p)[1]);
  }

  // ---------------------------------------------------------------- cleanup is unobservable

  /** `a` is `b` without some rows that expired long ago. */
  ghost predicate Trimmed(a: seq<Code>, b: seq<Code>, now: int) {
    && |a| <= |b|
    && (forall i :: 0 <= i < |a| ==> a[i] == b[|b| - |a| + i])
    && (forall i :: 0 <= i < |b| - |a| ==> b[i].createdAt < now - TTL)
  }

  ghost predicate TrimmedAt(a: Table, b: Table, p: nat) {
    Trimmed(CodesOf(a, p), CodesOf(b, p), a.now)
  }

  ghost predicate TrimmedTables(a: Table, b: Table) {
    a.now == b.now && forall p :: TrimmedAt(a, b, p)
  }

  ghost predicate Related(a: Table, b: Table) {
    Inv(a) && Inv(b) && TrimmedTables(a, b)
  }

  lemma TrimmedLast(a: seq<Code>, b: seq<Code>, now: int)
    requires Trimmed(a, b, now) && b != []
    ensures a == [] ==> Last(b).createdAt < now - TTL
    ensures a != [] ==> Last(a) == Last(b) && Trimmed(Front(a), Front(b), now)
  {
  }

  lemma TrimmedAppend(a: seq<Code>, b: seq<Code>, now: int, c: Code)
    requires Trimmed(a, b, now)
    ensures Trimmed(a + [c], b + [c], now)
  {
  }

  lemma TrimmedRequest(a: seq<Code>, b: seq<Code>, now: int, secret: nat)
    requires Trimmed(a, b, now)
    ensures RequestLast(a, now, secret).1 == RequestLast(b, now, secret).1
    ensures Trimmed(RequestLast(a, now, secret).0, RequestLast(b, now, secret).0, now)
  {
    if b != [] { TrimmedLast(a, b, now); }
    TrimmedAppend(a, b, now, Code(secret, now, now + TTL, 0));
  }

  lemma TrimmedVerify(a: seq<Code>, b: seq<Code>, now: int, guess: nat, commits: bool)
    requires Trimmed(a, b, now)
    requires b != [] ==> Last(b).expiresAt == Last(b).createdAt + TTL
    ensures VerifyLast(a, now, guess, commits).1 == VerifyLast(b, now, guess, commits).1
    ensures Trimmed(VerifyLast(a, now, guess, commits).0, VerifyLast(b, now, guess, commits).0, now)
  {
    if b != [] {
      TrimmedLast(a, b, now);
      if a != [] {
        TrimmedAppend(Front(a), Front(b), now, Last(a).(attempts := Last(a).attempts + 1));
      }
    }
  }

  lemma OtherPhonesStay(s: Table, e: Event, q: nat)
    requires e.Request? || e.Verify?
    requires q != e.phone
    ensures CodesOf(Step(s, e).0, q) == CodesOf(s, q)
  {
  }

  lemma RelatedRows(a: Table, b: Table, e: Event, q: nat)
    requires e.Request? || e.Verify?
    requires TrimmedAt(a, b, q)
    requires Trimmed(CodesOf(Step(a, e).0, e.phone), CodesOf(Step(b, e).0, e.phone), a.now)
    ensures TrimmedAt(Step(a, e).0, Step(b, e).0, q)
  {
    NowStays(a, e);
    if q != e.phone {
      OtherPhonesStay(a, e, q);
      OtherPhonesStay(b, e, q);
    }
  }

  lemma NowStays(s: Table, e: Event)
    requires e.Request? || e.Verify?
    ensures Step(s, e).0.now == s.now
  {
  }

  lemma TrimmedCall(a: Table, b: Table, e: Event)
    requires TrimmedTables(a, b) && (e.Request? || e.Verify?)
    requires Trimmed(CodesOf(Step(a, e).0, e.phone), CodesOf(Step(b, e).0, e.phone), a.now)
    ensures TrimmedTables(Step(a, e).0, Step(b, e).0)
  {
    NowStays(a, e);
    NowStays(b, e);
    forall q
      ensures TrimmedAt(Step(a, e).0, Step(b, e).0, q)
    {
      RelatedRows(a, b, e, q);
    }
  }

  lemma TrimmedLater(a: seq<Code>, b: seq<Code>, now: int, ms: nat)
    requires Trimmed(a, b, now)
    ensures Trimmed(a, b, now + ms)
  {
  }

  lemma TrimmedTick(a: Table, b: Table, ms: nat)
    requires TrimmedTables(a, b)
    ensures TrimmedTables(Step(a, Tick(ms)).0, Step(b, Tick(ms)).0)
  {
    forall q
      ensures TrimmedAt(Step(a, Tick(ms)).0, Step(b, Tick(ms)).0, q)
    {
      TrimmedTickAt(a, b, ms, q);
    }
  }

  lemma TrimmedTickAt(a: Table, b: Table, ms: nat, q: nat)
    requires TrimmedAt(a, b, q)
    ensures TrimmedAt(Step(a, Tick(ms)).0, Step(b, Tick(ms)).0, q)
  {
    TickKeepsCodes(a, ms, q);
    TickKeepsCodes(b, ms, q);
    TrimmedLater(CodesOf(a, q), CodesOf(b, q), a.now, ms);
  }

  /** Every call answers the same in related tables and leaves them related. */
  lemma RelatedStep(a: Table, b: Table, e: Event)
    requires Related(a, b) && !e.Cleanup?
    ensures Step(a, e).1 == Step(b, e).1
    ensures Related(Step(a, e).0, Step(b, e).0)
  {
    StepInv(a, e);
    StepInv(b, e);
    match e {
      case Request(p, secret) =>
        assert TrimmedAt(a, b, p);
        RequestShape(CodesOf(a, p), a.now, secret);
        RequestShape(CodesOf(b, p), b.now, secret);
        TrimmedRequest(CodesOf(a, p), CodesOf(b, p), a.now, secret);
        TrimmedCall(a, b, e);
      case Verify(p, guess, commits) =>
        assert TrimmedAt(a, b, p);
        VerifyShape(CodesOf(a, p), a.now, guess, commits);
        VerifyShape(CodesOf(b, p), b.now, guess, commits);
        TrimmedVerify(CodesOf(a, p), CodesOf(b, p), a.now, guess, commits);
        TrimmedCall(a, b, e);
      case Tick(ms) =>
        TrimmedTick(a, b, ms);
    }
  }

  lemma TrimmedSuffix(a: seq<Code>, b: seq<Code>, now: int, k: nat)
    requires Trimmed(a, b, now) && k <= |a|
    requires forall i :: 0 <= i < k ==> a[i].createdAt < now - TTL
    ensures Trimmed(a[k..], b, now)
  {
    var d := |b| - |a|;
    forall i | 0 <= i < d + k
      ensures b[i].createdAt < now - TTL
    {
      if i >= d { assert b[i] == a[i - d]; }
    }
  }

  lemma RelatedCleanup(a: Table, b: Table)
    requires Related(a, b)
    ensures Related(CleanupStep(a), b)
  {
    CleanupInv(a);
    forall p
      ensures TrimmedAt(CleanupStep(a), b, p)
    {
      CleanupKeeps(a, b, p);
    }
  }

  lemma CleanupKeeps(a: Table, b: Table, p: nat)
    requires Inv(a) && TrimmedTables(a, b)
    ensures TrimmedAt(CleanupStep(a), b, p)
  {
    var ca := CodesOf(a, p);
    assert TrimmedAt(a, b, p);
    var k := KeepIsSuffix(ca, a.now - TTL, a.now);
    assert CodesOf(CleanupStep(a), p) == ca[k..];
    TrimmedSuffix(ca, CodesOf(b, p), a.now, k);
  }

  function WithoutCleanup(es: seq<Event>): seq<Event> {
    if es == [] then []
    else WithoutCleanup(Front(es)) + if Last(es).Cleanup? then [] else [Last(es)]
  }

  /** The answers a caller sees, in order. */
  function Answers(s: Table, es: seq<Event>): seq<Outcome> {
    if es == [] then []
    else Answers(s, Front(es)) + if Last(es).Cleanup? then [] else [LastAnswer(s, es)]
  }

  lemma WithoutCleanupLast(s: Table, es: seq<Event>)
    requires es != [] && !Last(es).Cleanup?
    ensures var w := WithoutCleanup(es);
            && w != [] && Front(w) == WithoutCleanup(Front(es)) && Last(w) == Last(es)
            && Run(s, w) == Step(Run(s, Front(w)), Last(es)).0
            && LastAnswer(s, w) == Step(Run(s, Front(w)), Last(es)).1
  {
  }

  /** Deleting old rows at arbitrary moments changes no answer of any later request or verification. */
  lemma {:induction false} CleanupUnobservable(s: Table, es: seq<Event>)
    requires Inv(s)
    ensures Answers(s, es) == Answers(s, WithoutCleanup(es))
    ensures Related(Run(s, es), Run(s, WithoutCleanup(es)))
  {
    if es != [] {
      CleanupUnobservable(s, Front(es));
      var a, b := Run(s, Front(es)), Run(s, WithoutCleanup(Front(es)));
      if Last(es).Cleanup? {
        RelatedCleanup(a, b);
        assert WithoutCleanup(es) == WithoutCleanup(Front(es));
        assert Answers(s, es) == Answers(s, Front(es));
      } else {
        RelatedStep(a, b, Last(es));
        WithoutCleanupLast(s, es);
        assert Answers(s, es) == Answers(s, Front(es)) + [LastAnswer(s, es)];
      }
    }
  }

  // ---------------------------------------------------------------- every answer, from the answers before it

  /** A code that was sent and not used up: what it is, when it was sent, and the wrong guesses it has seen. */
  datatype Sending = Sending(secret: nat, sentAt: int, wrongs: nat)

  /** The codes left after a verification of the last one. */
  function Verified(h: seq<Sending>, o: Outcome): seq<Sending>
    requires h != []
  {
    if o.Wrong? then Front(h) + [Last(h).(wrongs := Last(h).wrongs + 1)]
    else if o.Accepted? then Front(h) else h
  }

  /** What the answers so far amount to for a phone: the codes sent and not accepted yet, oldest first. */
  function History(s: Table, es: seq<Event>, p: nat): seq<Sending> {
    if es == [] then []
    else
      var h, z, e := History(s, Front(es), p), Run(s, Front(es)), Last(es);
      var o := Step(z, e).1;
      if e.Request? && e.phone == p && o.Sent? then h + [Sending(e.secret, z.now, 0)]
      else if e.Verify? && e.phone == p && h != [] then Verified(h, o)
      else h
  }

  /** The rows these codes would be, if none were ever cleaned up. */
  function RowsFor(h: seq<Sending>): seq<Code> {
    seq(|h|, i requires 0 <= i < |h| => Code(h[i].secret, h[i].sentAt, h[i].sentAt + TTL, h[i].wrongs))
  }

  ghost predicate Matches(z: Table, h: seq<Sending>, p: nat) {
    Trimmed(CodesOf(z, p), RowsFor(h), z.now)
  }

  lemma RowsForLast(h: seq<Sending>, x: Sending)
    ensures RowsFor(h + [x]) == RowsFor(h) + [Code(x.secret, x.sentAt, x.sentAt + TTL, x.wrongs)]
    ensures h != [] ==> RowsFor(Front(h)) == Front(RowsFor(h))
  {
  }

  /** A code was sent less than a minute ago and has not been used up. */
  predicate Recent(h: seq<Sending>, now: int) {
    h != [] && now - Last(h).sentAt < 60 * 1000
  }

  lemma RequestOnRows(h: seq<Sending>, now: int, secret: nat)
    ensures var (cs, o) := RequestLast(RowsFor(h), now, secret);
            && o == (if Recent(h, now) then TooSoon else Sent)
            && cs == RowsFor(if o.Sent? then h + [Sending(secret, now, 0)] else h)
  {
    if h != [] { assert Last(RowsFor(h)).createdAt == Last(h).sentAt; }
    RowsForLast(h, Sending(secret, now, 0));
  }

  lemma MatchesRequest(z: Table, h: seq<Sending>, p: nat, secret: nat)
    requires Inv(z) && Matches(z, h, p)
    ensures var (z', o) := Step(z, Request(p, secret));
            && o == (if Recent(h, z.now) then TooSoon else Sent)
            && Matches(z', if o.Sent? then h + [Sending(secret, z.now, 0)] else h, p)
  {
    RequestShape(CodesOf(z, p), z.now, secret);
    TrimmedRequest(CodesOf(z, p), RowsFor(h), z.now, secret);
    RequestOnRows(h, z.now, secret);
  }

  /** The code that was sent last and not accepted yet is at most five minutes old. */
  predicate Usable(h: seq<Sending>, now: int) {
    h != [] && now - Last(h).sentAt <= 5 * 60 * 1000
  }

  /** What a verification answers when `h` are the codes sent and not accepted yet. */
  function Verdict(h: seq<Sending>, now: int, guess: nat, commits: bool): Outcome {
    if !Usable(h, now) then Expired
    else if Last(h).wrongs >= 5 then Exhausted
    else if Last(h).secret != guess then Wrong
    else if commits then Accepted else Conflict
  }

  lemma VerdictOnRows(h: seq<Sending>, now: int, guess: nat, commits: bool)
    ensures VerifyLast(RowsFor(h), now, guess, commits).1 == Verdict(h, now, guess, commits)
  {
    if h != [] {
      assert Last(RowsFor(h)) == Code(Last(h).secret, Last(h).sentAt, Last(h).sentAt + TTL, Last(h).wrongs);
    }
  }

  lemma VerifiedRows(h: seq<Sending>, now: int, guess: nat, commits: bool)
    requires h != []
    ensures var (cs, o) := VerifyLast(RowsFor(h), now, guess, commits); cs == RowsFor(Verified(h, o))
  {
    RowsForLast(h, Last(h));
    RowsForLast(Front(h), Last(h).(wrongs := Last(h).wrongs + 1));
  }

  lemma MatchesVerify(z: Table, h: seq<Sending>, p: nat, guess: nat, commits: bool)
    requires Inv(z) && Matches(z, h, p)
    ensures var (z', o) := Step(z, Verify(p, guess, commits));
            && o == Verdict(h, z.now, guess, commits)
            && Matches(z', if h == [] then h else Verified(h, o), p)
  {
    VerifyShape(CodesOf(z, p), z.now, guess, commits);
    TrimmedVerify(CodesOf(z, p), RowsFor(h), z.now, guess, commits);
    VerdictOnRows(h, z.now, guess, commits);
    if h != [] { VerifiedRows(h, z.now, guess, commits); }
  }

  lemma MatchesCleanup(z: Table, h: seq<Sending>, p: nat)
    requires Inv(z) && Matches(z, h, p)
    ensures Matches(CleanupStep(z), h, p)
  {
    var k := KeepIsSuffix(CodesOf(z, p), z.now - TTL, z.now);
    assert CodesOf(CleanupStep(z), p) == CodesOf(z, p)[k..];
    TrimmedSuffix(CodesOf(z, p), RowsFor(h), z.now, k);
  }

  lemma MatchesElsewhere(z: Table, h: seq<Sending>, e: Event, p: nat)
    requires Inv(z) && Matches(z, h, p)
    requires e.Request? || e.Verify? ==> e.phone != p
    ensures Matches(Step(z, e).0, h, p)
  {
    if e.Request? || e.Verify? {
      OtherPhonesStay(z, e, p);
      NowStays(z, e);
    } else if e.Tick? {
      TickKeepsCodes(z, e.ms, p);
      TrimmedLater(CodesOf(z, p), RowsFor(h), z.now, e.ms);
    } else {
      MatchesCleanup(z, h, p);
    }
  }

  lemma {:induction false} HistoryMatches(s: Table, es: seq<Event>, p: nat)
    requires Inv(s) && CodesOf(s, p) == []
    ensures Matches(Run(s, es), History(s, es, p), p)
  {
    if es != [] {
      var z, h, e := Run(s, Front(es)), History(s, Front(es), p), Last(es);
      HistoryMatches(s, Front(es), p);
      RunInv(s, Front(es));
      if e.Request? && e.phone == p {
        MatchesRequest(z, h, p, e.secret);
      } else if e.Verify? && e.phone == p {
        MatchesVerify(z, h, p, e.guess, e.commits);
      } else {
        MatchesElsewhere(z, h, e, p);
      }
    }
  }

  /**
   * Over every run, with cleanups anywhere: a code is sent unless the last one that was not used up was
   * sent less than a minute ago.
   */
  lemma RequestsExactly(s: Table, es: seq<Event>, p: nat, secret: nat)
    requires Inv(s) && CodesOf(s, p) == []
    ensures var z := Run(s, es);
            Step(z, Request(p, secret)).1 == if Recent(History(s, es, p), z.now) then TooSoon else Sent
  {
    HistoryMatches(s, es, p);
    RunInv(s, es);
    MatchesRequest(Run(s, es), History(s, es, p), p, secret);
  }

  /**
   * And a verification is decided by that last code alone: whether it is at most five minutes old, has
   * seen fewer than five wrong guesses, and is the one given.
   */
  lemma VerificationsExactly(s: Table, es: seq<Event>, p: nat, guess: nat, commits: bool)
    requires Inv(s) && CodesOf(s, p) == []
    ensures var z, h := Run(s, es), History(s, es, p);
            Step(z, Verify(p, guess, commits)).1 == Verdict(h, z.now, guess, commits)
  {
    HistoryMatches(s, es, p);
    RunInv(s, es);
    MatchesVerify(Run(s, es), History(s, es, p), p, guess, commits);
  }

  /** A cleanup leaves of every phone's codes exactly those created in the last five minutes, in order. */
  lemma CleanupExactly(s: Table, p: nat)
    ensures KeptOf(CodesOf(s, p), CodesOf(Step(s, Cleanup).0, p), (c: Code) => s.now - c.createdAt <= 5 * 60 * 1000)
  {
    var cutoff := s.now - TTL;
    FilterKeeps((c: Code) => c.createdAt >= cutoff, CodesOf(s, p));
    KeptAlike(CodesOf(s, p), Keep(CodesOf(s, p), cutoff),
              (c: Code) => c.createdAt >= cutoff, (c: Code) => s.now - c.createdAt <= 5 * 60 * 1000);
    assert CodesOf(CleanupStep(s), p) == Keep(CodesOf(s, p), cutoff);
  }
}
