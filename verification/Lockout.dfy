/**
 * The password lock of one account: five wrong passwords lock it for fifteen minutes.
 * Logins interleave with the cleanup job, with code logins (which clear the lock) and with time.
 */
module Lockout {
  import opened Base
  import opened Spacing
  import opened Arithmetic

  const MAX_FAILED: nat := 5
  const DURATION: nat := 900_000

  datatype Account = Account(failed: nat, lockedUntil: Option<int>)

  datatype State = State(account: Account, now: int)

  datatype Event =
    | Login(valid: bool)
    | CodeLogin            // verifyLoginOtp accepted a code
    | Cleanup
    | Tick(ms: nat)

  datatype Outcome = Done | Locked | Wrong | Success

  predicate IsLocked(a: Account, now: int) {
    a.lockedUntil.Some? && a.lockedUntil.value > now
  }

  function LoginStep(a: Account, now: int, valid: bool): (Account, Outcome) {
    if IsLocked(a, now) then (a, Locked)
    else if !valid then
      var n := a.failed + 1;
      (Account(n, if n >= MAX_FAILED then Some(now + DURATION) else a.lockedUntil), Wrong)
    else (if a.failed > 0 then Account(0, None) else a, Success)
  }

  /** `updateMany({ lockedUntil: { lt: now } }, { failedLoginAttempts: 0, lockedUntil: null })` */
  function UnlockExpired(a: Account, now: int): Account {
    if a.lockedUntil.Some? && a.lockedUntil.value < now then Account(0, None) else a
  }

  function Step(s: State, e: Event): (State, Outcome) {
    match e
    case Login(valid) =>
      var r := LoginStep(s.account, s.now, valid);
      (s.(account := r.0), r.1)
    case CodeLogin => (s.(account := Account(0, None)), Success)
    case Cleanup => (s.(account := UnlockExpired(s.account, s.now)), Done)
    case Tick(ms) => (s.(now := s.now + ms), Done)
  }

  function Run(s: State, es: seq<Event>): State {
    if es == [] then s else Step(Run(s, Front(es)), Last(es)).0
  }

  function Answer(s: State, es: seq<Event>, i: nat): Outcome
    requires i < |es|
  {
    Step(Run(s, es[..i]), es[i]).1
  }

  /** The counter has reached the limit exactly when a lock was set (it may have run out since). */
  predicate Ok(a: Account) {
    a.failed >= MAX_FAILED <==> a.lockedUntil.Some?
  }

  lemma {:induction false} RunOk(s: State, es: seq<Event>)
    requires Ok(s.account)
    ensures Ok(Run(s, es).account) && s.now <= Run(s, es).now
  {
    if es != [] { RunOk(s, Front(es)); }
  }

  // ---------------------------------------------------------------- theorems

  /** The lock set at moment `at` is still the account's lock. */
  ghost predicate LockedSince(s: State, at: int) {
    s.account.lockedUntil == Some(at + DURATION)
  }

  lemma LockStep(s: State, e: Event, at: int)
    requires Step(s, e).0.now < at + DURATION && !e.CodeLogin?
    ensures s.now < at + DURATION
    ensures LockedSince(s, at) ==> LockedSince(Step(s, e).0, at)
  {
  }

  lemma {:induction false} LockHolds(s: State, es: seq<Event>, i: nat, j: nat)
    requires i < j <= |es|
    requires LockedSince(Run(s, es[..i + 1]), Run(s, es[..i]).now)
    requires Run(s, es[..j]).now < Run(s, es[..i]).now + DURATION
    requires forall k :: i < k < j ==> !es[k].CodeLogin?
    ensures LockedSince(Run(s, es[..j]), Run(s, es[..i]).now)
    decreases j
  {
    if i + 1 < j {
      var at := Run(s, es[..i]).now;
      TakeFront(es, j - 1);
      LockStep(Run(s, es[..j - 1]), es[j - 1], at);
      LockHolds(s, es, i, j - 1);
    }
  }

  /**
   * The wrong password that reaches the limit locks the account: until fifteen minutes later every
   * login is turned away without looking at its password, unless a code login clears the lock.
   */
  lemma NothingEvaluatedWhileLocked(s: State, es: seq<Event>, i: nat, j: nat)
    requires i < j < |es|
    requires es[i].Login? && Answer(s, es, i) == Wrong && Run(s, es[..i + 1]).account.failed >= MAX_FAILED
    requires Run(s, es[..j]).now < Run(s, es[..i]).now + DURATION
    requires forall k :: i < k < j ==> !es[k].CodeLogin?
    requires es[j].Login?
    ensures Answer(s, es, j) == Locked && Run(s, es[..j + 1]) == Run(s, es[..j])
  {
    TakeFront(es, i);
    LockHolds(s, es, i, j);
    TakeFront(es, j);
  }

  function Tally(s: State, e: Event): nat {
    if Step(s, e).1 == Wrong then 1 else 0
  }

  /** Wrong passwords evaluated along a run. */
  function Wrongs(s: State, es: seq<Event>): nat {
    if es == [] then 0 else Wrongs(s, Front(es)) + Tally(Run(s, Front(es)), Last(es))
  }

  ghost predicate NoSuccess(s: State, es: seq<Event>) {
    es == [] || (NoSuccess(s, Front(es)) && Step(Run(s, Front(es)), Last(es)).1 != Success)
  }

  /** `k` locks were set so far, the last one at `last`; each lock stands for five wrong passwords. */
  ghost predicate Spent(s: State, start: int, k: nat, last: int, w: nat) {
    var a := s.account;
    && (k == 0 ==> w <= if a.failed >= MAX_FAILED then 0 else a.failed)
    && (k == 0 && a.failed >= MAX_FAILED ==> a.lockedUntil.Some? && a.lockedUntil.value <= start)
    && (k > 0 ==> start + (k - 1) * DURATION <= last <= s.now)
    && (k > 0 && a.failed >= MAX_FAILED ==> a.lockedUntil == Some(last + DURATION) && w <= 5 * k)
    && (k > 0 && a.failed < MAX_FAILED ==> last + DURATION < s.now && w <= 5 * k + a.failed)
  }

  lemma SpentStep(s: State, e: Event, start: int, k: nat, last: int, w: nat) returns (k': nat, last': int)
    requires Ok(s.account) && start <= s.now
    requires Spent(s, start, k, last, w)
    requires Step(s, e).1 != Success
    ensures Spent(Step(s, e).0, start, k', last', w + Tally(s, e))
  {
    k', last' := k, last;
    if e.Login? && Step(s, e).1 == Wrong && s.account.failed + 1 >= MAX_FAILED {
      k', last' := k + 1, s.now;
    }
  }

  /** Wrong passwords that already count towards the next lock. */
  function Carried(a: Account): nat {
    if a.failed >= MAX_FAILED then 0 else a.failed
  }

  lemma {:induction false} SpentRun(s: State, es: seq<Event>) returns (k: nat, last: int)
    requires Ok(s.account) && !IsLocked(s.account, s.now) && NoSuccess(s, es)
    ensures Ok(Run(s, es).account)
    ensures Spent(Run(s, es), s.now, k, last, Wrongs(s, es) + Carried(s.account))
  {
    if es == [] {
      k, last := 0, s.now;
    } else {
      var w := Wrongs(s, Front(es)) + Carried(s.account);
      k, last := SpentRun(s, Front(es));
      RunOk(s, Front(es));
      k, last := SpentStep(Run(s, Front(es)), Last(es), s.now, k, last, w);
    }
  }

  /** How many wrong passwords fit into a time: five before each lock, one lock in fifteen minutes. */
  function Budget(elapsed: nat): nat {
    MAX_FAILED * (1 + elapsed / DURATION)
  }

  /**
   * Starting unlocked, a run of length T without a successful authentication evaluates at most
   * 5 * (1 + floor(T / 15 min)) wrong passwords.
   */
  lemma {:induction false} WrongPasswordBudget(s: State, es: seq<Event>)
    requires Ok(s.account) && !IsLocked(s.account, s.now) && NoSuccess(s, es)
    ensures s.now <= Run(s, es).now
    ensures Wrongs(s, es) <= Budget(Run(s, es).now - s.now)
  {
    var k, last := SpentRun(s, es);
    RunOk(s, es);
    SpentBound(Run(s, es), s.now, k, last, Wrongs(s, es) + Carried(s.account));
  }

  /** `k` locks take `k - 1` times their duration, and one more if none is counted any more. */
  lemma SpentBound(z: State, start: int, k: nat, last: int, w: nat)
    requires Ok(z.account) && start <= z.now && Spent(z, start, k, last, w)
    ensures w <= Budget(z.now - start)
  {
    var T := z.now - start;
    if k > 0 {
      var locks := if z.account.failed < MAX_FAILED then k else k - 1;
      assert locks * DURATION <= T;
      QuotientBound(locks, DURATION, T);
    }
  }

  // ---------------------------------------------------------------- every answer, from the answers before it

  /** The wrong passwords evaluated since the last reset, and the moment of the last of them. */
  datatype Past = Past(wrongs: nat, last: int)

  /**
   * What the answers so far amount to, for an account that was new at the start. Every success resets,
   * and so does a cleanup that runs after the fifteen minutes of a lock.
   */
  function History(s: State, es: seq<Event>): Past {
    if es == [] then Past(0, 0)
    else
      var past, z, e := History(s, Front(es)), Run(s, Front(es)), Last(es);
      match Step(z, e).1
      case Wrong => Past(past.wrongs + 1, z.now)
      case Success => Past(0, 0)
      case Locked => past
      case Done => if e.Cleanup? && past.wrongs >= 5 && z.now - past.last > 15 * 60 * 1000 then Past(0, 0) else past
  }

  predicate TurnsAway(past: Past, now: int) {
    past.wrongs >= 5 && now - past.last < 15 * 60 * 1000
  }

  ghost predicate Records(a: Account, past: Past) {
    && a.failed == past.wrongs
    && a.lockedUntil == if past.wrongs >= 5 then Some(past.last + 15 * 60 * 1000) else None
  }

  lemma {:induction false} AccountRecords(s: State, es: seq<Event>)
    requires s.account == Account(0, None)
    ensures Records(Run(s, es).account, History(s, es))
  {
    if es != [] { AccountRecords(s, Front(es)); }
  }

  /**
   * Over every run: a login is turned away if and only if at least five wrong passwords have been
   * evaluated since the last success or clearing cleanup and the last of them is less than fifteen
   * minutes old. Any other login succeeds exactly with the right password. The stored counter is the
   * number of those wrong passwords.
   */
  lemma AnswersExactly(s: State, es: seq<Event>, i: nat)
    requires s.account == Account(0, None)
    requires i < |es| && es[i].Login?
    ensures var past := History(s, es[..i]);
            && Run(s, es[..i]).account.failed == past.wrongs
            && (Answer(s, es, i) == Locked <==> TurnsAway(past, Run(s, es[..i]).now))
            && (Answer(s, es, i) == Success <==> !TurnsAway(past, Run(s, es[..i]).now) && es[i].valid)
            && (Answer(s, es, i) == Wrong <==> !TurnsAway(past, Run(s, es[..i]).now) && !es[i].valid)
  {
    AccountRecords(s, es[..i]);
  }

  /** A login that succeeds, by password or code, leaves the account with all five attempts. */
  lemma SuccessResets(s: State, es: seq<Event>)
    requires s.account == Account(0, None)
    requires es != [] && Step(Run(s, Front(es)), Last(es)).1 == Success
    ensures Run(s, es).account == Account(0, None)
  {
    AccountRecords(s, es);
  }
}
