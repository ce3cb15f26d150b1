/**
  * The auth service as it is called: each method reads and updates the tables it uses. Every
  * method's contract says which steps of the session, one-time-code and lockout models one call is,
  * so that what is proved about runs of those models holds of runs of this service.
  */
module AuthService {
  import opened Base
  import Lockout
  import Otp
  import S = Sessions

  /** `phone` is unique among users, and so is `username`. */
  datatype User = User(
    phone: nat, username: nat, twoFactor: bool, banned: bool, admin: bool, account: Lockout.Account)

  datatype LoginResult =
    | UserNotFound
    | Banned
    | LockedOut
    | BadPassword
    | NeedsTwoFactor(user: nat)
    | LoggedIn(token: S.Token)

  datatype CodeResult =
    | Refused(reason: Otp.Outcome)
    | NoAccount
    | Passed
    | PassedWith(token: S.Token)

  datatype BanResult = NoSuchUser | IsAdmin | NowBanned

  datatype RequestResult = Unknown | AlreadyUsed | TooSoon | CodeSent

  class Service {
    const ttlMs: nat
    var users: map<nat, User>
    var phones: map<nat, nat>
    var usernames: set<nat>
    var rows: map<nat, S.Row>
    var codes: map<nat, seq<Otp.Code>>
    var signed: set<S.Token>
    var nextId: nat
    var now: int

    /** The phone column is a unique key of the user table. */
    ghost predicate Valid()
      reads this
    {
      && (forall p :: p in phones ==> phones[p] in users && users[phones[p]].phone == p)
      && forall u :: u in users ==> users[u].phone in phones && phones[users[u].phone] == u
    }

    ghost function SessionState(): S.Server
      reads this
    {
      S.Server(rows, users.Keys, signed, nextId, now, ttlMs)
    }

    ghost function OtpState(): Otp.Table
      reads this
    {
      Otp.Table(codes, now)
    }

    constructor (ttlMs: nat, now: int)
      ensures Valid()
      ensures SessionState() == S.Empty(ttlMs, now) && OtpState() == Otp.Table(map[], now)
    {
      this.ttlMs, this.now := ttlMs, now;
      users, phones, usernames, rows, codes, signed, nextId := map[], map[], {}, map[], map[], {}, 0;
    }

    // ---- The user table ----

    method CreateUser(u: nat, user: User)
      requires Valid() && u !in users && user.phone !in phones
      modifies `users, `phones, `usernames
      ensures Valid() && users == old(users)[u := user] && users.Keys == old(users).Keys + {u}
      ensures usernames == old(usernames) + {user.username}
    {
      users := users[u := user];
      phones := phones[user.phone := u];
      usernames := usernames + {user.username};
    }

    /** An update that leaves the phone alone. */
    method UpdateUser(u: nat, user: User)
      requires Valid() && u in users && users[u].phone == user.phone
      modifies `users
      ensures Valid() && users == old(users)[u := user] && users.Keys == old(users).Keys
    {
      users := users[u := user];
    }

    method ChangePhone(u: nat, phone: nat)
      requires Valid() && u in users && phone !in phones
      modifies `users, `phones
      ensures Valid() && users == old(users)[u := old(users)[u].(phone := phone)] && users.Keys == old(users).Keys
    {
      phones := (phones - {users[u].phone})[phone := u];
      users := users[u := users[u].(phone := phone)];
    }

    // ---- Sessions ----

    method Sign(sid: nat, user: nat) returns (t: S.Token)
      modifies `signed, `nextId
      ensures t == S.Mint(old(SessionState()), old(nextId), sid, user)
      ensures signed == old(signed) + {t} && nextId == old(nextId) + 1
    {
      t := S.Token(nextId, sid, user, now / 1000 + ttlMs / 1000);
      signed := signed + {t};
      nextId := nextId + 1;
    }

    method IssueTokens(user: nat) returns (t: S.Token)
      requires user in users
      modifies `rows, `signed, `nextId
      ensures (SessionState(), S.Issued(t)) == S.IssueStep(old(SessionState()), user)
    {
      var sid := nextId;
      nextId := nextId + 1;
      t := Sign(sid, user);
      rows := rows[sid := S.Row(t, user, now + ttlMs, None)];
    }

    method RevokeAll(user: nat)
      modifies `rows
      ensures rows == S.RevokeUser(old(rows), user, now)
    {
      rows := map sid | sid in rows ::
        if rows[sid].userId == user && rows[sid].revokedAt.None? then rows[sid].(revokedAt := Some(now)) else rows[sid];
    }

    method Refresh(t: S.Token) returns (o: S.Outcome)
      modifies `rows, `signed, `nextId
      ensures (SessionState(), o) == S.RefreshStep(old(SessionState()), t)
    {
      if t !in signed || now / 1000 >= t.expSec { return S.Unauthorized; }
      if t.sid !in rows || rows[t.sid].expiresAt < now { return S.Unauthorized; }
      var stored := rows[t.sid];
      if stored.revokedAt.Some? || stored.token != t {
        RevokeAll(t.sub);
        return S.Replay;
      }
      if t.sub !in users { return S.Unauthorized; }
      var renewed := Sign(t.sid, t.sub);
      rows := rows[t.sid := stored.(token := renewed, expiresAt := now + ttlMs)];
      o := S.Refreshed(renewed);
    }

    method Logout(t: S.Token)
      modifies `rows
      ensures SessionState() == S.Step(old(SessionState()), S.Logout(t)).0
    {
      rows := map sid | sid in rows ::
        if rows[sid].token == t && rows[sid].revokedAt.None? then rows[sid].(revokedAt := Some(now)) else rows[sid];
    }

    method RevokeSession(user: nat, sid: nat) returns (found: bool)
      modifies `rows
      ensures (SessionState(), if found then S.Done else S.NotFound)
           == S.RevokeSessionStep(old(SessionState()), user, sid)
    {
      if sid !in rows || rows[sid].userId != user || rows[sid].revokedAt.Some? { return false; }
      rows := rows[sid := rows[sid].(revokedAt := Some(now))];
      found := true;
    }

    /** The ids are read first, then revoked: together everything of the user but the current session. */
    method RevokeOtherSessions(user: nat, current: nat)
      modifies `rows
      ensures SessionState() == S.Step(old(SessionState()), S.RevokeOthers(user, current)).0
    {
      var others := set sid | sid in rows && rows[sid].userId == user && sid != current && rows[sid].revokedAt.None?;
      rows := map sid | sid in rows :: if sid in others then rows[sid].(revokedAt := Some(now)) else rows[sid];
    }

    // ---- One-time codes ----

    function Rows(phone: nat): seq<Otp.Code>
      reads this
    {
      if phone in codes then codes[phone] else []
    }

    /** The cooldown and the new row, shared by the five request calls. */
    method SendCode(phone: nat, secret: nat) returns (sent: bool)
      modifies `codes
      ensures (OtpState(), if sent then Otp.Sent else Otp.TooSoon) == Otp.RequestStep(old(OtpState()), phone, secret)
    {
      var cs := Rows(phone);
      sent := true;
      if cs != [] {
        var remaining := Otp.COOLDOWN - (now - cs[Otp.Newest(cs)].createdAt);
        sent := remaining <= 0;
      }
      if sent { cs := cs + [Otp.Code(secret, now, now + Otp.TTL, 0)]; }
      codes := codes[phone := cs];
    }

    /** The checks every verification makes before it acts; a right code is left in place. */
    method CheckCode(phone: nat, guess: nat) returns (o: Otp.Outcome)
      modifies `codes
      ensures (OtpState(), o) == Otp.VerifyStep(old(OtpState()), phone, guess, false)
    {
      var cs := Rows(phone);
      if cs == [] || cs[Otp.Newest(cs)].expiresAt < now {
        o := Otp.Expired;
      } else {
        var n := Otp.Newest(cs);
        if cs[n].attempts >= Otp.MAX_ATTEMPTS {
          o := Otp.Exhausted;
        } else if cs[n].secret != guess {
          cs := cs[n := cs[n].(attempts := cs[n].attempts + 1)];
          o := Otp.Wrong;
        } else {
          o := Otp.Conflict;
        }
      }
      codes := codes[phone := cs];
    }

    /** Deletes the row that was found to hold the right code. */
    method DeleteNewest(phone: nat)
      requires Rows(phone) != []
      modifies `codes
      ensures OtpState() == DropNewest(old(OtpState()), phone)
    {
      var cs := Rows(phone);
      var n := Otp.Newest(cs);
      codes := codes[phone := cs[..n] + cs[n + 1..]];
    }

    /** Checks a code and, if it is right, deletes its row. */
    method UseCode(phone: nat, guess: nat) returns (o: Otp.Outcome)
      modifies `codes
      ensures (OtpState(), o) == Otp.VerifyStep(old(OtpState()), phone, guess, true)
    {
      o := CheckCode(phone, guess);
      CheckThenDrop(old(OtpState()), phone, guess);
      if o.Conflict? {
        DeleteNewest(phone);
        o := Otp.Accepted;
      }
    }

    method RequestRegistrationOtp(phone: nat, secret: nat) returns (r: RequestResult)
      modifies `codes
      ensures phone in phones ==> r == AlreadyUsed && codes == old(codes)
      ensures phone !in phones ==> (OtpState(), AsOutcome(r)) == Otp.RequestStep(old(OtpState()), phone, secret)
    {
      if phone in phones { return AlreadyUsed; }
      var sent := SendCode(phone, secret);
      r := if sent then CodeSent else TooSoon;
    }

    /** requestLoginOtp and requestPasswordReset: silent for unknown phones. */
    method RequestKnownPhoneOtp(phone: nat, secret: nat) returns (r: RequestResult)
      modifies `codes
      ensures phone !in phones ==> r == Unknown && codes == old(codes)
      ensures phone in phones ==> (OtpState(), AsOutcome(r)) == Otp.RequestStep(old(OtpState()), phone, secret)
    {
      if phone !in phones { return Unknown; }
      var sent := SendCode(phone, secret);
      r := if sent then CodeSent else TooSoon;
    }

    method RequestPhoneChange(user: nat, newPhone: nat, secret: nat) returns (r: RequestResult)
      requires Valid()
      modifies `codes
      ensures user !in users ==> r == Unknown && codes == old(codes)
      ensures user in users && newPhone in phones ==> r == AlreadyUsed && codes == old(codes)
      ensures user in users && newPhone !in phones ==>
                (OtpState(), AsOutcome(r)) == Otp.RequestStep(old(OtpState()), newPhone, secret)
    {
      if user !in users { return Unknown; }
      if users[user].phone == newPhone { return AlreadyUsed; }
      if newPhone in phones { return AlreadyUsed; }
      var sent := SendCode(newPhone, secret);
      r := if sent then CodeSent else TooSoon;
    }

    /** `user` is the subject of a pending token that verified. */
    method RequestTwoFactorRecovery(user: nat, secret: nat) returns (r: RequestResult)
      modifies `codes
      ensures user !in users || !users[user].twoFactor ==> r == Unknown && codes == old(codes)
      ensures user in users && users[user].twoFactor ==>
                (OtpState(), AsOutcome(r)) == Otp.RequestStep(old(OtpState()), users[user].phone, secret)
    {
      if user !in users || !users[user].twoFactor { return Unknown; }
      var sent := SendCode(users[user].phone, secret);
      r := if sent then CodeSent else TooSoon;
    }

    /** `user` is a fresh id. A right code is kept if the phone or the name has been taken meanwhile. */
    method VerifyOtpAndRegister(phone: nat, code: nat, username: nat, user: nat) returns (r: CodeResult)
      requires Valid() && user !in users
      modifies this
      ensures Valid()
      ensures var free_ := phone !in old(phones) && username !in old(usernames);
              var v := Otp.VerifyStep(old(OtpState()), phone, code, free_);
              && OtpState() == v.0
              && (if v.1.Accepted? then
                    && r.PassedWith? && usernames == old(usernames) + {username}
                    && users == old(users)[user := User(phone, username, false, false, false, Lockout.Account(0, None))]
                    && (SessionState(), S.Issued(r.token)) ==
                         S.IssueStep(S.Step(old(SessionState()), S.Register(user)).0, user)
                  else r == Refused(v.1) && users == old(users) && usernames == old(usernames)
                       && SessionState() == old(SessionState()))
    {
      var o := CheckCode(phone, code);
      CheckThenDrop(old(OtpState()), phone, code);
      if !o.Conflict? { return Refused(o); }
      if phone in phones || username in usernames { return Refused(Otp.Conflict); }
      CreateUser(user, User(phone, username, false, false, false, Lockout.Account(0, None)));
      DeleteNewest(phone);
      var t := IssueTokens(user);
      r := PassedWith(t);
    }

    method VerifyLoginOtp(phone: nat, code: nat) returns (r: CodeResult)
      requires Valid()
      modifies `codes, `users, `rows, `signed, `nextId
      ensures Valid()
      ensures phone !in old(phones) ==>
                && r == NoAccount && OtpState() == old(OtpState())
                && SessionState() == old(SessionState()) && users == old(users)
      ensures phone in old(phones) ==>
                var u, v := old(phones)[phone], Otp.VerifyStep(old(OtpState()), phone, code, true);
                && OtpState() == v.0
                && (if v.1.Accepted? then
                      && r.PassedWith? && users == old(users)[u := old(users)[u].(account := Lockout.Account(0, None))]
                      && (SessionState(), S.Issued(r.token)) == S.IssueStep(old(SessionState()), u)
                    else r == Refused(v.1) && users == old(users) && SessionState() == old(SessionState()))
    {
      if phone !in phones { return NoAccount; }
      var u := phones[phone];
      var o := UseCode(phone, code);
      if !o.Accepted? { return Refused(o); }
      UpdateUser(u, users[u].(account := Lockout.Account(0, None)));
      var t := IssueTokens(u);
      r := PassedWith(t);
    }

    /** The update fails, and the code stays, if the account is gone or the phone has been taken. */
    method VerifyPhoneChange(user: nat, newPhone: nat, code: nat) returns (r: CodeResult)
      requires Valid()
      modifies `codes, `users, `phones
      ensures Valid()
      ensures var free_ := newPhone !in old(phones);
              var v := Otp.VerifyStep(old(OtpState()), newPhone, code, free_ && user in old(users));
              && OtpState() == v.0 && SessionState() == old(SessionState())
              && (if v.1.Accepted?
                  then r == Passed && users == old(users)[user := old(users)[user].(phone := newPhone)]
                  else users == old(users) && r == if v.1.Conflict? && free_ then NoAccount else Refused(v.1))
    {
      var o := CheckCode(newPhone, code);
      CheckThenDrop(old(OtpState()), newPhone, code);
      if !o.Conflict? { return Refused(o); }
      if newPhone in phones { return Refused(Otp.Conflict); }
      if user !in users { return NoAccount; }
      ChangePhone(user, newPhone);
      DeleteNewest(newPhone);
      r := Passed;
    }

    method RecoverTwoFactor(user: nat, code: nat) returns (r: CodeResult)
      requires Valid()
      modifies `codes, `users, `rows, `signed, `nextId
      ensures Valid()
      ensures user !in old(users) || !old(users)[user].twoFactor ==>
                && r == NoAccount && OtpState() == old(OtpState())
                && SessionState() == old(SessionState()) && users == old(users)
      ensures user in old(users) && old(users)[user].twoFactor ==>
                var v := Otp.VerifyStep(old(OtpState()), old(users)[user].phone, code, true);
                && OtpState() == v.0
                && (if v.1.Accepted? then
                      && r.PassedWith? && users == old(users)[user := old(users)[user].(twoFactor := false)]
                      && (SessionState(), S.Issued(r.token)) == S.IssueStep(old(SessionState()), user)
                    else r == Refused(v.1) && users == old(users) && SessionState() == old(SessionState()))
    {
      if user !in users || !users[user].twoFactor { return NoAccount; }
      var o := UseCode(users[user].phone, code);
      if !o.Accepted? { return Refused(o); }
      UpdateUser(user, users[user].(twoFactor := false));
      var t := IssueTokens(user);
      r := PassedWith(t);
    }

    /** A right code revokes every session of the user. */
    method ResetPassword(phone: nat, code: nat) returns (r: CodeResult)
      requires Valid()
      modifies `codes, `rows
      ensures Valid()
      ensures phone !in phones ==>
                r == NoAccount && OtpState() == old(OtpState()) && SessionState() == old(SessionState())
      ensures phone in phones ==>
                var v := Otp.VerifyStep(old(OtpState()), phone, code, true);
                && OtpState() == v.0
                && (if v.1.Accepted?
                    then r == Passed
                         && SessionState() == S.Step(old(SessionState()), S.RevokeAll(phones[phone], S.PasswordReset)).0
                    else r == Refused(v.1) && SessionState() == old(SessionState()))
    {
      if phone !in phones { return NoAccount; }
      var o := UseCode(phone, code);
      if !o.Accepted? { return Refused(o); }
      RevokeAll(phones[phone]);
      r := Passed;
    }

    // ---- Passwords ----

    /** `valid` says whether the password matches the stored hash. */
    method Login(phone: nat, valid: bool) returns (r: LoginResult)
      requires Valid()
      modifies `users, `rows, `signed, `nextId
      ensures Valid() && OtpState() == old(OtpState())
      ensures phone !in old(phones) ==>
                r == UserNotFound && users == old(users) && SessionState() == old(SessionState())
      ensures phone in old(phones) ==>
                var u := old(phones)[phone];
                var (a, o) := Lockout.LoginStep(old(users)[u].account, now, valid);
                if old(users)[u].banned then r == Banned && users == old(users) && SessionState() == old(SessionState())
                else
                  && users == old(users)[u := old(users)[u].(account := a)]
                  && (o.Locked? <==> r == LockedOut) && (o.Wrong? <==> r == BadPassword)
                  && (if o.Success? && !old(users)[u].twoFactor
                      then r.LoggedIn? && (SessionState(), S.Issued(r.token)) == S.IssueStep(old(SessionState()), u)
                      else SessionState() == old(SessionState()) && (o.Success? ==> r == NeedsTwoFactor(u)))
    {
      if phone !in phones { return UserNotFound; }
      var u := phones[phone];
      var user := users[u];
      if user.banned { return Banned; }
      var a := user.account;
      if a.lockedUntil.Some? && a.lockedUntil.value > now {
        assert users == old(users)[u := old(users)[u].(account := a)];
        return LockedOut;
      }
      if !valid {
        var attempts := a.failed + 1;
        var until := if attempts >= Lockout.MAX_FAILED then Some(now + Lockout.DURATION) else a.lockedUntil;
        UpdateUser(u, user.(account := Lockout.Account(attempts, until)));
        return BadPassword;
      }
      UpdateUser(u, user.(account := if a.failed > 0 then Lockout.Account(0, None) else a));
      if user.twoFactor { return NeedsTwoFactor(u); }
      var t := IssueTokens(u);
      r := LoggedIn(t);
    }

    /** `user` is the subject of a pending token that verified, `valid` the answer to the cloud password. */
    method VerifyTwoFactor(user: nat, valid: bool) returns (r: CodeResult)
      modifies `rows, `signed, `nextId
      ensures if user in users && users[user].twoFactor && valid
              then r.PassedWith? && (SessionState(), S.Issued(r.token)) == S.IssueStep(old(SessionState()), user)
              else !r.PassedWith? && SessionState() == old(SessionState())
    {
      if user !in users || !users[user].twoFactor { return NoAccount; }
      if !valid { return Refused(Otp.Wrong); }
      var t := IssueTokens(user);
      r := PassedWith(t);
    }

    // ---- Administration and cleanup ----

    /** Administrators cannot be banned. */
    method BanUser(user: nat) returns (r: BanResult)
      requires Valid()
      modifies `users, `rows
      ensures Valid()
      ensures r == if user !in old(users) then NoSuchUser else if old(users)[user].admin then IsAdmin else NowBanned
      ensures !r.NowBanned? ==> users == old(users) && SessionState() == old(SessionState())
      ensures r.NowBanned? ==>
                && users == old(users)[user := old(users)[user].(banned := true)]
                && SessionState() == S.Step(old(SessionState()), S.RevokeAll(user, S.Ban)).0
    {
      if user !in users { return NoSuchUser; }
      if users[user].admin { return IsAdmin; }
      UpdateUser(user, users[user].(banned := true));
      RevokeAll(user);
      r := NowBanned;
    }

    method DeleteDeadTokens()
      modifies `rows
      ensures rows == S.DropDead(old(rows), now)
    {
      rows := map sid | sid in rows && !(rows[sid].expiresAt < now || rows[sid].revokedAt.Some?) :: rows[sid];
    }

    method DeleteOldCodes()
      modifies `codes
      ensures OtpState() == Otp.CleanupStep(old(OtpState()))
    {
      codes := map p | p in codes :: Otp.Keep(codes[p], now - Otp.TTL);
    }

    method UnlockUsers()
      requires Valid()
      modifies `users
      ensures Valid() && users.Keys == old(users).Keys
      ensures forall u :: u in users ==>
                users[u] == old(users)[u].(account := Lockout.UnlockExpired(old(users)[u].account, now))
    {
      users := map u | u in users ::
        if users[u].account.lockedUntil.Some? && users[u].account.lockedUntil.value < now
        then users[u].(account := Lockout.Account(0, None)) else users[u];
    }

    /** The cleanup job: the parts of it that touch sessions, codes and locks. */
    method CleanUp()
      requires Valid()
      modifies `rows, `codes, `users
      ensures Valid()
      ensures SessionState() == S.Step(old(SessionState()), S.Cleanup).0
      ensures OtpState() == Otp.CleanupStep(old(OtpState()))
      ensures users.Keys == old(users).Keys
      ensures forall u :: u in users ==>
                users[u] == old(users)[u].(account := Lockout.UnlockExpired(old(users)[u].account, now))
    {
      DeleteDeadTokens();
      DeleteOldCodes();
      UnlockUsers();
    }

    method Tick(ms: nat)
      modifies `now
      ensures SessionState() == S.Step(old(SessionState()), S.Tick(ms)).0
      ensures OtpState() == Otp.Step(old(OtpState()), Otp.Tick(ms)).0
    {
      now := now + ms;
    }
  }

  /** Without the newest code of a phone. */
  function DropNewest(s: Otp.Table, phone: nat): Otp.Table {
    var cs := Otp.CodesOf(s, phone);
    if cs == [] then s
    else Otp.WithCodes(s, phone, cs[..Otp.Newest(cs)] + cs[Otp.Newest(cs) + 1..])
  }

  lemma SetTwice(m: map<nat, seq<Otp.Code>>, p: nat, a: seq<Otp.Code>, b: seq<Otp.Code>)
    ensures m[p := a][p := b] == m[p := b]
  {
  }

  /** Checking a code and then deleting it is one verification that goes through. */
  lemma CheckThenDrop(s: Otp.Table, phone: nat, guess: nat)
    ensures var check, use := Otp.VerifyStep(s, phone, guess, false), Otp.VerifyStep(s, phone, guess, true);
            && (check.1.Conflict? <==> use.1.Accepted?)
            && (if check.1.Conflict? then Otp.CodesOf(check.0, phone) != [] && use.0 == DropNewest(check.0, phone)
                else use == check)
  {
    var cs := Otp.CodesOf(s, phone);
    if cs != [] {
      SetTwice(s.codes, phone, cs, cs[..Otp.Newest(cs)] + cs[Otp.Newest(cs) + 1..]);
    }
  }

  function AsOutcome(r: RequestResult): Otp.Outcome {
    if r.CodeSent? then Otp.Sent else Otp.TooSoon
  }
}
