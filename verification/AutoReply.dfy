/**
 * Automatic replies (mobile/src/utils/autoReply.ts): each device answers at most once per
 * conversation in four hours, which also stops two auto-replying devices from answering each
 * other for ever. One handler call is one atomic step.
 */
module AutoReply {
  import opened Base
  import opened Spacing

  const COOLDOWN: nat := 14_400_000
  const SETTINGS_TTL: nat := 60_000
  const CONTACTS_TTL: nat := 300_000

  /** `message` is already trimmed. */
  datatype Settings = Settings(
    isEnabled: bool,
    message: string,
    onlyForStrangers: bool,
    startAt: Option<int>,
    endAt: Option<int>
  )

  datatype Conversation = Conversation(id: nat, direct: bool, isSelf: bool)

  datatype Incoming = Incoming(sender: nat, system: bool)

  /** What the server would answer if asked now. */
  datatype Backend = Backend(settings: Option<Settings>, contacts: set<nat>)

  /** The cached settings and contacts with the time they were fetched, and the sent log on disk. */
  datatype Device = Device(
    cachedSettings: Option<(Option<Settings>, int)>,
    cachedContacts: Option<(set<nat>, int)>,
    sentLog: map<nat, int>
  )

  function GetSettings(d: Device, now: int, server: Backend): (Device, Option<Settings>) {
    if d.cachedSettings.Some? && now - d.cachedSettings.value.1 < SETTINGS_TTL then (d, d.cachedSettings.value.0)
    else (d.(cachedSettings := Some((server.settings, now))), server.settings)
  }

  function IsContact(d: Device, user: nat, now: int, server: Backend): (Device, bool) {
    var d' := if d.cachedContacts.None? || now - d.cachedContacts.value.1 >= CONTACTS_TTL
              then d.(cachedContacts := Some((server.contacts, now))) else d;
    (d', user in d'.cachedContacts.value.0)
  }

  function LastSent(d: Device, conversation: nat): int {
    if conversation in d.sentLog then d.sentLog[conversation] else 0
  }

  predicate InSchedule(s: Settings, now: int) {
    (s.startAt.Some? ==> now >= s.startAt.value) && (s.endAt.Some? ==> now <= s.endAt.value)
  }

  /** maybeAutoReply: the reply text, if one is sent. */
  function ReplyStep(
    d: Device, c: Conversation, m: Incoming, me: nat, now: int, server: Backend): (Device, Option<string>)
  {
    if !c.direct || c.isSelf || m.sender == me || m.system then (d, None)
    else
      var (d1, s) := GetSettings(d, now, server);
      if s.None? || !s.value.isEnabled || s.value.message == "" then (d1, None)
      else if !InSchedule(s.value, now) then (d1, None)
      else
        var (d2, known) := if s.value.onlyForStrangers then IsContact(d1, m.sender, now, server) else (d1, false);
        if known then (d2, None)
        else if now - LastSent(d2, c.id) < COOLDOWN then (d2, None)
        else (d2.(sentLog := d2.sentLog[c.id := now]), Some(s.value.message))
  }

  /** A reply happens only after the cooldown and records its moment; otherwise the log stays as it is. */
  lemma ReplyLog(d: Device, c: Conversation, m: Incoming, me: nat, now: int, server: Backend)
    ensures var (d', r) := ReplyStep(d, c, m, me, now, server);
            if r.Some?
            then m.sender != me && now - LastSent(d, c.id) >= COOLDOWN && d'.sentLog == d.sentLog[c.id := now]
            else d'.sentLog == d.sentLog
  {
  }

  // ---------------------------------------------------------------- the handler of one device

  /** The module variables of the source and the sent log it keeps on disk. */
  class Responder {
    var cachedSettings: Option<(Option<Settings>, int)>
    var cachedContacts: Option<(set<nat>, int)>
    var sentLog: map<nat, int>

    ghost function State(): Device
      reads this
    {
      Device(cachedSettings, cachedContacts, sentLog)
    }

    constructor ()
      ensures State() == Device(None, None, map[])
    {
      cachedSettings, cachedContacts, sentLog := None, None, map[];
    }

    method FetchSettings(now: int, server: Backend) returns (s: Option<Settings>)
      modifies `cachedSettings
      ensures (State(), s) == GetSettings(old(State()), now, server)
    {
      if cachedSettings.None? || now - cachedSettings.value.1 >= SETTINGS_TTL {
        cachedSettings := Some((server.settings, now));
      }
      s := cachedSettings.value.0;
    }

    method CheckContact(user: nat, now: int, server: Backend) returns (known: bool)
      modifies `cachedContacts
      ensures (State(), known) == IsContact(old(State()), user, now, server)
    {
      if cachedContacts.None? || now - cachedContacts.value.1 >= CONTACTS_TTL {
        cachedContacts := Some((server.contacts, now));
      }
      known := user in cachedContacts.value.0;
    }

    /** The log is written before the reply is sent. */
    method MaybeAutoReply(c: Conversation, m: Incoming, me: nat, now: int, server: Backend)
      returns (reply: Option<string>)
      modifies this
      ensures (State(), reply) == ReplyStep(old(State()), c, m, me, now, server)
    {
      if !c.direct || c.isSelf || m.sender == me || m.system { return None; }
      var s := FetchSettings(now, server);
      if s.None? || !s.value.isEnabled || s.value.message == "" { return None; }
      if !InSchedule(s.value, now) { return None; }
      if s.value.onlyForStrangers {
        var known := CheckContact(m.sender, now, server);
        if known { return None; }
      }
      if now - (if c.id in sentLog then sentLog[c.id] else 0) < COOLDOWN { return None; }
      sentLog := sentLog[c.id := now];
      reply := Some(s.value.message);
    }
  }

  // ---------------------------------------------------------------- two devices in one direct chat

  /** `from` and `to` are the two parties; `cause` is the message an automatic one answers. */
  datatype Msg = Msg(sender: bool, sentAt: int, cause: Option<nat>)

  datatype Chat = Chat(left: Device, right: Device, msgs: seq<Msg>, now: int)

  datatype Event =
    | Write(sender: bool)
    | Deliver(index: nat, server: Backend)
    | Tick(ms: nat)

  const THE_CHAT := Conversation(0, true, false)

  function UserId(side: bool): nat {
    if side then 1 else 2
  }

  function DeviceOf(c: Chat, side: bool): Device {
    if side then c.right else c.left
  }

  function WithDevice(c: Chat, side: bool, d: Device): Chat {
    if side then c.(right := d) else c.(left := d)
  }

  function Step(c: Chat, e: Event): Chat {
    match e
    case Write(side) => c.(msgs := c.msgs + [Msg(side, c.now, None)])
    case Deliver(i, server) =>
      if i >= |c.msgs| then c
      else
        var me := !c.msgs[i].sender;
        var (d, r) := ReplyStep(DeviceOf(c, me), THE_CHAT, Incoming(UserId(!me), false), UserId(me), c.now, server);
        var c' := WithDevice(c, me, d);
        if r.Some? then c'.(msgs := c.msgs + [Msg(me, c.now, Some(i))]) else c'
    case Tick(ms) => c.(now := c.now + ms)
  }

  function Run(c: Chat, es: seq<Event>): Chat {
    if es == [] then c else Step(Run(c, Front(es)), Last(es))
  }

  /** Every delivery takes at most `delay`. */
  ghost predicate DeliveredWithin(c: Chat, es: seq<Event>, delay: nat) {
    es != [] ==>
      && DeliveredWithin(c, Front(es), delay)
      && (Last(es).Deliver? && Last(es).index < |Run(c, Front(es)).msgs| ==>
            Run(c, Front(es)).now <= Run(c, Front(es)).msgs[Last(es).index].sentAt + delay)
  }

  ghost predicate AutoBy(m: Msg, side: bool) {
    m.sender == side && m.cause.Some?
  }

  ghost predicate Ordered(ms: seq<Msg>) {
    forall i, j :: 0 <= i < j < |ms| ==> ms[i].sentAt <= ms[j].sentAt
  }

  /** An automatic message answers an earlier message of the other side. */
  ghost predicate Answers(ms: seq<Msg>, i: nat)
    requires i < |ms|
  {
    ms[i].cause.Some? ==> ms[i].cause.value < i && ms[ms[i].cause.value].sender != ms[i].sender
  }

  /** Two automatic messages of one side keep the cooldown. */
  ghost predicate Apart(ms: seq<Msg>, i: nat, j: nat)
    requires i < j < |ms|
  {
    ms[i].cause.Some? && ms[j].cause.Some? && ms[i].sender == ms[j].sender ==>
      ms[j].sentAt - ms[i].sentAt >= COOLDOWN
  }

  ghost predicate AllApart(ms: seq<Msg>) {
    forall i, j :: 0 <= i < j < |ms| ==> Apart(ms, i, j)
  }

  ghost predicate Logged(c: Chat, m: Msg) {
    m.sentAt <= c.now && (m.cause.Some? ==> m.sentAt <= LastSent(DeviceOf(c, m.sender), THE_CHAT.id))
  }

  ghost predicate Inv(c: Chat) {
    && Ordered(c.msgs)
    && (forall i :: 0 <= i < |c.msgs| ==> Logged(c, c.msgs[i]))
    && (forall i :: 0 <= i < |c.msgs| ==> Answers(c.msgs, i))
    && AllApart(c.msgs)
  }

  /** The automatic message `i` was sent within `delay` of the message it answers. */
  ghost predicate Quick(ms: seq<Msg>, i: nat, delay: nat)
    requires i < |ms|
  {
    ms[i].cause.Some? && ms[i].cause.value < i ==> ms[i].sentAt <= ms[ms[i].cause.value].sentAt + delay
  }

  ghost predicate AllQuick(ms: seq<Msg>, delay: nat) {
    forall i :: 0 <= i < |ms| ==> Quick(ms, i, delay)
  }

  lemma AppendInv(c: Chat, m: Msg)
    requires Inv(c) && m.sentAt == c.now
    requires m.cause.Some? ==>
               && m.cause.value < |c.msgs| && c.msgs[m.cause.value].sender != m.sender
               && c.now - LastSent(DeviceOf(c, m.sender), THE_CHAT.id) >= COOLDOWN
    ensures var ms := c.msgs + [m];
            && Ordered(ms)
            && (forall i :: 0 <= i < |ms| ==> Answers(ms, i))
            && AllApart(ms)
  {
    var ms := c.msgs + [m];
    forall i | 0 <= i < |ms| ensures Answers(ms, i) {
      if i < |c.msgs| { assert Answers(c.msgs, i); }
    }
    forall i, j | 0 <= i < j < |ms| ensures Apart(ms, i, j) {
      if j < |c.msgs| { assert Apart(c.msgs, i, j); } else { assert Logged(c, c.msgs[i]); }
    }
    forall i, j | 0 <= i < j < |ms| ensures ms[i].sentAt <= ms[j].sentAt {
      if j == |c.msgs| { assert Logged(c, c.msgs[i]); }
    }
  }

  lemma StepInv(c: Chat, e: Event)
    requires Inv(c)
    ensures Inv(Step(c, e))
  {
    var c' := Step(c, e);
    match e {
      case Write(side) => AppendInv(c, Msg(side, c.now, None));
      case Deliver(i, server) =>
        if i < |c.msgs| {
          var me := !c.msgs[i].sender;
          ReplyLog(DeviceOf(c, me), THE_CHAT, Incoming(UserId(!me), false), UserId(me), c.now, server);
          if |c'.msgs| > |c.msgs| { AppendInv(c, Msg(me, c.now, Some(i))); }
        }
      case Tick(_) =>
    }
    forall i | 0 <= i < |c'.msgs| ensures Logged(c', c'.msgs[i]) {
      if i < |c.msgs| { assert Logged(c, c.msgs[i]); }
    }
  }

  lemma {:induction false} RunInv(c: Chat, es: seq<Event>)
    requires Inv(c)
    ensures Inv(Run(c, es))
  {
    if es != [] {
      RunInv(c, Front(es));
      StepInv(Run(c, Front(es)), Last(es));
    }
  }

  lemma StepQuick(c: Chat, e: Event, delay: nat)
    requires AllQuick(c.msgs, delay)
    requires e.Deliver? && e.index < |c.msgs| ==> c.now <= c.msgs[e.index].sentAt + delay
    ensures AllQuick(Step(c, e).msgs, delay)
  {
    var ms := Step(c, e).msgs;
    forall i | 0 <= i < |ms| ensures Quick(ms, i, delay) {
      if i < |c.msgs| { assert Quick(c.msgs, i, delay); }
    }
  }

  lemma {:induction false} RunQuick(c: Chat, es: seq<Event>, delay: nat)
    requires AllQuick(c.msgs, delay) && DeliveredWithin(c, es, delay)
    ensures AllQuick(Run(c, es).msgs, delay)
  {
    if es != [] {
      RunQuick(c, Front(es), delay);
      StepQuick(Run(c, Front(es)), Last(es), delay);
    }
  }

  // ---------------------------------------------------------------- theorems

  predicate AutoWithin(m: Msg, side: bool, from: int, T: nat) {
    m.sender == side && m.cause.Some? && from <= m.sentAt <= from + T
  }

  /** The moments at which one side replied automatically between `from` and `from + T`. */
  function AutoTimes(ms: seq<Msg>, side: bool, from: int, T: nat): (ts: seq<int>)
    ensures forall i :: 0 <= i < |ts| ==> from <= ts[i] <= from + T
  {
    if ms == [] then []
    else AutoTimes(Front(ms), side, from, T) + if AutoWithin(Last(ms), side, from, T) then [Last(ms).sentAt] else []
  }

  lemma FrontApart(ms: seq<Msg>)
    requires ms != [] && AllApart(ms)
    ensures AllApart(Front(ms))
  {
    forall i, j | 0 <= i < j < |Front(ms)| ensures Apart(Front(ms), i, j) {
      assert Apart(ms, i, j);
    }
  }

  lemma ApartFromLast(ms: seq<Msg>, k: nat)
    requires ms != [] && AllApart(ms) && k < |ms| - 1
    requires ms[k].cause.Some? && Last(ms).cause.Some? && ms[k].sender == Last(ms).sender
    ensures Last(ms).sentAt - ms[k].sentAt >= COOLDOWN
  {
    assert Apart(ms, k, |ms| - 1);
  }

  /** `k` is the message behind the last of the moments. */
  lemma {:induction false} AutoTimesSpaced(ms: seq<Msg>, side: bool, from: int, T: nat) returns (k: nat)
    requires AllApart(ms)
    ensures Spaced(AutoTimes(ms, side, from, T), COOLDOWN)
    ensures var ts := AutoTimes(ms, side, from, T);
            ts != [] ==> k < |ms| && AutoBy(ms[k], side) && ms[k].sentAt == Last(ts)
  {
    k := 0;
    if ms != [] {
      FrontApart(ms);
      k := AutoTimesSpaced(Front(ms), side, from, T);
      var before := AutoTimes(Front(ms), side, from, T);
      if AutoWithin(Last(ms), side, from, T) {
        if before != [] { ApartFromLast(ms, k); }
        SpacedAppend(before, COOLDOWN, Last(ms).sentAt);
        k := |ms| - 1;
      } else {
        assert AutoTimes(ms, side, from, T) == before;
      }
    }
  }

  /** In any window of length T the two devices together send at most 2 * (1 + floor(T / 4 h)) automatic messages. */
  lemma AutoMessagesBounded(c: Chat, es: seq<Event>, from: int, T: nat)
    requires Inv(c)
    ensures var ms := Run(c, es).msgs;
            |AutoTimes(ms, false, from, T)| + |AutoTimes(ms, true, from, T)| <= 2 * (1 + T / COOLDOWN)
  {
    RunInv(c, es);
    var ms := Run(c, es).msgs;
    var k := AutoTimesSpaced(ms, false, from, T);
    k := AutoTimesSpaced(ms, true, from, T);
    SpacedCount(AutoTimes(ms, false, from, T), COOLDOWN, from, T);
    SpacedCount(AutoTimes(ms, true, from, T), COOLDOWN, from, T);
  }

  /** After message `h` no side replies automatically twice, when a round trip is shorter than the cooldown. */
  lemma OneReplyEach(c: Chat, delay: nat, h: nat, x: nat, y: nat)
    requires Inv(c) && AllQuick(c.msgs, delay) && 2 * delay < COOLDOWN
    requires forall i :: h < i < |c.msgs| ==> c.msgs[i].cause.Some?
    requires h < x < y < |c.msgs|
    ensures c.msgs[x].sender != c.msgs[y].sender
  {
    var ms := c.msgs;
    if ms[x].sender == ms[y].sender {
      assert Answers(ms, y) && Quick(ms, y, delay);
      Cooldown(c, x, y);
      var t1 := ms[y].cause.value;
      assert ms[t1].sentAt > ms[x].sentAt;
      assert t1 > x;
      assert Answers(ms, t1) && Quick(ms, t1, delay);
      var t2 := ms[t1].cause.value;
      assert ms[t2].sentAt > ms[x].sentAt;
      assert t2 > x;
      Cooldown(c, t2, y);
    }
  }

  lemma Cooldown(c: Chat, i: nat, j: nat)
    requires Inv(c) && i < j < |c.msgs|
    requires c.msgs[i].cause.Some? && c.msgs[j].cause.Some? && c.msgs[i].sender == c.msgs[j].sender
    ensures c.msgs[j].sentAt - c.msgs[i].sentAt >= COOLDOWN
  {
    assert Apart(c.msgs, i, j);
  }

  /** The chain of automatic replies after the last written message ends after at most two messages. */
  lemma ChainStops(c: Chat, es: seq<Event>, delay: nat, h: nat)
    requires Inv(c) && AllQuick(c.msgs, delay) && DeliveredWithin(c, es, delay) && 2 * delay < COOLDOWN
    requires forall i :: h < i < |Run(c, es).msgs| ==> Run(c, es).msgs[i].cause.Some?
    ensures |Run(c, es).msgs| <= h + 3
  {
    RunInv(c, es);
    RunQuick(c, es, delay);
    var z := Run(c, es);
    if |z.msgs| > h + 3 {
      OneReplyEach(z, delay, h, h + 1, h + 2);
      OneReplyEach(z, delay, h, h + 2, h + 3);
      OneReplyEach(z, delay, h, h + 1, h + 3);
    }
  }

  // ---------------------------------------------------------------- when a reply goes out

  predicate Opened(s: Settings, now: int) {
    (s.startAt.None? || s.startAt.value <= now) && (s.endAt.None? || now <= s.endAt.value)
  }

  /** A message calls for a reply, under these settings and with these contacts, cooldown aside. */
  predicate CallsForReply(
    c: Conversation, m: Incoming, me: nat, now: int, settings: Option<Settings>, contacts: set<nat>)
  {
    && c.direct && !c.isSelf && m.sender != me && !m.system
    && settings.Some? && settings.value.isEnabled && settings.value.message != "" && Opened(settings.value, now)
    && (settings.value.onlyForStrangers ==> m.sender !in contacts)
  }

  /** A cached answer counts for less than `ttl`; otherwise the server is asked now. */
  function Held<T>(cached: Option<(T, int)>, asked: T, now: int, ttl: nat): T {
    if cached.Some? && now - cached.value.1 < ttl then cached.value.0 else asked
  }

  /**
   * A reply goes out if and only if the message calls for one under the settings held for a minute and
   * the contacts held for five, and four hours have passed since the last reply in the conversation.
   * Its text is the configured one.
   */
  lemma RepliesExactly(d: Device, c: Conversation, m: Incoming, me: nat, now: int, server: Backend)
    ensures var r := ReplyStep(d, c, m, me, now, server).1;
            var settings := Held(d.cachedSettings, server.settings, now, 60 * 1000);
            var contacts := Held(d.cachedContacts, server.contacts, now, 5 * 60 * 1000);
            && (r.Some? <==>
                  && CallsForReply(c, m, me, now, settings, contacts)
                  && now - LastSent(d, c.id) >= 4 * 60 * 60 * 1000)
            && (r.Some? ==> r == Some(settings.value.message))
  {
  }

  // ---------------------------------------------------------------- every call of the handler

  datatype Call = Call(c: Conversation, m: Incoming, me: nat, now: int, server: Backend)

  function Handle(d: Device, x: Call): (Device, Option<string>) {
    ReplyStep(d, x.c, x.m, x.me, x.now, x.server)
  }

  /** The device after these calls, starting with nothing cached and an empty log. */
  function After(calls: seq<Call>): Device {
    if calls == [] then Device(None, None, map[]) else Handle(After(Front(calls)), Last(calls)).0
  }

  function Reply(calls: seq<Call>, i: nat): Option<string>
    requires i < |calls|
  {
    Handle(After(calls[..i]), calls[i]).1
  }

  ghost predicate InOrder(calls: seq<Call>) {
    forall i, j :: 0 <= i < j < |calls| ==> calls[i].now <= calls[j].now
  }

  /** No call of the same conversation has replied in the last four hours. */
  ghost predicate CooledDown(calls: seq<Call>, j: nat)
    requires j < |calls|
  {
    && calls[j].now >= COOLDOWN
    && forall i :: 0 <= i < j && calls[i].c.id == calls[j].c.id && Reply(calls, i).Some? ==>
         calls[j].now - calls[i].now >= COOLDOWN
  }

  ghost predicate CachesAnswers(d: Device, calls: seq<Call>) {
    && (d.cachedSettings.Some? ==>
          exists i :: 0 <= i < |calls| && d.cachedSettings.value == (calls[i].server.settings, calls[i].now))
    && (d.cachedContacts.Some? ==>
          exists i :: 0 <= i < |calls| && d.cachedContacts.value == (calls[i].server.contacts, calls[i].now))
  }

  /** The log holds, per conversation, the moment of the last reply. */
  ghost predicate LogsReplies(d: Device, calls: seq<Call>, id: nat) {
    && (id in d.sentLog ==>
          && d.sentLog[id] >= COOLDOWN
          && exists i :: 0 <= i < |calls| && calls[i].c.id == id && Reply(calls, i).Some?
                         && calls[i].now == d.sentLog[id])
    && forall i :: 0 <= i < |calls| && calls[i].c.id == id && Reply(calls, i).Some? ==>
         id in d.sentLog && calls[i].now <= d.sentLog[id]
  }

  lemma {:induction false} AfterCaches(calls: seq<Call>)
    ensures CachesAnswers(After(calls), calls)
  {
    if calls != [] {
      var front := Front(calls);
      AfterCaches(front);
      assert forall i :: 0 <= i < |front| ==> calls[i] == front[i];
      assert calls[|calls| - 1] == Last(calls);
    }
  }

  lemma FrontReplies(calls: seq<Call>, i: nat)
    requires i < |calls|
    ensures i < |calls| - 1 ==> Front(calls)[i] == calls[i] && Reply(Front(calls), i) == Reply(calls, i)
    ensures i == |calls| - 1 ==> Reply(calls, i) == Handle(After(Front(calls)), Last(calls)).1
  {
    if i < |calls| - 1 { assert Front(calls)[..i] == calls[..i]; }
  }

  lemma {:induction false} AfterLogs(calls: seq<Call>, id: nat)
    requires InOrder(calls)
    ensures LogsReplies(After(calls), calls, id)
  {
    if calls != [] {
      var front := Front(calls);
      assert InOrder(front) by { assert forall i :: 0 <= i < |front| ==> front[i] == calls[i]; }
      AfterLogs(front, id);
      LogsOneMore(calls, id);
    }
  }

  lemma LogsOneMore(calls: seq<Call>, id: nat)
    requires InOrder(calls) && calls != [] && LogsReplies(After(Front(calls)), Front(calls), id)
    ensures LogsReplies(After(calls), calls, id)
  {
    var front, x, n := Front(calls), Last(calls), |calls| - 1;
    var d, r := After(front), After(calls);
    ReplyLog(d, x.c, x.m, x.me, x.now, x.server);
    FrontReplies(calls, n);
    forall i | 0 <= i < |calls| && calls[i].c.id == id && Reply(calls, i).Some?
      ensures id in r.sentLog && calls[i].now <= r.sentLog[id]
    {
      FrontReplies(calls, i);
    }
    if id in r.sentLog {
      if x.c.id == id && Reply(calls, n).Some? {
        assert calls[n].now == r.sentLog[id];
      } else {
        var i :| 0 <= i < |front| && front[i].c.id == id && Reply(front, i).Some? && front[i].now == d.sentLog[id];
        FrontReplies(calls, i);
      }
    }
  }

  /**
   * Over every sequence of handler calls: with settings that the server had less than a minute before
   * and contacts it had less than five minutes before, a call replies if and only if its message calls
   * for it and no call of the same conversation has replied in the last four hours.
   */
  lemma EveryReply(calls: seq<Call>, j: nat)
    requires InOrder(calls) && j < |calls|
    ensures exists a, b ::
              && 0 <= a <= j && calls[j].now - calls[a].now < 60 * 1000
              && 0 <= b <= j && calls[j].now - calls[b].now < 5 * 60 * 1000
              && var x, s := calls[j], calls[a].server.settings;
                 && (Reply(calls, j).Some? <==>
                       CallsForReply(x.c, x.m, x.me, x.now, s, calls[b].server.contacts) && CooledDown(calls, j))
                 && (Reply(calls, j).Some? ==> Reply(calls, j) == Some(s.value.message))
  {
    var before, x := calls[..j], calls[j];
    var d := After(before);
    RepliesExactly(d, x.c, x.m, x.me, x.now, x.server);
    AfterCaches(before);
    LogCooled(calls, j);
    var a := j;
    if d.cachedSettings.Some? && x.now - d.cachedSettings.value.1 < SETTINGS_TTL {
      a :| 0 <= a < |before| && d.cachedSettings.value == (before[a].server.settings, before[a].now);
    }
    var b := j;
    if d.cachedContacts.Some? && x.now - d.cachedContacts.value.1 < CONTACTS_TTL {
      b :| 0 <= b < |before| && d.cachedContacts.value == (before[b].server.contacts, before[b].now);
    }
  }

  lemma LogCooled(calls: seq<Call>, j: nat)
    requires InOrder(calls) && j < |calls|
    ensures calls[j].now - LastSent(After(calls[..j]), calls[j].c.id) >= COOLDOWN <==> CooledDown(calls, j)
  {
    var before, d, id := calls[..j], After(calls[..j]), calls[j].c.id;
    AfterLogs(before, id);
    forall i | 0 <= i < j
      ensures Reply(calls, i) == Reply(before, i) && calls[i] == before[i]
    {
      assert calls[..i] == before[..i];
    }
  }

  /** A message that is delivered is answered in the chat exactly when it calls for a reply, and at most once. */
  lemma DeliveryAnswers(c: Chat, i: nat, server: Backend)
    requires i < |c.msgs|
    ensures var me := !c.msgs[i].sender;
            var d, to, m := DeviceOf(c, me), UserId(me), Incoming(UserId(!me), false);
            var settings := Held(d.cachedSettings, server.settings, c.now, 60 * 1000);
            var contacts := Held(d.cachedContacts, server.contacts, c.now, 5 * 60 * 1000);
            Step(c, Deliver(i, server)).msgs ==
              c.msgs + if CallsForReply(THE_CHAT, m, to, c.now, settings, contacts)
                          && c.now - LastSent(d, THE_CHAT.id) >= 4 * 60 * 60 * 1000
                       then [Msg(me, c.now, Some(i))] else []
  {
  }
}
