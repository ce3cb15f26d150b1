/**
  * The opt-in retention log: versions of a message that an edit or a deletion is about to overwrite
  * in the cache are copied first, whether the change arrives as a socket event or in a fetched page.
  */
module Retention {
  import opened Base
  import opened MessageCache
  import opened CappedCache

  datatype Settings = Settings(keepDeletedMessages: bool, keepEditHistory: bool)

  /** The tables the retention log reads and writes. */
  datatype State = State(messages: Table, kept: map<nat, Kept>, history: map<VersionKey, Row>)

  /** What brings a version of a message to the device. `now` replaces a time the event does not carry. */
  datatype Event =
    | New(message: Message)
    | Edited(message: Message, now: int)
    | Deleted(message: Message, now: int)
    | Fetched(conversation: nat, page: seq<Message>)

  function Or(o: Option<int>, now: int): int {
    match o
    case Some(v) => v
    case None => now
  }

  function SaveIn(s: State, c: nat, batch: seq<Message>): State {
    s.(messages := Save(s.messages, c, batch))
  }

  function SnapshotOne(s: State, me: nat, set_: Settings, m: Message): State {
    var kept := if set_.keepDeletedMessages && m.deletedAt.Some? && m.sender != me
                then KeepDeleted(s.messages, s.kept, m.id, m.deletedAt.value) else s.kept;
    var history := if set_.keepEditHistory && m.editedAt.Some? && m.deletedAt.None?
                   then KeepEdit(s.messages, s.history, m.id, m.editedAt.value) else s.history;
    State(s.messages, kept, history)
  }

  function Snapshot(s: State, me: nat, set_: Settings, page: seq<Message>): State {
    if page == [] then s else SnapshotOne(Snapshot(s, me, set_, Front(page)), me, set_, Last(page))
  }

  function Step(s: State, me: nat, set_: Settings, e: Event): State {
    match e
    case New(m) => SaveIn(s, m.conversation, [m])
    case Edited(m, now) =>
      var t := if set_.keepEditHistory
               then s.(history := KeepEdit(s.messages, s.history, m.id, Or(m.editedAt, now))) else s;
      SaveIn(t, m.conversation, [m])
    case Deleted(m, now) =>
      var t := if set_.keepDeletedMessages && m.sender != me
               then s.(kept := KeepDeleted(s.messages, s.kept, m.id, Or(m.deletedAt, now))) else s;
      SaveIn(t, m.conversation, [m])
    case Fetched(c, page) => SaveIn(Snapshot(s, me, set_, page), c, page)
  }

  function Run(s: State, me: nat, set_: Settings, es: seq<Event>): State {
    if es == [] then s else Step(Run(s, me, set_, Front(es)), me, set_, Last(es))
  }

  // ---- The handlers of the source ----

  ghost function StateOf(cache: MessageCache): State
    reads cache
  {
    State(cache.messages, cache.kept, cache.history)
  }

  method SnapshotRetentionFromFetch(cache: MessageCache, me: nat, set_: Settings, page: seq<Message>)
    requires cache.Valid()
    modifies cache`kept, cache`history
    ensures cache.Valid()
    ensures StateOf(cache) == Snapshot(old(StateOf(cache)), me, set_, page)
  {
    if !set_.keepDeletedMessages && !set_.keepEditHistory {
      SnapshotOff(StateOf(cache), me, set_, page);
      return;
    }
    for i := 0 to |page|
      invariant cache.Valid()
      invariant StateOf(cache) == Snapshot(old(StateOf(cache)), me, set_, page[..i])
    {
      var m := page[i];
      assert Front(page[..i + 1]) == page[..i];
      if set_.keepDeletedMessages && m.deletedAt.Some? && m.sender != me {
        cache.KeepDeletedOriginal(m.id, m.deletedAt.value);
      }
      if set_.keepEditHistory && m.editedAt.Some? && m.deletedAt.None? {
        cache.KeepEditVersion(m.id, m.editedAt.value);
      }
    }
    assert page[..|page|] == page;
  }

  lemma {:induction false} SnapshotOff(s: State, me: nat, set_: Settings, page: seq<Message>)
    requires !set_.keepDeletedMessages && !set_.keepEditHistory
    ensures Snapshot(s, me, set_, page) == s
  {
    if page != [] { SnapshotOff(s, me, set_, Front(page)); }
  }

  /** One event handled by the store: the snapshot comes before the overwriting save. */
  method Handle(cache: MessageCache, me: nat, set_: Settings, e: Event)
    requires cache.Valid()
    modifies cache
    ensures cache.Valid()
    ensures StateOf(cache) == Step(old(StateOf(cache)), me, set_, e)
    ensures cache.outbox == old(cache.outbox)
  {
    match e
    case New(m) =>
      cache.SaveMessages(m.conversation, [m]);
    case Edited(m, now) =>
      if set_.keepEditHistory { cache.KeepEditVersion(m.id, Or(m.editedAt, now)); }
      cache.SaveMessages(m.conversation, [m]);
    case Deleted(m, now) =>
      if set_.keepDeletedMessages && m.sender != me { cache.KeepDeletedOriginal(m.id, Or(m.deletedAt, now)); }
      cache.SaveMessages(m.conversation, [m]);
    case Fetched(c, page) =>
      SnapshotRetentionFromFetch(cache, me, set_, page);
      cache.SaveMessages(c, page);
  }

  // ---- Events as the server sends them ----

  predicate DistinctIds(page: seq<Message>) {
    forall i, j :: 0 <= i < j < |page| ==> page[i].id != page[j].id
  }

  /** The batch an event writes into the cache, and its conversation. */
  function Carried(e: Event): seq<Message> {
    if e.Fetched? then e.page else [e.message]
  }

  function Home(e: Event): nat {
    if e.Fetched? then e.conversation else e.message.conversation
  }

  /** New messages are unedited, edits and deletions say when, and a page lists a message once. */
  predicate Sent(e: Event) {
    match e
    case New(m) => m.editedAt.None? && m.deletedAt.None?
    case Edited(m, _) => m.editedAt.Some? && m.deletedAt.None?
    case Deleted(m, _) => m.deletedAt.Some?
    case Fetched(c, page) => DistinctIds(page) && forall i :: 0 <= i < |page| ==> page[i].conversation == c
  }

  /** On such events the four handlers are one: snapshot what is about to be overwritten, then save. */
  lemma OneRule(s: State, me: nat, set_: Settings, e: Event)
    requires Sent(e)
    ensures Step(s, me, set_, e) == SaveIn(Snapshot(s, me, set_, Carried(e)), Home(e), Carried(e))
  {
    if !e.Fetched? {
      assert Front([e.message]) == [];
      assert Snapshot(s, me, set_, []) == s;
    }
  }

  // ---- Replaying ----

  lemma SaveTwice(t: Table, c: nat, batch: seq<Message>, times: map<nat, int>, home: map<nat, nat>)
    requires Fits(t, times, home) && Consistent(Rows(c, batch), times, home)
    ensures Save(Save(t, c, batch), c, batch) == Save(t, c, batch)
  {
    if batch != [] {
      var rows := Rows(c, batch);
      var u := InsertAll(t, rows);
      InsertAllFits(t, rows, times, home);
      InsertIds(t, rows, times, home, c, c);
      CapTwice(u, c, rows, times, home);
      var v := InsertAll(Cap(u, c), rows);
      forall x
        ensures x in v ==> x in u && v[x] == u[x]
        ensures x in Cap(u, c) ==> x in v
      {
        InsertTwice(t, c, rows, x);
      }
      assert Cap(v, c).Keys == Cap(u, c).Keys;
    }
  }

  lemma InsertTwice(t: Table, c: nat, rows: seq<Row>, x: nat)
    ensures var u := InsertAll(t, rows);
            var v := InsertAll(Cap(u, c), rows);
            (x in v ==> x in u && v[x] == u[x]) && (x in Cap(u, c) ==> x in v)
  {
    var u := InsertAll(t, rows);
    Inserted(t, rows, x);
    Inserted(Cap(u, c), rows, x);
    if x in RowIds(rows) { InsertedSame(t, Cap(u, c), rows, x); }
  }

  lemma CapTwice(u: Table, c: nat, rows: seq<Row>, times: map<nat, int>, home: map<nat, nat>)
    requires Fits(u, times, home) && Consistent(rows, times, home)
    requires forall i :: 0 <= i < |rows| ==> rows[i].conversation == c
    requires RowIds(rows) <= Ids(u, c)
    ensures NewestIds(InsertAll(Cap(u, c), rows), c, MAX_CACHED_MESSAGES_PER_CONVERSATION)
         == NewestIds(u, c, MAX_CACHED_MESSAGES_PER_CONVERSATION)
  {
    var k := MAX_CACHED_MESSAGES_PER_CONVERSATION;
    assert Ids(Cap(u, c), c) == NewestIds(u, c, k);
    InsertNewest(Cap(u, c), rows, times, home, c, c, k);
    NewestByTimes(u, times, home, c, k);
    Newest.TopIncremental(Ids(u, c), RowIds(rows), times, k);
    assert Ids(u, c) + RowIds(rows) == Ids(u, c);
  }

  /** After a save, a message of the batch is cached in exactly the version the batch holds, or evicted. */
  lemma SavedVersion(t: Table, c: nat, page: seq<Message>, i: nat)
    requires DistinctIds(page) && i < |page|
    ensures page[i].id in Save(t, c, page) ==> Save(t, c, page)[page[i].id] == Row(c, page[i])
  {
    var rows := Rows(c, page);
    Inserted(t, rows, page[i].id);
    OnlyRow(rows, i);
  }

  lemma {:induction false} OnlyRow(rows: seq<Row>, i: nat)
    requires i < |rows| && forall j :: 0 <= j < |rows| && j != i ==> rows[j].message.id != rows[i].message.id
    ensures rows[i].message.id in RowIds(rows)
    ensures forall r :: LastRow(rows, rows[i].message.id, r) ==> r == rows[i]
  {
    if i < |rows| - 1 { OnlyRow(Front(rows), i); }
  }

  lemma {:induction false} OtherRows(rows: seq<Row>, x: nat)
    requires forall i :: 0 <= i < |rows| ==> rows[i].message.id != x
    ensures x !in RowIds(rows)
  {
    if rows != [] { OtherRows(Front(rows), x); }
  }

  lemma {:induction false} SnapshotAgain(s: State, me: nat, set_: Settings, c: nat, page: seq<Message>)
    requires forall i :: 0 <= i < |page| ==> page[i].id in s.messages ==> s.messages[page[i].id] == Row(c, page[i])
    ensures Snapshot(s, me, set_, page) == s
  {
    if page != [] {
      SnapshotAgain(s, me, set_, c, Front(page));
      assert page[|page| - 1] == Last(page);
    }
  }

  /** Handling any event twice leaves all three tables as handling it once does. */
  lemma ReplayChangesNothing(s: State, me: nat, set_: Settings, e: Event, times: map<nat, int>, home: map<nat, nat>)
    requires Sent(e)
    requires Fits(s.messages, times, home) && Consistent(Rows(Home(e), Carried(e)), times, home)
    ensures var once := Step(s, me, set_, e); Step(once, me, set_, e) == once
  {
    var once, c, page := Step(s, me, set_, e), Home(e), Carried(e);
    OneRule(s, me, set_, e);
    OneRule(once, me, set_, e);
    SnapshotKeepsMessages(s, me, set_, page);
    forall i | 0 <= i < |page|
      ensures page[i].id in once.messages ==> once.messages[page[i].id] == Row(c, page[i])
    {
      SavedVersion(s.messages, c, page, i);
    }
    SnapshotAgain(once, me, set_, c, page);
    SaveTwice(s.messages, c, page, times, home);
  }

  lemma {:induction false} SnapshotKeepsMessages(s: State, me: nat, set_: Settings, page: seq<Message>)
    ensures Snapshot(s, me, set_, page).messages == s.messages
  {
    if page != [] { SnapshotKeepsMessages(s, me, set_, Front(page)); }
  }

  // ---- One message seen through the tables ----

  datatype View = View(row: Option<Row>, kept: Option<Kept>, history: map<int, Row>)

  function HistoryOf(history: map<VersionKey, Row>, x: nat): map<int, Row> {
    map k | k in history && k.id == x :: k.editedAt := history[k]
  }

  function ViewOf(s: State, x: nat): View {
    View(
      if x in s.messages then Some(s.messages[x]) else None,
      if x in s.kept then Some(s.kept[x]) else None,
      HistoryOf(s.history, x))
  }

  /** Snapshot of one arriving version, on the view of its message. */
  function Log(v: View, me: nat, m: Message): View {
    if v.row.None? || v.row.value.message.ciphertext == "" || v.row.value.message.deletedAt.Some? then v
    else
      var row := v.row.value;
      if m.deletedAt.Some? then
        if m.sender != me && v.kept.None?
        then v.(kept := Some(Kept(row.conversation, m.deletedAt.value, row.message))) else v
      else if m.editedAt.Some? && row.message.editedAt != m.editedAt && m.editedAt.value !in v.history
      then v.(history := v.history[m.editedAt.value := row])
      else v
  }

  function Receive(v: View, me: nat, c: nat, m: Message): View {
    Log(v, me, m).(row := Some(Row(c, m)))
  }

  function ReceiveAll(me: nat, c: nat, ms: seq<Message>): View {
    if ms == [] then View(None, None, map[]) else Receive(ReceiveAll(me, c, Front(ms)), me, c, Last(ms))
  }

  const ON: Settings := Settings(true, true)

  lemma SnapshotOneView(s: State, me: nat, m: Message, x: nat)
    ensures ViewOf(SnapshotOne(s, me, ON, m), x) == if m.id == x then Log(ViewOf(s, x), me, m) else ViewOf(s, x)
  {
    assert HistoryOf(SnapshotOne(s, me, ON, m).history, x)
        == if m.id == x then Log(ViewOf(s, x), me, m).history else HistoryOf(s.history, x) by {
      if m.editedAt.Some? { assert VersionKey(m.id, m.editedAt.value).id == m.id; }
    }
  }

  /** The versions of `x` among the messages of a batch. */
  function Of(page: seq<Message>, x: nat): seq<Message> {
    if page == [] then [] else
      Of(Front(page), x) + if Last(page).id == x then [Last(page)] else []
  }

  lemma {:induction false} OfDistinct(page: seq<Message>, x: nat)
    requires DistinctIds(page)
    ensures Of(page, x) == [] ==> forall i :: 0 <= i < |page| ==> page[i].id != x
    ensures Of(page, x) != [] ==> exists i :: 0 <= i < |page| && page[i].id == x && Of(page, x) == [page[i]]
  {
    if page != [] {
      OfDistinct(Front(page), x);
      assert page[|page| - 1] == Last(page);
    }
  }

  lemma {:induction false} SnapshotView(s: State, me: nat, page: seq<Message>, x: nat)
    requires DistinctIds(page)
    ensures ViewOf(Snapshot(s, me, ON, page), x)
         == if Of(page, x) == [] then ViewOf(s, x) else Log(ViewOf(s, x), me, Of(page, x)[0])
  {
    if page != [] {
      SnapshotView(s, me, Front(page), x);
      SnapshotOneView(Snapshot(s, me, ON, Front(page)), me, Last(page), x);
      OfDistinct(page, x);
      OfDistinct(Front(page), x);
    }
  }

  /** An event acts on the view of `x` through the version it carries, or not at all, unless `x` is evicted. */
  lemma StepView(s: State, me: nat, e: Event, x: nat)
    requires Sent(e)
    requires x in s.messages || Of(Carried(e), x) != [] ==> x in Step(s, me, ON, e).messages
    ensures ViewOf(Step(s, me, ON, e), x)
         == if Of(Carried(e), x) == [] then ViewOf(s, x) else Receive(ViewOf(s, x), me, Home(e), Of(Carried(e), x)[0])
  {
    var page := Carried(e);
    var t := Snapshot(s, me, ON, page);
    OneRule(s, me, ON, e);
    SnapshotView(s, me, page, x);
    SnapshotKeepsMessages(s, me, ON, page);
    SaveView(t, Home(e), page, x);
  }

  lemma SaveView(s: State, c: nat, page: seq<Message>, x: nat)
    requires DistinctIds(page)
    requires x in s.messages || Of(page, x) != [] ==> x in Save(s.messages, c, page)
    ensures ViewOf(SaveIn(s, c, page), x)
         == if Of(page, x) == [] then ViewOf(s, x) else ViewOf(s, x).(row := Some(Row(c, Of(page, x)[0])))
  {
    OfDistinct(page, x);
    if Of(page, x) == [] {
      SaveLeaves(s.messages, c, page, x);
    } else {
      var i :| 0 <= i < |page| && page[i].id == x && Of(page, x) == [page[i]];
      SavedVersion(s.messages, c, page, i);
    }
  }

  lemma SaveLeaves(t: Table, c: nat, page: seq<Message>, x: nat)
    requires forall i :: 0 <= i < |page| ==> page[i].id != x
    ensures x in Save(t, c, page) ==> x in t && Save(t, c, page)[x] == t[x]
  {
    OtherRows(Rows(c, page), x);
    Inserted(t, Rows(c, page), x);
  }

  // ---- Whole runs ----

  /** Every version of `x` that reached the device, in order of arrival. */
  function Delivered(es: seq<Event>, x: nat): seq<Message> {
    if es == [] then [] else Delivered(Front(es), x) + Of(Carried(Last(es)), x)
  }

  /** From its first arrival on, `x` is never evicted. */
  ghost predicate StaysCached(s: State, me: nat, es: seq<Event>, x: nat) {
    es != [] ==>
      && StaysCached(s, me, Front(es), x)
      && (Delivered(es, x) != [] ==> x in Run(s, me, ON, es).messages)
  }

  ghost predicate Unknown(s: State, x: nat) {
    ViewOf(s, x) == View(None, None, map[])
  }

  lemma {:induction false} RunView(s: State, me: nat, es: seq<Event>, x: nat, c: nat)
    requires Unknown(s, x) && StaysCached(s, me, es, x)
    requires forall i :: 0 <= i < |es| ==> Sent(es[i]) && (Of(Carried(es[i]), x) != [] ==> Home(es[i]) == c)
    ensures ViewOf(Run(s, me, ON, es), x) == ReceiveAll(me, c, Delivered(es, x))
    ensures Delivered(es, x) == [] ==> x !in Run(s, me, ON, es).messages
  {
    if es != [] {
      var e, front := Last(es), Delivered(Front(es), x);
      RunView(s, me, Front(es), x, c);
      assert es[|es| - 1] == e;
      StepView(Run(s, me, ON, Front(es)), me, e, x);
      OfDistinct(Carried(e), x);
      if Of(Carried(e), x) != [] {
        assert Front(Delivered(es, x)) == front && Last(Delivered(es, x)) == Of(Carried(e), x)[0];
      } else {
        assert Delivered(es, x) == front;
      }
    }
  }

  // ---- In-order streams ----

  /** The same version again, a later edit, or the deletion; nothing follows a deletion but itself. */
  predicate Follows(a: Message, b: Message) {
    b == a ||
    (&& b.sender == a.sender && a.deletedAt.None?
     && (b.deletedAt.Some?
         || (b.editedAt.Some? && (a.editedAt.Some? ==> a.editedAt.value < b.editedAt.value))))
  }

  /** Duplicates and gaps are allowed, going back is not, and only tombstones are empty. */
  predicate InOrder(ms: seq<Message>) {
    ms != [] ==>
      && InOrder(Front(ms))
      && (Front(ms) != [] ==> Follows(Last(Front(ms)), Last(ms)))
      && (Last(ms).deletedAt.None? ==> Last(ms).ciphertext != "")
  }

  /** The different readable versions of a stream, in order. */
  function Versions(ms: seq<Message>): seq<Message> {
    if ms == [] then [] else
      var before, m := Versions(Front(ms)), Last(ms);
      if m.deletedAt.Some? || (before != [] && Last(before) == m) then before else before + [m]
  }

  /** Every version but the first was written over the one before it at its own edit time. */
  ghost predicate Records(history: map<int, Row>, c: nat, vs: seq<Message>) {
    && (forall i :: 1 <= i < |vs| ==> Recorded(history, c, vs, i))
    && (forall e :: e in history ==> exists i :: 1 <= i < |vs| && vs[i].editedAt == Some(e))
  }

  ghost predicate Recorded(history: map<int, Row>, c: nat, vs: seq<Message>, i: nat)
    requires 1 <= i < |vs|
  {
    var edit := vs[i].editedAt;
    edit.Some? && edit.value in history && history[edit.value] == Row(c, vs[i - 1])
  }

  ghost predicate Ascending(vs: seq<Message>) {
    forall i, j :: 0 <= i < j < |vs| ==>
      vs[j].editedAt.Some? && (vs[i].editedAt.Some? ==> vs[i].editedAt.value < vs[j].editedAt.value)
  }

  lemma RecordsNext(history: map<int, Row>, c: nat, vs: seq<Message>, m: Message)
    requires Records(history, c, vs) && Ascending(vs) && vs != []
    requires m != Last(vs) && Follows(Last(vs), m) && m.deletedAt.None?
    ensures m.editedAt.Some? && m.editedAt.value !in history && m.editedAt != Last(vs).editedAt
    ensures Records(history[m.editedAt.value := Row(c, Last(vs))], c, vs + [m])
    ensures Ascending(vs + [m])
  {
    NewEdit(history, c, vs, m);
    var ws, h := vs + [m], history[m.editedAt.value := Row(c, Last(vs))];
    forall i | 1 <= i < |ws|
      ensures Recorded(h, c, ws, i)
    {
      if i < |vs| { StillRecorded(history, c, vs, m, i); }
    }
    forall e | e in h
      ensures exists i :: 1 <= i < |ws| && ws[i].editedAt == Some(e)
    {
      if e != m.editedAt.value {
        var i :| 1 <= i < |vs| && vs[i].editedAt == Some(e);
        assert ws[i].editedAt == Some(e);
      } else {
        assert ws[|vs|] == m;
      }
    }
    AscendingNext(vs, m);
  }

  lemma AscendingNext(vs: seq<Message>, m: Message)
    requires Ascending(vs) && m.editedAt.Some?
    requires forall i :: 0 <= i < |vs| && vs[i].editedAt.Some? ==> vs[i].editedAt.value < m.editedAt.value
    ensures Ascending(vs + [m])
  {
    var ws := vs + [m];
    forall i, j | 0 <= i < j < |ws|
      ensures ws[j].editedAt.Some? && (ws[i].editedAt.Some? ==> ws[i].editedAt.value < ws[j].editedAt.value)
    {
      assert ws[i] == vs[i];
      if j < |vs| { assert ws[j] == vs[j]; } else { assert ws[j] == m; }
    }
  }

  /** A later edit has a time of its own. */
  lemma NewEdit(history: map<int, Row>, c: nat, vs: seq<Message>, m: Message)
    requires Records(history, c, vs) && Ascending(vs) && vs != []
    requires m != Last(vs) && Follows(Last(vs), m) && m.deletedAt.None?
    ensures m.editedAt.Some? && m.editedAt.value !in history && m.editedAt != Last(vs).editedAt
    ensures forall i :: 0 <= i < |vs| && vs[i].editedAt.Some? ==> vs[i].editedAt.value < m.editedAt.value
  {
    forall i | 0 <= i < |vs| && vs[i].editedAt.Some?
      ensures vs[i].editedAt.value < m.editedAt.value
    {
      if i < |vs| - 1 { assert vs[i].editedAt.value < vs[|vs| - 1].editedAt.value; }
    }
    forall e | e in history
      ensures e < m.editedAt.value
    {
      var i :| 1 <= i < |vs| && vs[i].editedAt == Some(e);
    }
  }

  lemma StillRecorded(history: map<int, Row>, c: nat, vs: seq<Message>, m: Message, i: nat)
    requires 1 <= i < |vs| && Recorded(history, c, vs, i)
    requires m.editedAt.Some? && vs[i].editedAt.value < m.editedAt.value
    ensures Recorded(history[m.editedAt.value := Row(c, Last(vs))], c, vs + [m], i)
  {
  }

  /** Of somebody else's deleted message, the version that arrived last before its deletion. */
  function DeletedOriginal(me: nat, c: nat, ms: seq<Message>): Option<Kept> {
    var vs := Versions(ms);
    if ms != [] && Last(ms).deletedAt.Some? && vs != [] && Last(ms).sender != me
    then Some(Kept(c, Last(ms).deletedAt.value, Last(vs))) else None
  }

  /** What the tables hold about a message after an in-order stream of its versions. */
  ghost predicate Holds(v: View, me: nat, c: nat, ms: seq<Message>) {
    var vs := Versions(ms);
    && v.row == (if ms == [] then None else Some(Row(c, Last(ms))))
    && Records(v.history, c, vs) && Ascending(vs)
    && (ms != [] && Last(ms).deletedAt.None? ==> vs != [] && Last(vs) == Last(ms))
    && v.kept == DeletedOriginal(me, c, ms)
  }

  lemma {:induction false} StreamHolds(me: nat, c: nat, ms: seq<Message>)
    requires InOrder(ms)
    ensures Holds(ReceiveAll(me, c, ms), me, c, ms)
  {
    if ms != [] {
      var front, m := Front(ms), Last(ms);
      StreamHolds(me, c, front);
      var before := Versions(front);
      if front != [] && Last(front).deletedAt.None? && m.deletedAt.None? && m != Last(front) {
        RecordsNext(ReceiveAll(me, c, front).history, c, before, m);
      }
    }
  }

  predicate Increasing(a: seq<int>) {
    forall i, j :: 0 <= i < j < |a| ==> a[i] < a[j]
  }

  lemma HasElement(a: seq<int>)
    ensures a != [] ==> a[0] in a
  {
  }

  /** Increasing lists of the same times are the same list. */
  lemma {:induction false} SameIncreasing(a: seq<int>, b: seq<int>)
    requires Increasing(a) && Increasing(b) && forall e :: e in a <==> e in b
    ensures a == b
  {
    HasElement(a);
    HasElement(b);
    if a != [] && b != [] {
      SameLast(a, b);
      forall e
        ensures e in Front(a) <==> e in Front(b)
      {
        FrontElement(a, e);
        FrontElement(b, e);
      }
      SameIncreasing(Front(a), Front(b));
      assert a == Front(a) + [Last(a)] && b == Front(b) + [Last(b)];
    }
  }

  lemma SameLast(a: seq<int>, b: seq<int>)
    requires Increasing(a) && Increasing(b) && forall e :: e in a <==> e in b
    requires a != [] && b != []
    ensures Last(a) == Last(b)
  {
    assert Last(a) in a && Last(b) in b;
  }

  lemma FrontElement(a: seq<int>, e: int)
    requires Increasing(a) && a != []
    ensures e in Front(a) <==> e in a && e != Last(a)
  {
    assert a == Front(a) + [Last(a)];
  }

  /** The times at which the versions after the first were written. */
  function EditTimes(vs: seq<Message>): seq<int> {
    if |vs| <= 1 then [] else EditTimes(Front(vs)) + [Or(Last(vs).editedAt, 0)]
  }

  lemma {:induction false} EditTimeAt(vs: seq<Message>, i: nat)
    ensures |EditTimes(vs)| == if vs == [] then 0 else |vs| - 1
    ensures 1 <= i < |vs| ==> EditTimes(vs)[i - 1] == Or(vs[i].editedAt, 0)
  {
    if |vs| > 1 { EditTimeAt(Front(vs), i); }
  }

  function ListTimes(list: seq<Version>): seq<int> {
    seq(|list|, i requires 0 <= i < |list| => list[i].editedAt)
  }

  lemma SameTimes(list: seq<Version>, history: map<int, Row>, c: nat, vs: seq<Message>)
    requires Records(history, c, vs) && Ascending(vs)
    requires forall i :: 0 <= i < |list| ==> list[i].editedAt in history
    requires forall e :: e in history ==> exists i :: 0 <= i < |list| && list[i].editedAt == e
    requires forall i, j :: 0 <= i < j < |list| ==> list[i].editedAt < list[j].editedAt
    ensures ListTimes(list) == EditTimes(vs)
  {
    forall e
      ensures e in ListTimes(list) <==> e in history
      ensures e in EditTimes(vs) <==> e in history
    {
      ListTimesAre(list, history, e);
      EditTimesAre(history, c, vs, e);
    }
    EditTimesIncrease(vs);
    SameIncreasing(ListTimes(list), EditTimes(vs));
  }

  lemma ListTimesAre(list: seq<Version>, history: map<int, Row>, e: int)
    requires forall i :: 0 <= i < |list| ==> list[i].editedAt in history
    requires e in history ==> exists i :: 0 <= i < |list| && list[i].editedAt == e
    ensures e in ListTimes(list) <==> e in history
  {
    if e in history {
      var i :| 0 <= i < |list| && list[i].editedAt == e;
      assert ListTimes(list)[i] == e;
    }
  }

  lemma EditTimesAre(history: map<int, Row>, c: nat, vs: seq<Message>, e: int)
    requires Records(history, c, vs)
    ensures e in EditTimes(vs) <==> e in history
  {
    EditTimeAt(vs, 0);
    if e in history {
      var i :| 1 <= i < |vs| && vs[i].editedAt == Some(e);
      EditTimeAt(vs, i);
    }
    if e in EditTimes(vs) {
      var i :| 0 <= i < |EditTimes(vs)| && EditTimes(vs)[i] == e;
      EditTimeAt(vs, i + 1);
      assert Recorded(history, c, vs, i + 1);
    }
  }

  lemma EditTimesIncrease(vs: seq<Message>)
    requires Ascending(vs)
    ensures Increasing(EditTimes(vs))
  {
    forall i, j | 0 <= i < j < |EditTimes(vs)|
      ensures EditTimes(vs)[i] < EditTimes(vs)[j]
    {
      EditTimeAt(vs, i + 1);
      EditTimeAt(vs, j + 1);
      assert vs[0].editedAt == vs[0].editedAt;
    }
  }

  /** The list read back is the recorded versions, each under the time of the edit that replaced it. */
  ghost predicate EarlierVersions(list: seq<Version>, vs: seq<Message>) {
    && |list| == (if vs == [] then 0 else |vs| - 1)
    && forall i :: 0 <= i < |list| ==> vs[i + 1].editedAt == Some(list[i].editedAt) && list[i].message == vs[i]
  }

  /** The list read from the table, seen through the history of its message. */
  lemma ListReadsHistory(history: map<VersionKey, Row>, x: nat, c: nat, list: seq<Version>, vs: seq<Message>)
    requires Records(HistoryOf(history, x), c, vs)
    requires VersionsOf(history, c, x, list)
    ensures var h := HistoryOf(history, x);
            && (forall i :: 0 <= i < |list| ==>
                  list[i].editedAt in h && h[list[i].editedAt] == Row(c, list[i].message))
            && (forall e :: e in h ==> exists i :: 0 <= i < |list| && list[i].editedAt == e)
  {
    var h := HistoryOf(history, x);
    forall i | 0 <= i < |list|
      ensures list[i].editedAt in h && h[list[i].editedAt] == Row(c, list[i].message)
    {
      HistoryAt(history, x, list[i].editedAt);
    }
    forall e | e in h
      ensures exists i :: 0 <= i < |list| && list[i].editedAt == e
    {
      HistoryAt(history, x, e);
      RecordedRow(h, c, vs, e);
    }
  }

  lemma RecordedRow(history: map<int, Row>, c: nat, vs: seq<Message>, e: int)
    requires Records(history, c, vs) && e in history
    ensures history[e].conversation == c
  {
    var i :| 1 <= i < |vs| && vs[i].editedAt == Some(e);
    assert Recorded(history, c, vs, i);
  }

  lemma ListedInOrder(history: map<VersionKey, Row>, x: nat, c: nat, list: seq<Version>, vs: seq<Message>)
    requires Records(HistoryOf(history, x), c, vs) && Ascending(vs)
    requires VersionsOf(history, c, x, list)
    ensures EarlierVersions(list, vs)
  {
    var h := HistoryOf(history, x);
    ListReadsHistory(history, x, c, list, vs);
    SameTimes(list, h, c, vs);
    EditTimeAt(vs, 0);
    assert |ListTimes(list)| == |list|;
    forall i | 0 <= i < |list|
      ensures vs[i + 1].editedAt == Some(list[i].editedAt) && list[i].message == vs[i]
    {
      ListedAt(h, c, list, vs, i);
    }
  }

  lemma ListedAt(h: map<int, Row>, c: nat, list: seq<Version>, vs: seq<Message>, i: nat)
    requires Records(h, c, vs) && i < |list| && i + 1 < |vs|
    requires ListTimes(list) == EditTimes(vs)
    requires list[i].editedAt in h && h[list[i].editedAt] == Row(c, list[i].message)
    ensures vs[i + 1].editedAt == Some(list[i].editedAt) && list[i].message == vs[i]
  {
    EditTimeAt(vs, i + 1);
    assert ListTimes(list)[i] == list[i].editedAt;
    assert Recorded(h, c, vs, i + 1);
  }

  /**
    * While a message stays cached and both settings are on, an in-order stream of its versions with
    * any duplicates and gaps leaves in the edit history exactly the earlier versions that were
    * delivered, in order and each under the time it was edited at, and in the deleted log exactly
    * the version delivered last before the deletion, for messages of other people only.
    */
  lemma RetentionIsExact(s: State, me: nat, es: seq<Event>, x: nat, c: nat, list: seq<Version>)
    requires Unknown(s, x) && StaysCached(s, me, es, x)
    requires forall i :: 0 <= i < |es| ==> Sent(es[i]) && (Of(Carried(es[i]), x) != [] ==> Home(es[i]) == c)
    requires InOrder(Delivered(es, x))
    requires VersionsOf(Run(s, me, ON, es).history, c, x, list)
    ensures EarlierVersions(list, Versions(Delivered(es, x)))
    ensures ViewOf(Run(s, me, ON, es), x).kept == DeletedOriginal(me, c, Delivered(es, x))
  {
    RunView(s, me, es, x, c);
    StreamHolds(me, c, Delivered(es, x));
    ListedInOrder(Run(s, me, ON, es).history, x, c, list, Versions(Delivered(es, x)));
  }

  lemma HistoryAt(history: map<VersionKey, Row>, x: nat, e: int)
    ensures e in HistoryOf(history, x) <==> VersionKey(x, e) in history
    ensures e in HistoryOf(history, x) ==> HistoryOf(history, x)[e] == history[VersionKey(x, e)]
  {
    if VersionKey(x, e) in history {
      assert VersionKey(x, e).id == x && VersionKey(x, e).editedAt == e;
    }
  }

  // ---- What the settings decide ----

  /** `t` is `s` as far as the settings let it be kept: the rest of its log is as it was in `from`. */
  predicate AsFarAs(t: State, s: State, from: State, set_: Settings) {
    && t.messages == s.messages
    && t.kept == (if set_.keepDeletedMessages then s.kept else from.kept)
    && t.history == (if set_.keepEditHistory then s.history else from.history)
  }

  lemma {:induction false} SnapshotAsFarAs(t: State, s: State, from: State, me: nat, set_: Settings, page: seq<Message>)
    requires AsFarAs(t, s, from, set_)
    ensures AsFarAs(Snapshot(t, me, set_, page), Snapshot(s, me, ON, page), from, set_)
  {
    if page != [] { SnapshotAsFarAs(t, s, from, me, set_, Front(page)); }
  }

  /**
    * Each setting decides about its own log alone: with it, the log is what it is with both settings on;
    * without it, nothing is ever added. The cached messages do not depend on the settings.
    */
  lemma {:induction false} SettingsDecide(s: State, me: nat, set_: Settings, es: seq<Event>)
    ensures AsFarAs(Run(s, me, set_, es), Run(s, me, ON, es), s, set_)
  {
    if es != [] {
      var e := Last(es);
      SettingsDecide(s, me, set_, Front(es));
      if e.Fetched? {
        SnapshotAsFarAs(Run(s, me, set_, Front(es)), Run(s, me, ON, Front(es)), s, me, set_, e.page);
      }
    }
  }

  /** An edit or a deletion that does not say when it happened is logged under the clock of the device. */
  lemma MissingTimeIsNow(s: State, me: nat, m: Message, now: int)
    requires Readable(s.messages, m.id)
    ensures m.editedAt.None? && s.messages[m.id].message.editedAt != Some(now)
            && VersionKey(m.id, now) !in s.history ==>
              Step(s, me, ON, Event.Edited(m, now)).history == s.history[VersionKey(m.id, now) := s.messages[m.id]]
    ensures m.deletedAt.None? && m.sender != me && m.id !in s.kept ==>
              Step(s, me, ON, Event.Deleted(m, now)).kept ==
                s.kept[m.id := Kept(s.messages[m.id].conversation, now, s.messages[m.id].message)]
  {
  }
}
