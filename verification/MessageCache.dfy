/**
  * The SQLite cache of the mobile client: recent messages capped per conversation, the outbox of
  * unsent texts, and the opt-in log of deleted and edited versions. Each table is a field holding
  * a map from its primary key to its row; every statement of the source replaces the map.
  */
module MessageCache {
  import opened Base
  import opened Newest

  const MAX_CACHED_MESSAGES_PER_CONVERSATION: nat := 300

  /** What the cache looks at in a message as the server sent it; the ciphertext is not interpreted. */
  datatype Message = Message(
    id: nat, conversation: nat, sender: nat, createdAt: int, ciphertext: string,
    editedAt: Option<int>, deletedAt: Option<int>)

  datatype Row = Row(conversation: nat, message: Message)

  type Table = map<nat, Row>

  datatype Entry = Entry(
    localId: nat, conversation: nat, text: string, replyTo: Option<nat>, mentions: seq<nat>, createdAt: int)

  datatype Kept = Kept(conversation: nat, deletedAt: int, message: Message)

  /** Primary key of `edit_history`. */
  datatype VersionKey = VersionKey(id: nat, editedAt: int)

  datatype Version = Version(editedAt: int, message: Message)

  function Ids(t: Table, c: nat): set<nat> {
    set x | x in t && t[x].conversation == c
  }

  function CreatedAt(t: Table): (r: Times) {
    map x | x in t :: t[x].message.createdAt
  }

  /** The newest `limit` cached messages of a conversation. */
  function NewestIds(t: Table, c: nat, limit: nat): set<nat> {
    Top(Ids(t, c), CreatedAt(t), limit)
  }

  function InsertAll(t: Table, rows: seq<Row>): Table {
    if rows == [] then t else InsertAll(t, Front(rows))[Last(rows).message.id := Last(rows)]
  }

  function Rows(c: nat, batch: seq<Message>): seq<Row> {
    seq(|batch|, i requires 0 <= i < |batch| => Row(c, batch[i]))
  }

  /** Drops everything beyond the newest 300 of one conversation. */
  function Cap(t: Table, c: nat): Table {
    map x | x in t && (t[x].conversation == c ==> x in NewestIds(t, c, MAX_CACHED_MESSAGES_PER_CONVERSATION)) :: t[x]
  }

  function Save(t: Table, c: nat, batch: seq<Message>): Table {
    if batch == [] then t else Cap(InsertAll(t, Rows(c, batch)), c)
  }

  /** The message whose original may be kept: it is cached with content and not already a tombstone. */
  predicate Readable(t: Table, x: nat) {
    x in t && t[x].message.ciphertext != "" && t[x].message.deletedAt.None?
  }

  function KeepDeleted(t: Table, kept: map<nat, Kept>, x: nat, deletedAt: int): map<nat, Kept> {
    if Readable(t, x) && x !in kept then kept[x := Kept(t[x].conversation, deletedAt, t[x].message)] else kept
  }

  function KeepEdit(t: Table, history: map<VersionKey, Row>, x: nat, editedAt: int): map<VersionKey, Row> {
    if Readable(t, x) && t[x].message.editedAt != Some(editedAt) && VersionKey(x, editedAt) !in history
    then history[VersionKey(x, editedAt) := t[x]]
    else history
  }

  function MessagesWithout(t: Table, c: nat): Table {
    map x | x in t && t[x].conversation != c :: t[x]
  }

  function OutboxWithout(outbox: map<nat, Entry>, c: nat): map<nat, Entry> {
    map l | l in outbox && outbox[l].conversation != c :: outbox[l]
  }

  function KeptWithout(kept: map<nat, Kept>, c: nat): map<nat, Kept> {
    map x | x in kept && kept[x].conversation != c :: kept[x]
  }

  function HistoryWithout(history: map<VersionKey, Row>, c: nat): map<VersionKey, Row> {
    map k | k in history && history[k].conversation != c :: history[k]
  }

  predicate OldestFirst(t: Table, r: seq<Message>) {
    && (forall i :: 0 <= i < |r| ==> r[i].id in t && t[r[i].id].message == r[i])
    && forall i, j :: 0 <= i < j < |r| ==> Newer(CreatedAt(t), r[j].id, r[i].id)
  }

  predicate Lists(r: seq<Message>, x: nat) {
    exists i :: 0 <= i < |r| && r[i].id == x
  }

  lemma ListsCons(m: Message, r: seq<Message>)
    ensures forall x :: Lists([m] + r, x) <==> x == m.id || Lists(r, x)
  {
    var s := [m] + r;
    assert s[0] == m && forall i :: 0 <= i < |r| ==> s[i + 1] == r[i];
    forall x | Lists(r, x)
      ensures Lists(s, x)
    {
      var i :| 0 <= i < |r| && r[i].id == x;
      assert s[i + 1].id == x;
    }
  }

  predicate InOutboxOrder(r: seq<Entry>) {
    forall i, j :: 0 <= i < j < |r| ==> r[i].createdAt <= r[j].createdAt
  }

  /** The rows of the outbox in the order they were written, each once. */
  ghost predicate OutboxList(outbox: map<nat, Entry>, r: seq<Entry>) {
    && InOutboxOrder(r)
    && (forall l :: l in outbox ==> outbox[l] in r)
    && (forall i :: 0 <= i < |r| ==> r[i].localId in outbox && outbox[r[i].localId] == r[i])
    && forall i, j :: 0 <= i < j < |r| ==> r[i].localId != r[j].localId
  }

  /** Exactly the stored versions of `x` in conversation `c`, oldest edit first. */
  ghost predicate VersionsOf(history: map<VersionKey, Row>, c: nat, x: nat, vs: seq<Version>) {
    && (forall i :: 0 <= i < |vs| ==>
          && VersionKey(x, vs[i].editedAt) in history
          && history[VersionKey(x, vs[i].editedAt)] == Row(c, vs[i].message))
    && (forall e :: VersionKey(x, e) in history && history[VersionKey(x, e)].conversation == c ==>
          exists i :: 0 <= i < |vs| && vs[i].editedAt == e)
    && forall i, j :: 0 <= i < j < |vs| ==> vs[i].editedAt < vs[j].editedAt
  }

  class MessageCache {
    var messages: Table
    var outbox: map<nat, Entry>
    var kept: map<nat, Kept>
    var history: map<VersionKey, Row>

    /** Every row sits under its own key, as a primary key column does. */
    ghost predicate Valid()
      reads this
    {
      && (forall x :: x in messages ==> messages[x].message.id == x)
      && forall l :: l in outbox ==> outbox[l].localId == l
    }

    constructor ()
      ensures Valid()
      ensures messages == map[] && outbox == map[] && kept == map[] && history == map[]
    {
      messages, outbox, kept, history := map[], map[], map[], map[];
    }

    method SaveMessages(c: nat, batch: seq<Message>)
      requires Valid()
      modifies `messages
      ensures Valid()
      ensures messages == Save(old(messages), c, batch)
    {
      if batch == [] {
        return;
      }
      ghost var rows := Rows(c, batch);
      for i := 0 to |batch|
        invariant Valid()
        invariant messages == InsertAll(old(messages), rows[..i])
      {
        messages := messages[batch[i].id := Row(c, batch[i])];
        assert Front(rows[..i + 1]) == rows[..i];
      }
      assert rows[..|batch|] == rows;
      var newest := NewestIds(messages, c, MAX_CACHED_MESSAGES_PER_CONVERSATION);
      messages := map x | x in messages && (messages[x].conversation == c ==> x in newest) :: messages[x];
    }

    /** The newest `limit` cached messages of the conversation, each once, oldest first. */
    method GetMessages(c: nat, limit: nat) returns (r: seq<Message>)
      requires Valid()
      ensures OldestFirst(messages, r)
      ensures forall x :: Lists(r, x) <==> x in NewestIds(messages, c, limit)
    {
      var times := CreatedAt(messages);
      var left := Ids(messages, c);
      var n: nat := limit;
      r := [];
      ghost var all := left;
      while n > 0 && left != {}
        invariant n <= limit && left <= all
        invariant OldestFirst(messages, r)
        invariant forall i, x :: 0 <= i < |r| && x in left ==> Newer(times, r[i].id, x)
        invariant forall x ::
          x in Top(all, times, limit) <==> x in Top(left, times, n) || Lists(r, x)
      {
        LatestExists(left, times);
        var m :| m in left && forall y :: y in left && y != m ==> Newer(times, m, y);
        TopWithLatest(left, times, n, m);
        ghost var before := r;
        r := [messages[m].message] + r;
        ListsCons(messages[m].message, before);
        left := left - {m};
        n := n - 1;
      }
      assert Top(left, times, n) == {};
    }

    method DeleteMessage(x: nat)
      requires Valid()
      modifies `messages
      ensures Valid()
      ensures messages == old(messages) - {x}
    {
      messages := messages - {x};
    }

    /** Nothing of the conversation is left in any table, and nothing else is touched. */
    method DeleteConversation(c: nat)
      requires Valid()
      modifies this
      ensures Valid()
      ensures messages == MessagesWithout(old(messages), c) && outbox == OutboxWithout(old(outbox), c)
      ensures kept == KeptWithout(old(kept), c) && history == HistoryWithout(old(history), c)
    {
      messages := map x | x in messages && messages[x].conversation != c :: messages[x];
      outbox := map l | l in outbox && outbox[l].conversation != c :: outbox[l];
      kept := map x | x in kept && kept[x].conversation != c :: kept[x];
      history := map k | k in history && history[k].conversation != c :: history[k];
    }

    method AddToOutbox(e: Entry)
      requires Valid()
      modifies `outbox
      ensures Valid()
      ensures outbox == old(outbox)[e.localId := e]
    {
      outbox := outbox[e.localId := e];
    }

    method RemoveFromOutbox(localId: nat)
      requires Valid()
      modifies `outbox
      ensures Valid()
      ensures outbox == old(outbox) - {localId}
    {
      outbox := outbox - {localId};
    }

    /** Every entry exactly once, in the order the entries were written. */
    method GetOutbox() returns (r: seq<Entry>)
      requires Valid()
      ensures OutboxList(outbox, r)
    {
      r := [];
      var left := outbox.Keys;
      while left != {}
        invariant left <= outbox.Keys
        invariant Drained(outbox, r, left)
      {
        EarliestExists(outbox, left);
        var m :| m in left && Earliest(outbox, left, m);
        DrainedOne(outbox, r, left, m);
        r := r + [outbox[m]];
        left := left - {m};
      }
    }

    method KeepDeletedOriginal(x: nat, deletedAt: int)
      requires Valid()
      modifies `kept
      ensures kept == KeepDeleted(messages, old(kept), x, deletedAt)
    {
      if x !in messages { return; }
      var row := messages[x];
      if row.message.ciphertext == "" || row.message.deletedAt.Some? { return; }
      if x !in kept {
        kept := kept[x := Kept(row.conversation, deletedAt, row.message)];
      }
    }

    method KeepEditVersion(x: nat, editedAt: int)
      requires Valid()
      modifies `history
      ensures history == KeepEdit(messages, old(history), x, editedAt)
    {
      if x !in messages { return; }
      var row := messages[x];
      if row.message.ciphertext == "" || row.message.deletedAt.Some? { return; }
      if row.message.editedAt == Some(editedAt) { return; }
      if VersionKey(x, editedAt) !in history {
        history := history[VersionKey(x, editedAt) := row];
      }
    }

    /** All stored versions of the conversation, grouped by message, oldest edit first. */
    method GetEditHistory(c: nat) returns (grouped: map<nat, seq<Version>>)
      ensures forall x :: x in grouped ==> grouped[x] != [] && VersionsOf(history, c, x, grouped[x])
      ensures forall k :: k in history && history[k].conversation == c ==> k.id in grouped
    {
      grouped := map[];
      var left := set k | k in history && history[k].conversation == c;
      while left != {}
        invariant Grouped(history, c, grouped, left)
      {
        FirstEditExists(left);
        var k :| k in left && FirstEdit(left, k);
        GroupedOne(history, c, grouped, left, k);
        var list := if k.id in grouped then grouped[k.id] else [];
        grouped := grouped[k.id := list + [Version(k.editedAt, history[k].message)]];
        left := left - {k};
      }
    }

    /** Logging out leaves nothing behind. */
    method ClearAll()
      modifies this
      ensures messages == map[] && outbox == map[] && kept == map[] && history == map[]
    {
      messages, outbox, kept, history := map[], map[], map[], map[];
    }
  }

  /** The entries that are not waiting in `left` any more, each once, none later than a waiting one. */
  ghost predicate Drained(outbox: map<nat, Entry>, r: seq<Entry>, left: set<nat>) {
    && InOutboxOrder(r)
    && (forall l :: l in outbox && l !in left ==> outbox[l] in r)
    && (forall i :: 0 <= i < |r| ==>
          r[i].localId in outbox && outbox[r[i].localId] == r[i] && r[i].localId !in left)
    && (forall i, l :: 0 <= i < |r| && l in left && l in outbox ==> r[i].createdAt <= outbox[l].createdAt)
    && forall i, j :: 0 <= i < j < |r| ==> r[i].localId != r[j].localId
  }

  lemma DrainedOne(outbox: map<nat, Entry>, r: seq<Entry>, left: set<nat>, m: nat)
    requires Drained(outbox, r, left) && m in left && m in outbox && outbox[m].localId == m
    requires forall l :: l in left && l in outbox ==> outbox[m].createdAt <= outbox[l].createdAt
    ensures Drained(outbox, r + [outbox[m]], left - {m})
  {
    assert (r + [outbox[m]])[|r|] == outbox[m];
  }

  predicate Earliest(outbox: map<nat, Entry>, left: set<nat>, m: nat)
    requires left <= outbox.Keys
  {
    m in left && forall l :: l in left ==> outbox[m].createdAt <= outbox[l].createdAt
  }

  lemma {:induction false} EarliestExists(outbox: map<nat, Entry>, left: set<nat>)
    requires left <= outbox.Keys && left != {}
    ensures exists m :: Earliest(outbox, left, m)
    decreases |left|
  {
    var x :| x in left;
    var rest := left - {x};
    if rest == {} {
      assert left == {x};
      assert Earliest(outbox, left, x);
    } else {
      EarliestExists(outbox, rest);
      var o :| Earliest(outbox, rest, o);
      assert left == rest + {x};
      assert Earliest(outbox, left, if outbox[x].createdAt < outbox[o].createdAt then x else o);
    }
  }

  predicate FirstEdit(left: set<VersionKey>, k: VersionKey) {
    k in left && forall j :: j in left ==> k.editedAt <= j.editedAt
  }

  lemma {:induction false} FirstEditExists(left: set<VersionKey>)
    requires left != {}
    ensures exists k :: FirstEdit(left, k)
    decreases |left|
  {
    var x :| x in left;
    var rest := left - {x};
    if rest == {} {
      assert left == {x};
      assert FirstEdit(left, x);
    } else {
      FirstEditExists(rest);
      var o :| FirstEdit(rest, o);
      assert left == rest + {x};
      assert FirstEdit(left, if x.editedAt < o.editedAt then x else o);
    }
  }

  /** The versions of `x` that are no longer waiting in `left`, in order. */
  ghost predicate Collected(history: map<VersionKey, Row>, c: nat, x: nat, vs: seq<Version>, left: set<VersionKey>) {
    && (forall i :: 0 <= i < |vs| ==>
          && VersionKey(x, vs[i].editedAt) in history
          && history[VersionKey(x, vs[i].editedAt)] == Row(c, vs[i].message))
    && (forall e :: VersionKey(x, e) in history && history[VersionKey(x, e)].conversation == c ==>
          VersionKey(x, e) in left || exists i :: 0 <= i < |vs| && vs[i].editedAt == e)
    && (forall i, j :: 0 <= i < j < |vs| ==> vs[i].editedAt < vs[j].editedAt)
    && forall i, e :: 0 <= i < |vs| && VersionKey(x, e) in left ==> vs[i].editedAt < e
  }

  lemma CollectedOne(history: map<VersionKey, Row>, c: nat, k: VersionKey, vs: seq<Version>, left: set<VersionKey>)
    requires k in left && k in history && history[k].conversation == c
    requires forall j :: j in left ==> k.editedAt <= j.editedAt
    requires vs == [] ==> forall e ::
               VersionKey(k.id, e) in history && history[VersionKey(k.id, e)].conversation == c ==>
                 VersionKey(k.id, e) in left
    requires vs != [] ==> Collected(history, c, k.id, vs, left)
    ensures Collected(history, c, k.id, vs + [Version(k.editedAt, history[k].message)], left - {k})
  {
    var r := vs + [Version(k.editedAt, history[k].message)];
    forall e | VersionKey(k.id, e) in history && history[VersionKey(k.id, e)].conversation == c
               && VersionKey(k.id, e) !in left - {k}
      ensures exists i :: 0 <= i < |r| && r[i].editedAt == e
    {
      FoundIn(vs, Version(k.editedAt, history[k].message), e);
    }
  }

  /** The groups so far: per message its collected versions, and no message without one is missing. */
  ghost predicate Grouped(
    history: map<VersionKey, Row>, c: nat, grouped: map<nat, seq<Version>>, left: set<VersionKey>)
  {
    && (forall k :: k in left ==> k in history && history[k].conversation == c)
    && (forall x :: x in grouped ==> grouped[x] != [] && Collected(history, c, x, grouped[x], left))
    && (forall k :: k in history && history[k].conversation == c ==> k in left || k.id in grouped)
  }

  lemma GroupedOne(
    history: map<VersionKey, Row>, c: nat, grouped: map<nat, seq<Version>>, left: set<VersionKey>, k: VersionKey)
    requires Grouped(history, c, grouped, left) && k in left && FirstEdit(left, k)
    ensures var list := if k.id in grouped then grouped[k.id] else [];
            Grouped(history, c, grouped[k.id := list + [Version(k.editedAt, history[k].message)]], left - {k})
  {
    var list := if k.id in grouped then grouped[k.id] else [];
    CollectedOne(history, c, k, list, left);
    CollectedOthers(history, c, k, left);
  }

  lemma FoundIn(vs: seq<Version>, v: Version, e: int)
    requires e == v.editedAt || exists i :: 0 <= i < |vs| && vs[i].editedAt == e
    ensures exists i :: 0 <= i < |vs + [v]| && (vs + [v])[i].editedAt == e
  {
    if e == v.editedAt {
      assert (vs + [v])[|vs|].editedAt == e;
    } else {
      var i :| 0 <= i < |vs| && vs[i].editedAt == e;
      assert (vs + [v])[i].editedAt == e;
    }
  }

  lemma CollectedOthers(history: map<VersionKey, Row>, c: nat, k: VersionKey, left: set<VersionKey>)
    ensures forall x, vs :: x != k.id && Collected(history, c, x, vs, left) ==> Collected(history, c, x, vs, left - {k})
  {
  }

  // ---- What is left after a deletion ----

  function EntriesWithout(r: seq<Entry>, c: nat): seq<Entry> {
    Filter((e: Entry) => e.conversation != c, r)
  }

  lemma EntriesWithoutIn(r: seq<Entry>, c: nat, e: Entry)
    ensures e in EntriesWithout(r, c) <==> e in r && e.conversation != c
  {
    FilterIn((e: Entry) => e.conversation != c, r, e);
  }

  lemma {:induction false} EntriesWithoutOrder(r: seq<Entry>, c: nat)
    requires InOutboxOrder(r) && forall i, j :: 0 <= i < j < |r| ==> r[i].localId != r[j].localId
    ensures var w := EntriesWithout(r, c);
            InOutboxOrder(w) && forall i, j :: 0 <= i < j < |w| ==> w[i].localId != w[j].localId
  {
    if r != [] {
      var front, w := Front(r), EntriesWithout(Front(r), c);
      EntriesWithoutOrder(front, c);
      forall i | 0 <= i < |w|
        ensures w[i].createdAt <= Last(r).createdAt && w[i].localId != Last(r).localId
      {
        EntriesWithoutIn(front, c, w[i]);
        var j :| 0 <= j < |front| && front[j] == w[i];
        assert r[j] == w[i];
      }
    }
  }

  /** A flush after the deletion of a conversation goes over the same entries but those of the conversation. */
  lemma OutboxAfterDeletion(outbox: map<nat, Entry>, c: nat, r: seq<Entry>)
    requires OutboxList(outbox, r) && forall l :: l in outbox ==> outbox[l].localId == l
    ensures OutboxList(OutboxWithout(outbox, c), EntriesWithout(r, c))
    ensures forall e :: e in EntriesWithout(r, c) ==> e.conversation != c
  {
    var w := EntriesWithout(r, c);
    EntriesWithoutOrder(r, c);
    forall e
      ensures e in w <==> e in r && e.conversation != c
    {
      EntriesWithoutIn(r, c, e);
    }
    forall i | 0 <= i < |w|
      ensures w[i].localId in OutboxWithout(outbox, c) && OutboxWithout(outbox, c)[w[i].localId] == w[i]
    {
      var j :| 0 <= j < |r| && r[j] == w[i];
    }
  }

  /** After the deletion of one message the reads give it no more, and every other message they gave still. */
  lemma MessageDeletionIsExact(t: Table, x: nat, c: nat, limit: nat)
    ensures x !in NewestIds(t - {x}, c, limit)
    ensures NewestIds(t, c, limit) - {x} <= NewestIds(t - {x}, c, limit)
  {
    var w := t - {x};
    forall y | y in NewestIds(t, c, limit) && y != x
      ensures y in NewestIds(w, c, limit)
    {
      SubsetSize(Above(Ids(w, c), CreatedAt(w), y), Above(Ids(t, c), CreatedAt(t), y));
    }
  }

  /**
    * What the reading calls give after the deletion of conversation `c`: nothing of `c`, and of every
    * other conversation exactly what they gave before.
    */
  lemma DeletionIsExact(t: Table, history: map<VersionKey, Row>, kept: map<nat, Kept>,
                        c: nat, d: nat, limit: nat, x: nat, vs: seq<Version>)
    ensures NewestIds(MessagesWithout(t, c), d, limit) == if d == c then {} else NewestIds(t, d, limit)
    ensures forall y :: d != c && y in Ids(t, d) ==>
              y in MessagesWithout(t, c) && MessagesWithout(t, c)[y] == t[y]
    ensures VersionsOf(HistoryWithout(history, c), d, x, vs) <==>
            if d == c then vs == [] else VersionsOf(history, d, x, vs)
    ensures x in KeptWithout(kept, c) <==> x in kept && kept[x].conversation != c
    ensures x in KeptWithout(kept, c) ==> KeptWithout(kept, c)[x] == kept[x]
  {
    var w, h := MessagesWithout(t, c), HistoryWithout(history, c);
    if d != c {
      assert Ids(w, d) == Ids(t, d);
      forall y | y in Ids(t, d)
        ensures Above(Ids(w, d), CreatedAt(w), y) == Above(Ids(t, d), CreatedAt(t), y)
      {
      }
    } else {
      assert Ids(w, d) == {};
      var first := if vs == [] then None else Some(VersionKey(x, vs[0].editedAt));
    }
  }
}
