/**
  * The cap is applied after every save, to whatever happens to be cached at that moment. The
  * simple thing it should equal: write everything ever received into a table without a cap, forget
  * what was deleted, and look at the newest 300 of each conversation.
  */
module CappedCache {
  import opened Base
  import opened MessageCache
  import opened Newest

  /** The calls that change the cached messages: a save, the deletion of a conversation, and logging out. */
  datatype Change = Saved(conversation: nat, messages: seq<Message>) | Deleted(conversation: nat) | Cleared

  function Do(t: Table, c: Change): Table {
    match c
    case Saved(conversation, messages) => Save(t, conversation, messages)
    case Deleted(conversation) => MessagesWithout(t, conversation)
    case Cleared => map[]
  }

  /** The table after a sequence of changes, starting empty. */
  function DoAll(cs: seq<Change>): Table {
    if cs == [] then map[] else Do(DoAll(Front(cs)), Last(cs))
  }

  /** The calls of the cache behind these changes. */
  method Apply(cache: MessageCache, c: Change)
    requires cache.Valid()
    modifies cache
    ensures cache.Valid()
    ensures cache.messages == Do(old(cache.messages), c)
  {
    match c
    case Saved(conversation, messages) => cache.SaveMessages(conversation, messages);
    case Deleted(conversation) => cache.DeleteConversation(conversation);
    case Cleared => cache.ClearAll();
  }

  function RowsWithout(rows: seq<Row>, c: nat): seq<Row> {
    Filter((r: Row) => r.conversation != c, rows)
  }

  /** Everything ever saved, in the order it was written. */
  function EverSaved(cs: seq<Change>): seq<Row> {
    if cs == [] then []
    else EverSaved(Front(cs)) + if Last(cs).Saved? then Rows(Last(cs).conversation, Last(cs).messages) else []
  }

  /** Everything saved since the last deletion of its conversation, in the order it was written. */
  function Log(cs: seq<Change>): seq<Row> {
    if cs == [] then []
    else match Last(cs)
      case Saved(conversation, messages) => Log(Front(cs)) + Rows(conversation, messages)
      case Deleted(conversation) => RowsWithout(Log(Front(cs)), conversation)
      case Cleared => []
  }

  /** What the table would hold without the cap. */
  function Written(cs: seq<Change>): Table {
    InsertAll(map[], Log(cs))
  }

  /** The newest 300 of every conversation. */
  function Trim(t: Table): Table {
    map x | x in t && x in NewestIds(t, t[x].conversation, MAX_CACHED_MESSAGES_PER_CONVERSATION) :: t[x]
  }

  /** A message keeps its conversation and its creation time in every version. */
  ghost predicate Consistent(rows: seq<Row>, times: Times, home: map<nat, nat>) {
    forall i :: 0 <= i < |rows| ==>
      && rows[i].message.id in times && times[rows[i].message.id] == rows[i].message.createdAt
      && rows[i].message.id in home && home[rows[i].message.id] == rows[i].conversation
  }

  /** The same for a table. */
  ghost predicate Fits(t: Table, times: Times, home: map<nat, nat>) {
    forall x :: x in t ==>
      && t[x].message.id == x
      && x in times && times[x] == t[x].message.createdAt
      && x in home && home[x] == t[x].conversation
  }

  /** No two messages of a conversation were created at the same time. */
  ghost predicate Distinct(t: Table, c: nat) {
    forall x, y :: x in Ids(t, c) && y in Ids(t, c) && t[x].message.createdAt == t[y].message.createdAt ==> x == y
  }

  lemma {:induction false} InsertAllFits(t: Table, rows: seq<Row>, times: Times, home: map<nat, nat>)
    requires Fits(t, times, home) && Consistent(rows, times, home)
    ensures Fits(InsertAll(t, rows), times, home)
  {
    if rows != [] {
      InsertAllFits(t, Front(rows), times, home);
      assert rows[|rows| - 1] == Last(rows);
    }
  }

  lemma {:induction false} InsertAllAppend(t: Table, a: seq<Row>, b: seq<Row>)
    ensures InsertAll(t, a + b) == InsertAll(InsertAll(t, a), b)
  {
    if b == [] {
      assert a + b == a;
    } else {
      InsertAllAppend(t, a, Front(b));
      assert Front(a + b) == a + Front(b);
    }
  }

  function RowIds(rows: seq<Row>): set<nat> {
    if rows == [] then {} else RowIds(Front(rows)) + {Last(rows).message.id}
  }

  /** `r` is the last row for `x`. */
  ghost predicate LastRow(rows: seq<Row>, x: nat, r: Row) {
    rows != [] && if Last(rows).message.id == x then r == Last(rows) else LastRow(Front(rows), x, r)
  }

  /** The last row for an id decides. */
  lemma {:induction false} Inserted(t: Table, rows: seq<Row>, x: nat)
    ensures x in InsertAll(t, rows) <==> x in t || x in RowIds(rows)
    ensures x !in RowIds(rows) && x in t ==> InsertAll(t, rows)[x] == t[x]
    ensures x in RowIds(rows) ==> LastRow(rows, x, InsertAll(t, rows)[x])
  {
    if rows != [] { Inserted(t, Front(rows), x); }
  }

  /** Inserting into two tables has the same effect on the ids that are written. */
  lemma {:induction false} InsertedSame(t: Table, u: Table, rows: seq<Row>, x: nat)
    requires x in RowIds(rows)
    ensures x in InsertAll(t, rows) && x in InsertAll(u, rows) && InsertAll(t, rows)[x] == InsertAll(u, rows)[x]
    ensures InsertAll(t, rows)[x] in rows
  {
    var front, n := Front(rows), |rows| - 1;
    if rows[n].message.id != x {
      assert x in RowIds(front);
      InsertedSame(t, u, front, x);
    }
  }

  lemma TopAgrees(s: set<nat>, t: Times, u: Times, k: nat)
    requires s <= t.Keys && s <= u.Keys && forall x :: x in s ==> t[x] == u[x]
    ensures Top(s, t, k) == Top(s, u, k)
  {
    forall x | x in s
      ensures Above(s, t, x) == Above(s, u, x)
    {
    }
  }

  /** In a consistent table the newest ones can be read off the global times. */
  lemma NewestByTimes(t: Table, times: Times, home: map<nat, nat>, c: nat, k: nat)
    requires Fits(t, times, home)
    ensures Ids(t, c) <= times.Keys
    ensures NewestIds(t, c, k) == Top(Ids(t, c), times, k)
  {
    TopAgrees(Ids(t, c), CreatedAt(t), times, k);
  }

  /** Trimming keeps, of each conversation, exactly its newest ids. */
  lemma TrimIds(t: Table, c: nat)
    ensures Ids(Trim(t), c) == NewestIds(t, c, MAX_CACHED_MESSAGES_PER_CONVERSATION)
  {
  }

  /** The ids of a conversation after an insertion. */
  lemma InsertIds(t: Table, rows: seq<Row>, times: Times, home: map<nat, nat>, c: nat, d: nat)
    requires Fits(t, times, home) && Consistent(rows, times, home)
    requires forall i :: 0 <= i < |rows| ==> rows[i].conversation == c
    ensures Ids(InsertAll(t, rows), d) == Ids(t, d) + if d == c then RowIds(rows) else {}
  {
    InsertAllFits(t, rows, times, home);
    forall x
      ensures x in InsertAll(t, rows) <==> x in t || x in RowIds(rows)
    {
      Inserted(t, rows, x);
    }
  }

  /** The newest ids of conversation `c` after an insertion into it, and of any other. */
  lemma InsertNewest(t: Table, rows: seq<Row>, times: Times, home: map<nat, nat>, c: nat, d: nat, k: nat)
    requires Fits(t, times, home) && Consistent(rows, times, home)
    requires forall i :: 0 <= i < |rows| ==> rows[i].conversation == c
    ensures Ids(t, d) <= times.Keys && RowIds(rows) <= times.Keys
    ensures d == c ==> NewestIds(InsertAll(t, rows), d, k) == Top(Ids(t, d) + RowIds(rows), times, k)
    ensures d != c ==> NewestIds(InsertAll(t, rows), d, k) == Top(Ids(t, d), times, k)
  {
    InsertAllFits(t, rows, times, home);
    InsertIds(t, rows, times, home, c, d);
    NewestByTimes(InsertAll(t, rows), times, home, d, k);
    assert d != c ==> Ids(t, d) + {} == Ids(t, d);
  }

  lemma TrimFits(t: Table, times: Times, home: map<nat, nat>)
    requires Fits(t, times, home)
    ensures Fits(Trim(t), times, home)
  {
  }

  /** Inserting into the trimmed table loses none of the newest ids. */
  lemma SaveNewest(w: Table, rows: seq<Row>, times: Times, home: map<nat, nat>, c: nat, d: nat, k: nat)
    requires Fits(w, times, home) && Consistent(rows, times, home)
    requires forall i :: 0 <= i < |rows| ==> rows[i].conversation == c
    requires k == MAX_CACHED_MESSAGES_PER_CONVERSATION
    ensures NewestIds(InsertAll(w, rows), d, k) ==
            if d == c then NewestIds(InsertAll(Trim(w), rows), c, k) else NewestIds(w, d, k)
  {
    TrimFits(w, times, home);
    InsertNewest(w, rows, times, home, c, d, k);
    NewestByTimes(w, times, home, d, k);
    if d == c {
      InsertNewest(Trim(w), rows, times, home, c, d, k);
      TrimIds(w, d);
      TopIncremental(Ids(w, c), RowIds(rows), times, k);
    }
  }

  lemma SaveTrimsAt(w: Table, rows: seq<Row>, times: Times, home: map<nat, nat>, c: nat, x: nat)
    requires Fits(w, times, home) && Consistent(rows, times, home)
    requires forall i :: 0 <= i < |rows| ==> rows[i].conversation == c
    ensures x in Cap(InsertAll(Trim(w), rows), c) <==> x in Trim(InsertAll(w, rows))
    ensures x in Trim(InsertAll(w, rows)) ==> InsertAll(Trim(w), rows)[x] == InsertAll(w, rows)[x]
  {
    Inserted(Trim(w), rows, x);
    Inserted(w, rows, x);
    SaveNewest(w, rows, times, home, c, c, MAX_CACHED_MESSAGES_PER_CONVERSATION);
    if x in RowIds(rows) {
      InsertedSame(Trim(w), w, rows, x);
    } else if x in w {
      SaveNewest(w, rows, times, home, c, w[x].conversation, MAX_CACHED_MESSAGES_PER_CONVERSATION);
    }
  }

  /** One save: inserting into the trimmed table and capping is trimming after inserting into the full one. */
  lemma SaveTrims(w: Table, rows: seq<Row>, times: Times, home: map<nat, nat>, c: nat)
    requires Fits(w, times, home) && Consistent(rows, times, home)
    requires forall i :: 0 <= i < |rows| ==> rows[i].conversation == c
    ensures Cap(InsertAll(Trim(w), rows), c) == Trim(InsertAll(w, rows))
  {
    forall x
      ensures x in Cap(InsertAll(Trim(w), rows), c) <==> x in Trim(InsertAll(w, rows))
      ensures x in Trim(InsertAll(w, rows)) ==> InsertAll(Trim(w), rows)[x] == InsertAll(w, rows)[x]
    {
      SaveTrimsAt(w, rows, times, home, c, x);
    }
  }

  // ---- Deletions ----

  lemma {:induction false} RowsWithoutConsistent(rows: seq<Row>, c: nat, times: Times, home: map<nat, nat>)
    requires Consistent(rows, times, home)
    ensures Consistent(RowsWithout(rows, c), times, home)
  {
    if rows != [] {
      RowsWithoutConsistent(Front(rows), c, times, home);
      assert rows[|rows| - 1] == Last(rows);
    }
  }

  lemma {:induction false} LogConsistent(cs: seq<Change>, times: Times, home: map<nat, nat>)
    requires Consistent(EverSaved(cs), times, home)
    ensures Consistent(Log(cs), times, home)
    ensures cs != [] && Last(cs).Saved? ==> Consistent(Rows(Last(cs).conversation, Last(cs).messages), times, home)
  {
    if cs != [] {
      var added := if Last(cs).Saved? then Rows(Last(cs).conversation, Last(cs).messages) else [];
      ConsistentParts(EverSaved(Front(cs)), added, times, home);
      LogConsistent(Front(cs), times, home);
      ConsistentParts(Log(Front(cs)), added, times, home);
      if Last(cs).Deleted? { RowsWithoutConsistent(Log(Front(cs)), Last(cs).conversation, times, home); }
    }
  }

  lemma ConsistentParts(a: seq<Row>, b: seq<Row>, times: Times, home: map<nat, nat>)
    ensures Consistent(a + b, times, home) <==> Consistent(a, times, home) && Consistent(b, times, home)
  {
    assert (a + b)[..|a|] == a && (a + b)[|a|..] == b;
  }

  /** Leaving out the rows of a conversation is deleting it afterwards. */
  lemma {:induction false} WrittenWithout(rows: seq<Row>, c: nat, times: Times, home: map<nat, nat>)
    requires Consistent(rows, times, home)
    ensures InsertAll(map[], RowsWithout(rows, c)) == MessagesWithout(InsertAll(map[], rows), c)
  {
    if rows != [] {
      WrittenWithout(Front(rows), c, times, home);
      InsertAllFits(map[], Front(rows), times, home);
      assert rows[|rows| - 1] == Last(rows);
      InsertWithout(InsertAll(map[], Front(rows)), Last(rows), c);
      var kept := RowsWithout(Front(rows), c);
      assert kept + [] == kept && Front(kept + [Last(rows)]) == kept;
    }
  }

  lemma InsertWithout(t: Table, r: Row, c: nat)
    requires r.message.id in t ==> t[r.message.id].conversation == r.conversation
    ensures MessagesWithout(t[r.message.id := r], c)
         == if r.conversation == c then MessagesWithout(t, c) else MessagesWithout(t, c)[r.message.id := r]
  {
  }

  /** A deletion and the trim do not interfere. */
  lemma TrimWithout(w: Table, c: nat, times: Times, home: map<nat, nat>)
    requires Fits(w, times, home)
    ensures Trim(MessagesWithout(w, c)) == MessagesWithout(Trim(w), c)
  {
    var k := MAX_CACHED_MESSAGES_PER_CONVERSATION;
    forall d | d != c
      ensures NewestIds(MessagesWithout(w, c), d, k) == NewestIds(w, d, k)
    {
      assert Ids(MessagesWithout(w, c), d) == Ids(w, d);
      TopAgrees(Ids(w, d), CreatedAt(MessagesWithout(w, c)), CreatedAt(w), k);
    }
  }

  /** Capping after every save is the same as writing everything, forgetting what was deleted, and capping once. */
  lemma {:induction false} CacheIsTrimmed(cs: seq<Change>, times: Times, home: map<nat, nat>)
    requires Consistent(EverSaved(cs), times, home)
    ensures Fits(Written(cs), times, home)
    ensures DoAll(cs) == Trim(Written(cs))
  {
    LogConsistent(cs, times, home);
    InsertAllFits(map[], Log(cs), times, home);
    if cs != [] {
      var added := if Last(cs).Saved? then Rows(Last(cs).conversation, Last(cs).messages) else [];
      ConsistentParts(EverSaved(Front(cs)), added, times, home);
      CacheIsTrimmed(Front(cs), times, home);
      LogConsistent(Front(cs), times, home);
      match Last(cs)
      case Saved(c, batch) => SavedIsTrimmed(Front(cs), c, batch, times, home);
      case Deleted(c) =>
        WrittenWithout(Log(Front(cs)), c, times, home);
        TrimWithout(Written(Front(cs)), c, times, home);
      case Cleared =>
    }
  }

  lemma SavedIsTrimmed(cs: seq<Change>, c: nat, batch: seq<Message>, times: Times, home: map<nat, nat>)
    requires Consistent(Rows(c, batch), times, home) && Fits(Written(cs), times, home)
    ensures Save(Trim(Written(cs)), c, batch) == Trim(InsertAll(map[], Log(cs) + Rows(c, batch)))
  {
    var rows := Rows(c, batch);
    InsertAllAppend(map[], Log(cs), rows);
    if batch != [] { SaveTrims(Written(cs), rows, times, home, c); } else { assert rows == []; }
  }

  /** The messages of conversation `c` that were created later than `x`. */
  function Later(t: Table, c: nat, x: nat): set<nat>
    requires x in t
  {
    set y | y in Ids(t, c) && t[y].message.createdAt > t[x].message.createdAt
  }

  /**
    * After any sequence of saves and deletions, a message is cached exactly if it was saved since the
    * last deletion of its conversation and fewer than 300 messages saved since then are newer, and
    * then in the version written last.
    */
  lemma CacheHoldsNewest(cs: seq<Change>, times: Times, home: map<nat, nat>, x: nat)
    requires Consistent(EverSaved(cs), times, home)
    requires x in Written(cs) ==> Distinct(Written(cs), Written(cs)[x].conversation)
    ensures x in DoAll(cs) <==>
            x in Written(cs)
            && |Later(Written(cs), Written(cs)[x].conversation, x)| < MAX_CACHED_MESSAGES_PER_CONVERSATION
    ensures x in Written(cs) <==> x in RowIds(Log(cs))
    ensures x in DoAll(cs) ==> LastRow(Log(cs), x, DoAll(cs)[x])
  {
    CacheIsTrimmed(cs, times, home);
    Inserted(map[], Log(cs), x);
    if x in Written(cs) { TrimmedExactly(Written(cs), x); }
  }

  lemma TrimmedExactly(w: Table, x: nat)
    requires x in w && Distinct(w, w[x].conversation)
    ensures x in Trim(w) <==> |Later(w, w[x].conversation, x)| < MAX_CACHED_MESSAGES_PER_CONVERSATION
    ensures x in Trim(w) ==> Trim(w)[x] == w[x]
  {
    var c := w[x].conversation;
    assert x in Ids(w, c);
    assert Above(Ids(w, c), CreatedAt(w), x) == Later(w, c, x);
  }

  /** So what is shown from the cache is the newest `limit` of everything saved and not deleted. */
  lemma ShownFromCache(cs: seq<Change>, times: Times, home: map<nat, nat>, c: nat, limit: nat)
    requires Consistent(EverSaved(cs), times, home) && limit <= MAX_CACHED_MESSAGES_PER_CONVERSATION
    ensures NewestIds(DoAll(cs), c, limit) == NewestIds(Written(cs), c, limit)
    ensures forall x :: x in NewestIds(Written(cs), c, limit) ==> DoAll(cs)[x] == Written(cs)[x]
  {
    CacheIsTrimmed(cs, times, home);
    var w := Written(cs);
    NewestByTimes(w, times, home, c, limit);
    NewestByTimes(w, times, home, c, MAX_CACHED_MESSAGES_PER_CONVERSATION);
    NewestByTimes(Trim(w), times, home, c, limit);
    TrimIds(w, c);
    TopOfTop(Ids(w, c), times, MAX_CACHED_MESSAGES_PER_CONVERSATION, limit);
  }

  lemma SaveElsewhere(t: Table, c: nat, batch: seq<Message>, d: nat)
    requires c != d && Ids(t, d) == {}
    ensures Ids(Save(t, c, batch), d) == {}
  {
    InsertElsewhere(t, Rows(c, batch), c, d);
  }

  lemma {:induction false} InsertElsewhere(t: Table, rows: seq<Row>, c: nat, d: nat)
    requires c != d && Ids(t, d) == {} && forall i :: 0 <= i < |rows| ==> rows[i].conversation == c
    ensures Ids(InsertAll(t, rows), d) == {}
  {
    if rows != [] {
      InsertElsewhere(t, Front(rows), c, d);
      assert rows[|rows| - 1] == Last(rows);
      assert forall x :: x in InsertAll(t, Front(rows)) ==> x !in Ids(InsertAll(t, Front(rows)), d);
    }
  }

  /** A deleted conversation stays out of the cache until something is saved for it again. */
  lemma {:induction false} DeletedUntilSaved(before: seq<Change>, after: seq<Change>, c: nat)
    requires before != [] && (Last(before) == Deleted(c) || Last(before) == Cleared)
    requires forall i :: 0 <= i < |after| ==> !(after[i].Saved? && after[i].conversation == c)
    ensures Ids(DoAll(before + after), c) == {}
    decreases |after|
  {
    if after == [] {
      assert before + after == before;
    } else {
      assert Front(before + after) == before + Front(after) && Last(before + after) == Last(after);
      DeletedUntilSaved(before, Front(after), c);
      assert after[|after| - 1] == Last(after);
      var t := DoAll(before + Front(after));
      if Last(after).Saved? {
        SaveElsewhere(t, Last(after).conversation, Last(after).messages, c);
      } else if Last(after).Deleted? {
        assert Ids(MessagesWithout(t, Last(after).conversation), c) <= Ids(t, c);
      }
    }
  }
}
