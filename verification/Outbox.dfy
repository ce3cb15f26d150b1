/**
  * Sending text messages and flushing the outbox. A message that could not reach the server is
  * kept in the outbox and sent again, under a new local id, when the connection is back. A send has
  * two halves: it shows its message and posts it, and later the POST ends.
  */
module Outbox {
  import opened Base
  import opened MessageCache
  import opened Timeline

  datatype Content = Content(conversation: nat, text: string, replyTo: Option<nat>, mentions: seq<nat>)

  /** A message the server accepted, with the local id it was posted under. */
  datatype Posted = Posted(local: nat, content: Content)

  datatype Outcome = Accepted(message: Item) | Refused | Unreachable

  /** One send that nothing interrupts: the clock when it starts, what becomes of the POST, the clock when it ends. */
  datatype Turn = Turn(sentAt: int, outcome: Outcome, failedAt: int)

  /**
    * `conversations` are the loaded ones; the flag says whether the key can be unwrapped. `inFlight`
    * are the sends whose POST has not ended; `accepted` is the server's side, recorded for the proofs.
    */
  datatype Store = Store(
    conversations: map<nat, bool>, lists: map<nat, seq<Item>>, outbox: map<nat, Entry>,
    nextLocal: nat, inFlight: map<nat, Content>, accepted: seq<Posted>)

  /** The conversation is found and its key can be unwrapped. */
  predicate Ready(s: Store, c: nat) {
    c in s.conversations && s.conversations[c]
  }

  function ListOf(s: Store, c: nat): seq<Item> {
    if c in s.lists then s.lists[c] else []
  }

  function OrEmpty(mentions: Option<seq<nat>>): seq<nat> {
    if mentions.Some? then mentions.value else []
  }

  function IfAny(mentions: seq<nat>): Option<seq<nat>> {
    if |mentions| > 0 then Some(mentions) else None
  }

  function DiscardFailed(s: Store, c: nat, local: nat): Store {
    s.(outbox := s.outbox - {local}, lists := s.lists[c := Without(ListOf(s, c), Local(local))])
  }

  function Shown(m: Content, local: nat, at: int): Item {
    Optimistic(local, at, m.text, m.replyTo, m.mentions)
  }

  /** The message appears at the end of its conversation, pending, under a new local id; its POST starts. */
  function Show(s: Store, m: Content, at: int): Store {
    s.(lists := s.lists[m.conversation := ListOf(s, m.conversation) + [Shown(m, s.nextLocal, at)]],
       nextLocal := s.nextLocal + 1,
       inFlight := s.inFlight[s.nextLocal := m])
  }

  /** The first half of a send; nothing happens, and the call throws, if the conversation is not ready. */
  function Begin(s: Store, c: nat, text: string, replyTo: Option<nat>, mentions: Option<seq<nat>>, at: int): Store {
    if Ready(s, c) then Show(s, Content(c, text, replyTo, OrEmpty(mentions)), at) else s
  }

  /**
    * The server's copy takes the place of the local one, unless its event came first. The conversation
    * as it was found when the send began is put back on the chat list.
    */
  function Confirm(s: Store, m: Content, local: nat, message: Item): Store {
    s.(conversations := s.conversations[m.conversation := true],
       lists := s.lists[m.conversation := AppendNew(Without(ListOf(s, m.conversation), Local(local)), message)],
       inFlight := s.inFlight - {local},
       accepted := s.accepted + [Posted(local, m)])
  }

  function Fail(s: Store, m: Content, local: nat): Store {
    s.(lists := s.lists[m.conversation := MarkFailed(ListOf(s, m.conversation), local)],
       inFlight := s.inFlight - {local})
  }

  function EntryFor(m: Content, local: nat, at: int): Entry {
    Entry(local, m.conversation, m.text, m.replyTo, m.mentions, at)
  }

  /** The second half: the POST of an unanswered send ends. */
  function Finish(s: Store, local: nat, outcome: Outcome, failedAt: int): Store {
    if local !in s.inFlight then s else
      var m := s.inFlight[local];
      match outcome
      case Accepted(message) => Confirm(s, m, local, message)
      case Refused => Fail(s, m, local)
      case Unreachable => Fail(s.(outbox := s.outbox[local := EntryFor(m, local, failedAt)]), m, local)
  }

  function SendText(s: Store, c: nat, text: string, replyTo: Option<nat>, mentions: Option<seq<nat>>, t: Turn): Store {
    if Ready(s, c) then Finish(Begin(s, c, text, replyTo, mentions, t.sentAt), s.nextLocal, t.outcome, t.failedAt)
    else s
  }

  function FlushOne(s: Store, e: Entry, t: Turn): Store {
    SendText(DiscardFailed(s, e.conversation, e.localId), e.conversation, e.text, e.replyTo, IfAny(e.mentions), t)
  }

  function Flush(s: Store, entries: seq<Entry>, turns: seq<Turn>): Store
    requires |entries| == |turns|
  {
    if entries == [] then s else FlushOne(Flush(s, Front(entries), Front(turns)), Last(entries), Last(turns))
  }

  /** A failed message with text, if there is one under this local id. */
  function FailedAt(items: seq<Item>, local: nat): Option<Item> {
    if items == [] then None
    else if FailedAt(Front(items), local).Some? then FailedAt(Front(items), local)
    else if Last(items).id == Local(local) && Last(items).status == Failed then Some(Last(items))
    else None
  }

  function Retry(s: Store, c: nat, local: nat, t: Turn): Store {
    match FailedAt(ListOf(s, c), local)
    case None => s
    case Some(m) =>
      if m.text.None? || m.text.value == "" then s
      else SendText(DiscardFailed(s, c, local), c, m.text.value, m.replyTo, IfAny(m.mentions), t)
  }

  // ---- The store ----

  class ChatStore {
    const cache: MessageCache
    var conversations: map<nat, bool>
    var messagesByConversation: map<nat, seq<Item>>
    var nextLocal: nat
    ghost var inFlight: map<nat, Content>
    ghost var accepted: seq<Posted>

    constructor (cache: MessageCache)
      ensures this.cache == cache && State() == Store(map[], map[], cache.outbox, 0, map[], [])
    {
      this.cache := cache;
      conversations, messagesByConversation, nextLocal, inFlight, accepted := map[], map[], 0, map[], [];
    }

    ghost function State(): Store
      reads this, cache
    {
      Store(conversations, messagesByConversation, cache.outbox, nextLocal, inFlight, accepted)
    }

    function Messages(c: nat): seq<Item>
      reads this
    {
      if c in messagesByConversation then messagesByConversation[c] else []
    }

    method DiscardFailedMessage(c: nat, local: nat)
      requires cache.Valid()
      modifies `messagesByConversation, cache`outbox
      ensures cache.Valid()
      ensures State() == DiscardFailed(old(State()), c, local)
    {
      cache.RemoveFromOutbox(local);
      messagesByConversation := messagesByConversation[c := Without(Messages(c), Local(local))];
    }

    /** A send up to its POST. */
    method BeginSend(c: nat, text: string, replyTo: Option<nat>, mentions: Option<seq<nat>>, at: int)
      returns (local: Option<nat>)
      requires cache.Valid()
      modifies `messagesByConversation, `nextLocal, `inFlight
      ensures State() == Begin(old(State()), c, text, replyTo, mentions, at)
      ensures local == if Ready(old(State()), c) then Some(old(nextLocal)) else None
    {
      if c !in conversations { return None; }
      if !conversations[c] { return None; }
      local := Some(nextLocal);
      var optimistic := Optimistic(nextLocal, at, text, replyTo, OrEmpty(mentions));
      messagesByConversation := messagesByConversation[c := Messages(c) + [optimistic]];
      inFlight := inFlight[nextLocal := Content(c, text, replyTo, OrEmpty(mentions))];
      nextLocal := nextLocal + 1;
    }

    /** The reply of the server to a send. */
    method ConfirmSent(local: nat, m: Content, message: Item)
      requires cache.Valid() && local in inFlight && inFlight[local] == m
      modifies `conversations, `messagesByConversation, `inFlight, `accepted
      ensures State() == Confirm(old(State()), m, local, message)
    {
      var withoutLocal := Without(Messages(m.conversation), Local(local));
      var next := if Listed(withoutLocal, message.id) then withoutLocal else withoutLocal + [message];
      messagesByConversation := messagesByConversation[m.conversation := next];
      conversations := conversations[m.conversation := true];
      inFlight := inFlight - {local};
      accepted := accepted + [Posted(local, m)];
    }

    /** A send that ended without being accepted; `response` says whether the server answered at all. */
    method SendFailed(local: nat, m: Content, response: bool, at: int)
      requires cache.Valid() && local in inFlight && inFlight[local] == m
      modifies `messagesByConversation, `inFlight, cache`outbox
      ensures cache.Valid()
      ensures State() == Finish(old(State()), local, if response then Refused else Unreachable, at)
    {
      if !response {
        cache.AddToOutbox(Entry(local, m.conversation, m.text, m.replyTo, m.mentions, at));
      }
      messagesByConversation := messagesByConversation[m.conversation := MarkFailed(Messages(m.conversation), local)];
      inFlight := inFlight - {local};
    }

    method SendTextMessage(c: nat, text: string, replyTo: Option<nat>, mentions: Option<seq<nat>>, t: Turn)
      returns (threw: bool)
      requires cache.Valid()
      modifies this, cache`outbox
      ensures cache.Valid()
      ensures State() == SendText(old(State()), c, text, replyTo, mentions, t)
      ensures !threw <==> Ready(old(State()), c) && t.outcome.Accepted?
    {
      var local := BeginSend(c, text, replyTo, mentions, t.sentAt);
      if local.None? { return true; }
      var m := Content(c, text, replyTo, OrEmpty(mentions));
      if t.outcome.Accepted? {
        ConfirmSent(local.value, m, t.outcome.message);
        return false;
      }
      SendFailed(local.value, m, t.outcome.Refused?, t.failedAt);
      threw := true;
    }

    method RetryFailedMessage(c: nat, local: nat, t: Turn)
      requires cache.Valid()
      modifies this, cache`outbox
      ensures cache.Valid()
      ensures State() == Retry(old(State()), c, local, t)
    {
      var failed := FailedAt(Messages(c), local);
      if failed.None? || failed.value.text.None? || failed.value.text.value == "" {
        return;
      }
      DiscardFailedMessage(c, local);
      var _ := SendTextMessage(c, failed.value.text.value, failed.value.replyTo, IfAny(failed.value.mentions), t);
    }

    method FlushEntry(e: Entry, t: Turn)
      requires cache.Valid()
      modifies this, cache`outbox
      ensures cache.Valid()
      ensures State() == FlushOne(old(State()), e, t)
    {
      cache.RemoveFromOutbox(e.localId);
      DiscardFailedMessage(e.conversation, e.localId);
      RemoveTwice(old(cache.outbox), e.localId);
      assert State() == DiscardFailed(old(State()), e.conversation, e.localId);
      var _ := SendTextMessage(e.conversation, e.text, e.replyTo, IfAny(e.mentions), t);
    }

    /** One pass over the outbox as it was when the connection came back. */
    method FlushOutbox(turns: seq<Turn>) returns (entries: seq<Entry>)
      requires cache.Valid() && |turns| == |cache.outbox|
      modifies this, cache`outbox
      ensures cache.Valid()
      ensures |entries| == |turns| && OutboxList(old(cache.outbox), entries)
      ensures State() == Flush(old(State()), entries, turns)
    {
      entries := cache.GetOutbox();
      SnapshotSize(cache.outbox, entries);
      for i := 0 to |entries|
        invariant cache.Valid()
        invariant State() == Flush(old(State()), entries[..i], turns[..i])
      {
        FlushNext(old(State()), entries, turns, i);
        FlushEntry(entries[i], turns[i]);
      }
      assert entries[..|entries|] == entries && turns[..|turns|] == turns;
    }
  }

  lemma RemoveTwice(outbox: map<nat, Entry>, l: nat)
    ensures outbox - {l} - {l} == outbox - {l}
  {
  }

  lemma FlushNext(s: Store, entries: seq<Entry>, turns: seq<Turn>, i: nat)
    requires |entries| == |turns| && i < |entries|
    ensures Flush(s, entries[..i + 1], turns[..i + 1])
         == FlushOne(Flush(s, entries[..i], turns[..i]), entries[i], turns[i])
  {
    assert Front(entries[..i + 1]) == entries[..i] && Front(turns[..i + 1]) == turns[..i];
  }

  lemma SnapshotSize(outbox: map<nat, Entry>, r: seq<Entry>)
    requires OutboxList(outbox, r)
    requires forall l :: l in outbox ==> outbox[l].localId == l
    ensures |r| == |outbox|
  {
    var ids := set i | 0 <= i < |r| :: r[i].localId;
    DistinctCount(r);
    forall l | l in outbox
      ensures l in ids
    {
      var i :| 0 <= i < |r| && r[i] == outbox[l];
    }
    assert ids == outbox.Keys;
  }

  lemma {:induction false} DistinctCount(r: seq<Entry>)
    requires forall i, j :: 0 <= i < j < |r| ==> r[i].localId != r[j].localId
    ensures |set i | 0 <= i < |r| :: r[i].localId| == |r|
  {
    if r != [] {
      DistinctCount(Front(r));
      var front := set i | 0 <= i < |Front(r)| :: Front(r)[i].localId;
      assert (set i | 0 <= i < |r| :: r[i].localId) == front + {Last(r).localId};
    }
  }

  // ---- Passes, with other acts in between ----

  /**
    * A flush turn begins, another send of the user begins, a POST ends, the chat list is loaded again; a
    * conversation is dropped, with its rows in the cache or without, a message is discarded or hidden,
    * or a history is cleared, wholly or up to a moment. A retry is a discard and a send.
    */
  datatype Act =
    | Flushed(entry: Entry, at: int)
    | Typed(content: Content, at: int)
    | Answered(local: nat, outcome: Outcome, failedAt: int)
    | Loaded(conversations: map<nat, bool>)
    | Dropped(conversation: nat, clearsCache: bool)
    | Discarded(conversation: nat, local: nat)
    | Hidden(conversation: nat, id: Id)
    | Cleared(conversation: nat, cutoff: Option<int>)

  function Drop(s: Store, c: nat, clearsCache: bool): Store {
    var outbox := if clearsCache then OutboxWithout(s.outbox, c) else s.outbox;
    s.(conversations := s.conversations - {c}, lists := s.lists - {c}, outbox := outbox)
  }

  function Hide(s: Store, c: nat, id: Id): Store {
    s.(lists := s.lists[c := Without(ListOf(s, c), id)])
  }

  function Since(items: seq<Item>, cutoff: int): seq<Item> {
    Filter((m: Item) => m.createdAt >= cutoff, items)
  }

  /** However much of the list stays, the cache forgets the whole conversation, the outbox included. */
  function Clear(s: Store, c: nat, cutoff: Option<int>): Store {
    var items := if cutoff.Some? then Since(ListOf(s, c), cutoff.value) else [];
    s.(lists := s.lists[c := items], outbox := OutboxWithout(s.outbox, c))
  }

  function Do(s: Store, a: Act): Store {
    match a
    case Flushed(e, at) =>
      Begin(DiscardFailed(s, e.conversation, e.localId), e.conversation, e.text, e.replyTo, IfAny(e.mentions), at)
    case Typed(m, at) => Begin(s, m.conversation, m.text, m.replyTo, IfAny(m.mentions), at)
    case Answered(l, outcome, failedAt) => Finish(s, l, outcome, failedAt)
    case Loaded(cs) => s.(conversations := cs)
    case Dropped(c, clearsCache) => Drop(s, c, clearsCache)
    case Discarded(c, l) => DiscardFailed(s, c, l)
    case Hidden(c, id) => Hide(s, c, id)
    case Cleared(c, cutoff) => Clear(s, c, cutoff)
  }

  /** The acts that only take something away. */
  predicate Removal(a: Act) {
    a.Dropped? || a.Discarded? || a.Hidden? || a.Cleared?
  }

  /** Those of them that concern message `n` of conversation `c`. */
  predicate TakesAway(a: Act, c: nat, n: nat) {
    match a
    case Dropped(d, _) => d == c
    case Discarded(_, l) => l == n
    case Hidden(d, id) => d == c && id == Local(n)
    case Cleared(d, _) => d == c
    case _ => false
  }

  function DoAll(s: Store, acts: seq<Act>): Store {
    if acts == [] then s else Do(DoAll(s, Front(acts)), Last(acts))
  }

  function ContentOf(e: Entry): Content {
    Content(e.conversation, e.text, e.replyTo, e.mentions)
  }

  /** The server's copy of a message has a server id. */
  predicate Genuine(a: Act) {
    a.Answered? && a.outcome.Accepted? ==> FromServer(a.outcome.message)
  }

  // ---- Where a message is ----

  predicate NotIn(log: seq<Posted>, n: nat) {
    forall i :: 0 <= i < |log| ==> log[i].local != n
  }

  /** The message is posted exactly once. */
  ghost predicate PostedOnce(log: seq<Posted>, n: nat, m: Content) {
    exists i :: 0 <= i < |log| && log[i] == Posted(n, m) && forall j :: 0 <= j < |log| && j != i ==> log[j].local != n
  }

  /** Local id `n` is listed in no other conversation. */
  ghost predicate OnlyIn(s: Store, n: nat, c: nat) {
    forall d :: Listed(ListOf(s, d), Local(n)) ==> d == c
  }

  ghost predicate NotListed(s: Store, n: nat) {
    forall d :: !Listed(ListOf(s, d), Local(n))
  }

  /** Shown in its conversation, exactly as written. */
  ghost predicate ShownAs(s: Store, n: nat, m: Content, status: Status) {
    exists at :: Shown(m, n, at).(status := status) in ListOf(s, m.conversation)
  }

  datatype Place = Waiting | WithServer | Queued(at: int) | TurnedDown

  /** A message sent under `n` is in this place and in no other. */
  ghost predicate At(s: Store, n: nat, m: Content, p: Place) {
    match p
    case Waiting =>
      && n in s.inFlight && s.inFlight[n] == m && n !in s.outbox && NotIn(s.accepted, n)
      && OnlyIn(s, n, m.conversation) && ShownAs(s, n, m, Pending)
    case WithServer => n !in s.inFlight && n !in s.outbox && PostedOnce(s.accepted, n, m) && NotListed(s, n)
    case Queued(at) =>
      && n !in s.inFlight && n in s.outbox && NotIn(s.accepted, n)
      && s.outbox[n].localId == n && s.outbox[n].createdAt == at && ContentOf(s.outbox[n]) == m
      && ShownAs(s, n, m, Failed)
    case TurnedDown => n !in s.inFlight && n !in s.outbox && NotIn(s.accepted, n) && ShownAs(s, n, m, Failed)
  }

  /** The place of a message, whichever it is. */
  ghost predicate Somewhere(s: Store, n: nat, m: Content) {
    exists p :: At(s, n, m, p)
  }

  function PlaceOf(outcome: Outcome, failedAt: int): Place {
    match outcome
    case Accepted(_) => WithServer
    case Refused => TurnedDown
    case Unreachable => Queued(failedAt)
  }

  /** The place of a message after one more act. */
  function NextPlace(p: Place, a: Act, n: nat): Place {
    if p.Waiting? && a.Answered? && a.local == n then PlaceOf(a.outcome, a.failedAt) else p
  }

  /** The place of message `n` is decided by the first answer to it. */
  function PlaceAfter(acts: seq<Act>, n: nat): Place {
    if acts == [] then Waiting else NextPlace(PlaceAfter(Front(acts), n), Last(acts), n)
  }

  /** Nothing is known under this id, anywhere. */
  ghost predicate Unused(s: Store, n: nat) {
    n !in s.outbox && n !in s.inFlight && NotIn(s.accepted, n) && NotListed(s, n)
  }

  ghost predicate IdOk(s: Store, n: nat) {
    && (n >= s.nextLocal ==> Unused(s, n))
    && (n in s.outbox ==>
          && s.outbox[n].localId == n && n !in s.inFlight && NotIn(s.accepted, n)
          && OnlyIn(s, n, s.outbox[n].conversation))
    && (n in s.inFlight ==> NotIn(s.accepted, n) && OnlyIn(s, n, s.inFlight[n].conversation))
  }

  ghost predicate Inv(s: Store) {
    forall n :: IdOk(s, n)
  }

  // -- what the list operations keep --

  /** Nothing changes about local id `n`, and no item of it is lost. */
  ghost predicate KeepsLocal(a: seq<Item>, b: seq<Item>, n: nat) {
    && (Listed(b, Local(n)) <==> Listed(a, Local(n)))
    && forall x :: x in a && x.id == Local(n) ==> x in b
  }

  lemma InListed(items: seq<Item>, id: Id)
    ensures Listed(items, id) <==> exists x :: x in items && x.id == id
  {
    if Listed(items, id) {
      var i :| 0 <= i < |items| && items[i].id == id;
      assert items[i] in items;
    }
    if x :| x in items && x.id == id {
      var i :| 0 <= i < |items| && items[i] == x;
    }
  }

  lemma AppendKeeps(items: seq<Item>, m: Item, n: nat)
    requires m.id != Local(n)
    ensures KeepsLocal(items, items + [m], n)
  {
    InListed(items, Local(n));
    InListed(items + [m], Local(n));
  }

  lemma WithoutKeeps(items: seq<Item>, local: nat, n: nat)
    requires local != n
    ensures KeepsLocal(items, Without(items, Local(local)), n)
  {
    InListed(items, Local(n));
    InListed(Without(items, Local(local)), Local(n));
    forall x
      ensures x in Without(items, Local(local)) <==> x in items && x.id != Local(local)
    {
      FilterIn((m: Item) => m.id != Local(local), items, x);
    }
  }

  lemma ConfirmKeeps(items: seq<Item>, local: nat, m: Item, n: nat)
    requires local != n && FromServer(m)
    ensures KeepsLocal(items, AppendNew(Without(items, Local(local)), m), n)
  {
    WithoutKeeps(items, local, n);
    AppendKeeps(Without(items, Local(local)), m, n);
  }

  lemma MarkKeeps(items: seq<Item>, local: nat, n: nat)
    requires local != n
    ensures KeepsLocal(items, MarkFailed(items, local), n)
  {
    MarkListed(items, local, n);
    forall x | x in items && x.id == Local(n)
      ensures x in MarkFailed(items, local)
    {
      var i :| 0 <= i < |items| && items[i] == x;
      assert MarkFailed(items, local)[i] == x;
    }
  }

  lemma MarkListed(items: seq<Item>, local: nat, n: nat)
    ensures Listed(MarkFailed(items, local), Local(n)) <==> Listed(items, Local(n))
  {
    var f := MarkFailed(items, local);
    if Listed(items, Local(n)) {
      var i :| 0 <= i < |items| && items[i].id == Local(n);
      assert f[i].id == Local(n);
    }
    if Listed(f, Local(n)) {
      var i :| 0 <= i < |f| && f[i].id == Local(n);
      assert items[i].id == Local(n);
    }
  }

  // -- a step that does not concern `n` --

  ghost predicate Untouched(s: Store, r: Store, n: nat) {
    && (forall d :: KeepsLocal(ListOf(s, d), ListOf(r, d), n))
    && (n in r.outbox <==> n in s.outbox) && (n in s.outbox ==> r.outbox[n] == s.outbox[n])
    && (n in r.inFlight <==> n in s.inFlight) && (n in s.inFlight ==> r.inFlight[n] == s.inFlight[n])
    && (NotIn(r.accepted, n) <==> NotIn(s.accepted, n))
    && forall m :: PostedOnce(s.accepted, n, m) ==> PostedOnce(r.accepted, n, m)
  }

  lemma UntouchedKeeps(s: Store, r: Store, n: nat)
    requires Untouched(s, r, n)
    ensures Unused(s, n) ==> Unused(r, n)
    ensures forall c :: OnlyIn(s, n, c) ==> OnlyIn(r, n, c)
    ensures forall m, p :: At(s, n, m, p) ==> At(r, n, m, p)
  {
    assert forall d :: KeepsLocal(ListOf(s, d), ListOf(r, d), n);
    forall m, p | At(s, n, m, p)
      ensures At(r, n, m, p)
    {
      UntouchedAt(s, r, n, m, p);
    }
  }

  lemma UntouchedAt(s: Store, r: Store, n: nat, m: Content, p: Place)
    requires Untouched(s, r, n) && At(s, n, m, p)
    ensures At(r, n, m, p)
  {
    assert KeepsLocal(ListOf(s, m.conversation), ListOf(r, m.conversation), n);
    match p
    case Waiting =>
      UntouchedShown(s, r, n, m, Pending);
      assert OnlyIn(r, n, m.conversation) by {
        assert forall d :: KeepsLocal(ListOf(s, d), ListOf(r, d), n);
      }
    case WithServer => assert forall d :: KeepsLocal(ListOf(s, d), ListOf(r, d), n);
    case _ => UntouchedShown(s, r, n, m, Failed);
  }

  lemma UntouchedShown(s: Store, r: Store, n: nat, m: Content, status: Status)
    requires KeepsLocal(ListOf(s, m.conversation), ListOf(r, m.conversation), n) && ShownAs(s, n, m, status)
    ensures ShownAs(r, n, m, status)
  {
    var at :| Shown(m, n, at).(status := status) in ListOf(s, m.conversation);
    assert Shown(m, n, at).(status := status).id == Local(n);
  }

  lemma LogKeeps(log: seq<Posted>, p: Posted, n: nat)
    requires p.local != n
    ensures NotIn(log + [p], n) <==> NotIn(log, n)
    ensures forall m :: PostedOnce(log, n, m) ==> PostedOnce(log + [p], n, m)
  {
    var r := log + [p];
    if NotIn(r, n) {
      forall i | 0 <= i < |log| ensures log[i].local != n { assert r[i] == log[i]; }
    }
    forall m | PostedOnce(log, n, m)
      ensures PostedOnce(r, n, m)
    {
      var i :| 0 <= i < |log| && log[i] == Posted(n, m) && forall j :: 0 <= j < |log| && j != i ==> log[j].local != n;
      assert r[i] == Posted(n, m);
    }
  }

  /** A change of one list that keeps `n` leaves all lists alike for `n`. */
  lemma OneList(s: Store, r: Store, c: nat, items: seq<Item>, n: nat)
    requires r.lists == s.lists[c := items] && KeepsLocal(ListOf(s, c), items, n)
    ensures forall d :: KeepsLocal(ListOf(s, d), ListOf(r, d), n)
  {
  }

  lemma DiscardUntouched(s: Store, c: nat, local: nat, n: nat)
    requires n != local
    ensures Untouched(s, DiscardFailed(s, c, local), n)
  {
    WithoutKeeps(ListOf(s, c), local, n);
    OneList(s, DiscardFailed(s, c, local), c, Without(ListOf(s, c), Local(local)), n);
  }

  lemma ShowUntouched(s: Store, m: Content, at: int, n: nat)
    requires n != s.nextLocal
    ensures Untouched(s, Show(s, m, at), n)
  {
    var x := Shown(m, s.nextLocal, at);
    AppendKeeps(ListOf(s, m.conversation), x, n);
    OneList(s, Show(s, m, at), m.conversation, ListOf(s, m.conversation) + [x], n);
  }

  lemma FinishUntouched(s: Store, local: nat, outcome: Outcome, failedAt: int, n: nat)
    requires n != local && (outcome.Accepted? ==> FromServer(outcome.message))
    ensures Untouched(s, Finish(s, local, outcome, failedAt), n)
  {
    if local in s.inFlight {
      var m, r := s.inFlight[local], Finish(s, local, outcome, failedAt);
      var items := ListOf(s, m.conversation);
      if outcome.Accepted? {
        ConfirmKeeps(items, local, outcome.message, n);
        OneList(s, r, m.conversation, AppendNew(Without(items, Local(local)), outcome.message), n);
        LogKeeps(s.accepted, Posted(local, m), n);
      } else {
        MarkKeeps(items, local, n);
        OneList(s, r, m.conversation, MarkFailed(items, local), n);
      }
    }
  }

  // -- the steps that do concern it --

  /** Discarding leaves nothing under an id that is neither posted nor being posted. */
  lemma DiscardClears(s: Store, c: nat, n: nat)
    requires OnlyIn(s, n, c) && n !in s.inFlight && NotIn(s.accepted, n)
    ensures Unused(DiscardFailed(s, c, n), n)
  {
    var r := DiscardFailed(s, c, n);
    NotListedWithout(ListOf(s, c), Local(n));
    assert forall d :: d != c ==> ListOf(r, d) == ListOf(s, d);
  }

  /** A send that begins waits for its answer. */
  lemma ShowWaits(s: Store, m: Content, at: int)
    requires Inv(s)
    ensures At(Show(s, m, at), s.nextLocal, m, Waiting)
  {
    var n, r := s.nextLocal, Show(s, m, at);
    assert IdOk(s, n);
    assert ListOf(r, m.conversation)[|ListOf(s, m.conversation)|] == Shown(m, n, at).(status := Pending);
    forall d | Listed(ListOf(r, d), Local(n))
      ensures d == m.conversation
    {
      assert !Listed(ListOf(s, d), Local(n));
    }
  }

  /** The answer moves a waiting message to the place it stands for. */
  lemma FinishMoves(s: Store, n: nat, m: Content, outcome: Outcome, failedAt: int)
    requires At(s, n, m, Waiting) && (outcome.Accepted? ==> FromServer(outcome.message))
    ensures At(Finish(s, n, outcome, failedAt), n, m, PlaceOf(outcome, failedAt))
  {
    if outcome.Accepted? {
      ConfirmMoves(s, n, m, outcome.message);
    } else {
      FailMoves(s, n, m, outcome, failedAt);
    }
  }

  lemma ConfirmMoves(s: Store, n: nat, m: Content, message: Item)
    requires At(s, n, m, Waiting) && FromServer(message)
    ensures At(Confirm(s, m, n, message), n, m, WithServer)
  {
    var r := Confirm(s, m, n, message);
    NotListedWithout(ListOf(s, m.conversation), Local(n));
    NotListedAppendNew(Without(ListOf(s, m.conversation), Local(n)), message, Local(n));
    assert r.accepted[|s.accepted|] == Posted(n, m);
    forall d
      ensures !Listed(ListOf(r, d), Local(n))
    {
      if d != m.conversation { assert ListOf(r, d) == ListOf(s, d); }
    }
  }

  lemma FailMoves(s: Store, n: nat, m: Content, outcome: Outcome, failedAt: int)
    requires At(s, n, m, Waiting) && !outcome.Accepted?
    ensures At(Finish(s, n, outcome, failedAt), n, m, PlaceOf(outcome, failedAt))
  {
    var r := Finish(s, n, outcome, failedAt);
    var at :| Shown(m, n, at).(status := Pending) in ListOf(s, m.conversation);
    MarkMarks(ListOf(s, m.conversation), n, Shown(m, n, at).(status := Pending));
    assert Shown(m, n, at).(status := Failed) in ListOf(r, m.conversation);
  }

  lemma MarkMarks(items: seq<Item>, n: nat, x: Item)
    requires x in items && x.id == Local(n)
    ensures x.(status := Failed) in MarkFailed(items, n)
  {
    var i :| 0 <= i < |items| && items[i] == x;
    assert MarkFailed(items, n)[i] == x.(status := Failed);
  }

  // -- the steps that only take something away --

  ghost predicate Shrinks(s: Store, r: Store) {
    && r.nextLocal == s.nextLocal && r.inFlight == s.inFlight && r.accepted == s.accepted
    && (forall n :: n in r.outbox ==> n in s.outbox && r.outbox[n] == s.outbox[n])
    && forall d, id :: Listed(ListOf(r, d), id) ==> Listed(ListOf(s, d), id)
  }

  lemma ShrinksKeeps(s: Store, r: Store, n: nat)
    requires Shrinks(s, r)
    ensures Unused(s, n) ==> Unused(r, n)
    ensures forall c :: OnlyIn(s, n, c) ==> OnlyIn(r, n, c)
    ensures NotListed(s, n) ==> NotListed(r, n)
    ensures IdOk(s, n) ==> IdOk(r, n)
  {
  }

  lemma FilterShrinks(items: seq<Item>, keep: Item -> bool, id: Id)
    ensures Listed(Filter(keep, items), id) ==> Listed(items, id)
  {
    InListed(items, id);
    InListed(Filter(keep, items), id);
    if Listed(Filter(keep, items), id) {
      var x :| x in Filter(keep, items) && x.id == id;
      FilterIn(keep, items, x);
    }
  }

  lemma OneListShrinks(s: Store, r: Store, c: nat, items: seq<Item>)
    requires r.lists == s.lists[c := items] && forall id :: Listed(items, id) ==> Listed(ListOf(s, c), id)
    ensures forall d, id :: Listed(ListOf(r, d), id) ==> Listed(ListOf(s, d), id)
  {
  }

  lemma DiscardShrinks(s: Store, c: nat, l: nat)
    ensures Shrinks(s, DiscardFailed(s, c, l))
  {
    var items := ListOf(s, c);
    forall id ensures Listed(Without(items, Local(l)), id) ==> Listed(items, id) {
      FilterShrinks(items, (m: Item) => m.id != Local(l), id);
    }
    OneListShrinks(s, DiscardFailed(s, c, l), c, Without(items, Local(l)));
  }

  lemma HideShrinks(s: Store, c: nat, h: Id)
    ensures Shrinks(s, Hide(s, c, h))
  {
    var items := ListOf(s, c);
    forall id ensures Listed(Without(items, h), id) ==> Listed(items, id) {
      FilterShrinks(items, (m: Item) => m.id != h, id);
    }
    OneListShrinks(s, Hide(s, c, h), c, Without(items, h));
  }

  lemma ClearShrinks(s: Store, c: nat, cutoff: Option<int>)
    ensures Shrinks(s, Clear(s, c, cutoff))
  {
    var items := ListOf(s, c);
    var left := if cutoff.Some? then Since(items, cutoff.value) else [];
    forall id ensures Listed(left, id) ==> Listed(items, id) {
      if cutoff.Some? { FilterShrinks(items, (m: Item) => m.createdAt >= cutoff.value, id); }
    }
    OneListShrinks(s, Clear(s, c, cutoff), c, left);
  }

  lemma DropShrinks(s: Store, c: nat, clearsCache: bool)
    ensures Shrinks(s, Drop(s, c, clearsCache))
  {
    assert forall d :: ListOf(Drop(s, c, clearsCache), d) == if d == c then [] else ListOf(s, d);
  }

  lemma RemovalShrinks(s: Store, a: Act)
    requires Removal(a)
    ensures Shrinks(s, Do(s, a))
  {
    match a
    case Dropped(c, clearsCache) => DropShrinks(s, c, clearsCache);
    case Discarded(c, l) => DiscardShrinks(s, c, l);
    case Hidden(c, id) => HideShrinks(s, c, id);
    case Cleared(c, cutoff) => ClearShrinks(s, c, cutoff);
  }

  /** A removal that does not concern a message leaves its item on the list of its conversation. */
  lemma ItemStays(s: Store, a: Act, c: nat, n: nat, x: Item)
    requires Removal(a) && !TakesAway(a, c, n) && x in ListOf(s, c) && x.id == Local(n)
    ensures x in ListOf(Do(s, a), c)
  {
    match a
    case Dropped(_, _) =>
    case Discarded(d, l) => FilterIn((m: Item) => m.id != Local(l), ListOf(s, d), x);
    case Hidden(d, id) => FilterIn((m: Item) => m.id != id, ListOf(s, d), x);
    case Cleared(_, _) =>
  }

  /** And the message where it is. */
  lemma RemovedElsewhere(s: Store, a: Act, n: nat, m: Content, p: Place)
    requires Removal(a) && !TakesAway(a, m.conversation, n) && At(s, n, m, p)
    ensures At(Do(s, a), n, m, p)
  {
    RemovalShrinks(s, a);
    ShrinksKeeps(s, Do(s, a), n);
    if !p.WithServer? {
      var status := if p.Waiting? then Pending else Failed;
      var at :| Shown(m, n, at).(status := status) in ListOf(s, m.conversation);
      ItemStays(s, a, m.conversation, n, Shown(m, n, at).(status := status));
    }
  }

  /** Shown in its conversation with a time that is not before the cutoff. */
  ghost predicate ShownSince(s: Store, n: nat, m: Content, status: Status, cutoff: int) {
    exists at :: at >= cutoff && Shown(m, n, at).(status := status) in ListOf(s, m.conversation)
  }

  /**
    * What survives a removal that concerns the message: one that is with the server; one that is shown
    * since the cutoff of a cleared history; one that is discarded under another conversation.
    */
  ghost predicate Survives(s: Store, a: Act, n: nat, m: Content, p: Place) {
    || p.WithServer?
    || (a.Cleared? && a.cutoff.Some?
        && ShownSince(s, n, m, if p.Waiting? then Pending else Failed, a.cutoff.value))
    || (a.Discarded? && a.conversation != m.conversation)
  }

  lemma SinceKeeps(s: Store, n: nat, m: Content, status: Status, cutoff: int)
    ensures ShownAs(Clear(s, m.conversation, Some(cutoff)), n, m, status) <==> ShownSince(s, n, m, status, cutoff)
  {
    var items, r := ListOf(s, m.conversation), Clear(s, m.conversation, Some(cutoff));
    assert ListOf(r, m.conversation) == Since(items, cutoff);
    forall at
      ensures Shown(m, n, at).(status := status) in Since(items, cutoff) <==>
              at >= cutoff && Shown(m, n, at).(status := status) in items
    {
      FilterIn((m: Item) => m.createdAt >= cutoff, items, Shown(m, n, at).(status := status));
    }
  }

  /** Whether the item of an unsent message is still shown after a removal that concerns it. */
  lemma StillShown(s: Store, a: Act, n: nat, m: Content, status: Status)
    requires TakesAway(a, m.conversation, n) && ShownAs(s, n, m, status)
    ensures ShownAs(Do(s, a), n, m, status) <==>
            || (a.Cleared? && a.cutoff.Some? && ShownSince(s, n, m, status, a.cutoff.value))
            || (a.Discarded? && a.conversation != m.conversation)
  {
    var r := Do(s, a);
    match a
    case Dropped(c, _) => assert ListOf(r, c) == [];
    case Discarded(c, l) =>
      if c == m.conversation {
        NotListedWithout(ListOf(s, c), Local(n));
        NotShownAs(r, n, m, status);
      } else {
        assert ListOf(r, m.conversation) == ListOf(s, m.conversation);
      }
    case Hidden(c, id) =>
      NotListedWithout(ListOf(s, c), Local(n));
      NotShownAs(r, n, m, status);
    case Cleared(c, cutoff) =>
      if cutoff.Some? { SinceKeeps(s, n, m, status, cutoff.value); } else { assert ListOf(r, c) == []; }
  }

  lemma NotShownAs(s: Store, n: nat, m: Content, status: Status)
    requires !Listed(ListOf(s, m.conversation), Local(n))
    ensures !ShownAs(s, n, m, status)
  {
    InListed(ListOf(s, m.conversation), Local(n));
    assert forall at :: Shown(m, n, at).(status := status).id == Local(n);
  }

  /**
    * The exact effect of a removal on a message that it concerns. What survives of a queued message is
    * no longer queued: clearing a history up to a moment takes recent unsent messages out of the
    * outbox and leaves them on the list. What does not survive may still be queued, if it was hidden or
    * its conversation was dropped without its rows.
    */
  lemma RemovalExactly(s: Store, a: Act, n: nat, m: Content, p: Place)
    requires At(s, n, m, p) && TakesAway(a, m.conversation, n)
    ensures Somewhere(Do(s, a), n, m) <==> Survives(s, a, n, m, p)
    ensures Survives(s, a, n, m, p) && !a.Hidden? && !a.Dropped? ==>
              At(Do(s, a), n, m, if p.Queued? then TurnedDown else p)
    ensures n in Do(s, a).outbox <==> p.Queued? && (a.Hidden? || (a.Dropped? && !a.clearsCache))
  {
    var r := Do(s, a);
    RemovalShrinks(s, a);
    ShrinksKeeps(s, r, n);
    if p.WithServer? {
      assert At(r, n, m, WithServer);
    } else {
      var status := if p.Waiting? then Pending else Failed;
      StillShown(s, a, n, m, status);
      if Survives(s, a, n, m, p) {
        assert At(r, n, m, if p.Queued? then TurnedDown else p);
      } else {
        NowhereShown(r, n, m, status);
      }
    }
  }

  lemma NowhereShown(s: Store, n: nat, m: Content, status: Status)
    requires NotIn(s.accepted, n) && !ShownAs(s, n, m, status)
    requires status == if n in s.inFlight then Pending else Failed
    ensures !Somewhere(s, n, m)
  {
  }

  // -- the invariant --

  lemma IdOkUntouched(s: Store, r: Store, n: nat)
    requires IdOk(s, n) && Untouched(s, r, n) && r.nextLocal >= s.nextLocal
    ensures IdOk(r, n)
  {
    UntouchedKeeps(s, r, n);
  }

  lemma InvShrinks(s: Store, r: Store)
    requires Inv(s) && Shrinks(s, r)
    ensures Inv(r)
  {
    forall n
      ensures IdOk(r, n)
    {
      assert IdOk(s, n);
      ShrinksKeeps(s, r, n);
    }
  }

  lemma InvDiscard(s: Store, c: nat, local: nat)
    requires Inv(s)
    ensures Inv(DiscardFailed(s, c, local))
  {
    DiscardShrinks(s, c, local);
    InvShrinks(s, DiscardFailed(s, c, local));
  }

  lemma InvShow(s: Store, m: Content, at: int)
    requires Inv(s)
    ensures Inv(Show(s, m, at))
  {
    var r := Show(s, m, at);
    forall n
      ensures IdOk(r, n)
    {
      assert IdOk(s, n);
      if n != s.nextLocal {
        ShowUntouched(s, m, at, n);
        IdOkUntouched(s, r, n);
      } else {
        ShowWaits(s, m, at);
      }
    }
  }

  lemma InvFinish(s: Store, local: nat, outcome: Outcome, failedAt: int)
    requires Inv(s) && (outcome.Accepted? ==> FromServer(outcome.message))
    ensures Inv(Finish(s, local, outcome, failedAt))
  {
    var r := Finish(s, local, outcome, failedAt);
    forall n
      ensures IdOk(r, n)
    {
      assert IdOk(s, n);
      if n != local {
        FinishUntouched(s, local, outcome, failedAt, n);
        IdOkUntouched(s, r, n);
      } else if n in s.inFlight {
        FinishLists(s, n, outcome, failedAt);
      }
    }
  }

  lemma FinishLists(s: Store, n: nat, outcome: Outcome, failedAt: int)
    requires n in s.inFlight && OnlyIn(s, n, s.inFlight[n].conversation)
    requires outcome.Accepted? ==> FromServer(outcome.message)
    ensures OnlyIn(Finish(s, n, outcome, failedAt), n, s.inFlight[n].conversation)
  {
    var r, c := Finish(s, n, outcome, failedAt), s.inFlight[n].conversation;
    assert forall d :: d != c ==> ListOf(r, d) == ListOf(s, d);
  }

  lemma InvDo(s: Store, a: Act)
    requires Inv(s) && Genuine(a)
    ensures Inv(Do(s, a))
    ensures s.nextLocal <= Do(s, a).nextLocal
  {
    match a
    case Flushed(e, at) =>
      InvDiscard(s, e.conversation, e.localId);
      InvShow(DiscardFailed(s, e.conversation, e.localId),
              Content(e.conversation, e.text, e.replyTo, OrEmpty(IfAny(e.mentions))), at);
    case Typed(m, at) => InvShow(s, Content(m.conversation, m.text, m.replyTo, OrEmpty(IfAny(m.mentions))), at);
    case Answered(l, outcome, failedAt) => InvFinish(s, l, outcome, failedAt);
    case Loaded(cs) =>
      forall n ensures IdOk(Do(s, a), n) { assert IdOk(s, n); SameLists(s, Do(s, a), n); }
    case _ =>
      RemovalShrinks(s, a);
      InvShrinks(s, Do(s, a));
  }

  lemma SameLists(s: Store, r: Store, n: nat)
    requires r == s.(conversations := r.conversations)
    ensures Untouched(s, r, n)
    ensures IdOk(s, n) ==> IdOk(r, n)
  {
    assert forall d :: ListOf(r, d) == ListOf(s, d);
  }

  lemma {:induction false} InvDoAll(s: Store, acts: seq<Act>)
    requires Inv(s) && forall i :: 0 <= i < |acts| ==> Genuine(acts[i])
    ensures Inv(DoAll(s, acts)) && s.nextLocal <= DoAll(s, acts).nextLocal
  {
    if acts != [] {
      InvDoAll(s, Front(acts));
      assert Genuine(acts[|acts| - 1]);
      InvDo(DoAll(s, Front(acts)), Last(acts));
    }
  }

  // -- one act --

  /** An act that is not about `n` leaves it untouched; removals are treated apart. */
  lemma DoUntouched(s: Store, a: Act, n: nat)
    requires Genuine(a) && n < s.nextLocal && !Removal(a)
    requires a.Flushed? ==> a.entry.localId != n
    requires a.Answered? ==> a.local != n
    ensures Untouched(s, Do(s, a), n)
  {
    match a
    case Flushed(e, at) =>
      var d := DiscardFailed(s, e.conversation, e.localId);
      var m := Content(e.conversation, e.text, e.replyTo, OrEmpty(IfAny(e.mentions)));
      DiscardUntouched(s, e.conversation, e.localId, n);
      ShowUntouched(d, m, at, n);
      UntouchedTwice(s, d, Show(d, m, at), n);
    case Typed(m, at) =>
      ShowUntouched(s, Content(m.conversation, m.text, m.replyTo, OrEmpty(IfAny(m.mentions))), at, n);
      SameLists(s, s, n);
    case Answered(l, outcome, failedAt) => FinishUntouched(s, l, outcome, failedAt, n);
    case Loaded(cs) => SameLists(s, Do(s, a), n);
  }

  lemma UntouchedTwice(s: Store, r: Store, t: Store, n: nat)
    requires Untouched(s, r, n) && Untouched(r, t, n)
    ensures Untouched(s, t, n)
  {
    forall d
      ensures KeepsLocal(ListOf(s, d), ListOf(t, d), n)
    {
      assert KeepsLocal(ListOf(s, d), ListOf(r, d), n) && KeepsLocal(ListOf(r, d), ListOf(t, d), n);
    }
  }

  lemma PlaceStep(s: Store, a: Act, n: nat, m: Content, p: Place)
    requires Genuine(a) && n < s.nextLocal && At(s, n, m, p)
    requires a.Flushed? ==> a.entry.localId != n
    requires !TakesAway(a, m.conversation, n)
    ensures At(Do(s, a), n, m, NextPlace(p, a, n))
  {
    if Removal(a) {
      RemovedElsewhere(s, a, n, m, p);
    } else if a.Answered? && a.local == n {
      if p.Waiting? { FinishMoves(s, n, m, a.outcome, a.failedAt); }
    } else {
      DoUntouched(s, a, n);
      UntouchedAt(s, Do(s, a), n, m, p);
    }
  }

  // -- whole passes --

  /** The pass flushes entries that were queued when it began. */
  ghost predicate FlushesOld(s: Store, acts: seq<Act>) {
    forall i :: 0 <= i < |acts| && acts[i].Flushed? ==>
      acts[i].entry.localId in s.outbox && s.outbox[acts[i].entry.localId] == acts[i].entry
  }

  lemma OldIds(s: Store, acts: seq<Act>, i: nat)
    requires Inv(s) && FlushesOld(s, acts) && i < |acts| && acts[i].Flushed?
    ensures acts[i].entry.localId < s.nextLocal
    ensures OnlyIn(s, acts[i].entry.localId, acts[i].entry.conversation)
    ensures acts[i].entry.localId !in s.inFlight && NotIn(s.accepted, acts[i].entry.localId)
  {
    assert IdOk(s, acts[i].entry.localId);
  }

  /** The store when the `k`-th act begins. */
  function Before(s: Store, acts: seq<Act>, k: nat): Store
    requires k < |acts|
  {
    DoAll(s, acts[..k])
  }

  /** The local id the `k`-th act gets, if it gets one. */
  function NewId(s: Store, acts: seq<Act>, k: nat): nat
    requires k < |acts|
  {
    Before(s, acts, k).nextLocal
  }

  /** The conversation of the `k`-th act's entry is loaded at its turn. */
  predicate ReadyAtTurn(s: Store, acts: seq<Act>, k: nat)
    requires k < |acts| && acts[k].Flushed?
  {
    Ready(Before(s, acts, k), acts[k].entry.conversation)
  }

  /** The user does not take the entry of the `k`-th act away again after its turn. */
  predicate KeptAfterTurn(s: Store, acts: seq<Act>, k: nat)
    requires k < |acts| && acts[k].Flushed?
  {
    forall i :: k < i < |acts| ==> !TakesAway(acts[i], acts[k].entry.conversation, NewId(s, acts, k))
  }

  /** Where the entry of the `k`-th act ends up. */
  function FinalPlace(s: Store, acts: seq<Act>, k: nat): Place
    requires k < |acts|
  {
    PlaceAfter(acts[k + 1..], NewId(s, acts, k))
  }

  /** Mentions survive the round trip through an absent value. */
  lemma MentionsRoundTrip(mentions: seq<nat>)
    ensures OrEmpty(IfAny(mentions)) == mentions
  {
  }

  lemma FlushTurn(s: Store, e: Entry, at: int)
    requires Inv(s)
    ensures Ready(s, e.conversation) ==>
              Do(s, Flushed(e, at)).nextLocal == s.nextLocal + 1
              && At(Do(s, Flushed(e, at)), s.nextLocal, ContentOf(e), Waiting)
    ensures !Ready(s, e.conversation) ==> Do(s, Flushed(e, at)) == DiscardFailed(s, e.conversation, e.localId)
  {
    MentionsRoundTrip(e.mentions);
    InvDiscard(s, e.conversation, e.localId);
    ShowWaits(DiscardFailed(s, e.conversation, e.localId), ContentOf(e), at);
  }

  /**
    * A flushed entry whose conversation is loaded at its turn is from then on in exactly one place
    * under an id of its own, as it was written: it waits for the answer to its POST, or its first answer
    * has put it with the server, back in the outbox, or among the refused. No other act changes that,
    * unless the user takes the message away; `RemovalExactly` says what is left of it then.
    */
  lemma {:induction false} EntryPlaced(s: Store, acts: seq<Act>, k: nat)
    requires Inv(s) && (forall i :: 0 <= i < |acts| ==> Genuine(acts[i])) && FlushesOld(s, acts)
    requires k < |acts| && acts[k].Flushed? && ReadyAtTurn(s, acts, k) && KeptAfterTurn(s, acts, k)
    ensures s.nextLocal <= NewId(s, acts, k) < DoAll(s, acts).nextLocal
    ensures At(DoAll(s, acts), NewId(s, acts, k), ContentOf(acts[k].entry), FinalPlace(s, acts, k))
    decreases |acts|
  {
    var before, a := DoAll(s, Front(acts)), Last(acts);
    InvDoAll(s, Front(acts));
    assert Genuine(acts[|acts| - 1]);
    InvDo(before, a);
    if k == |acts| - 1 {
      assert acts[..k] == Front(acts) && acts[k + 1..] == [];
      FlushTurn(before, a.entry, a.at);
    } else {
      LastAct(s, acts, k);
      EntryPlaced(s, Front(acts), k);
      if a.Flushed? { OldIds(s, acts, |acts| - 1); }
      PlaceStep(before, a, NewId(s, acts, k), ContentOf(acts[k].entry), FinalPlace(s, Front(acts), k));
    }
  }

  /** One act more, after the turn of the `k`-th. */
  lemma LastAct(s: Store, acts: seq<Act>, k: nat)
    requires k < |acts| - 1
    ensures Before(s, Front(acts), k) == Before(s, acts, k)
    ensures FinalPlace(s, acts, k) == NextPlace(FinalPlace(s, Front(acts), k), Last(acts), NewId(s, acts, k))
  {
    assert Front(acts)[..k] == acts[..k];
    assert Front(acts[k + 1..]) == Front(acts)[k + 1..] && Last(acts[k + 1..]) == Last(acts);
  }

  /** An id that is used nowhere, and has been given out already, stays unused. */
  lemma UnusedStep(s: Store, a: Act, n: nat)
    requires Genuine(a) && n < s.nextLocal && Unused(s, n)
    ensures Unused(Do(s, a), n)
  {
    if Removal(a) {
      RemovalShrinks(s, a);
      ShrinksKeeps(s, Do(s, a), n);
    } else if a.Flushed? && a.entry.localId == n {
      var e, d := a.entry, DiscardFailed(s, a.entry.conversation, n);
      DiscardShrinks(s, e.conversation, n);
      ShrinksKeeps(s, d, n);
      ShowUntouched(d, Content(e.conversation, e.text, e.replyTo, OrEmpty(IfAny(e.mentions))), a.at, n);
      UntouchedKeeps(d, Show(d, Content(e.conversation, e.text, e.replyTo, OrEmpty(IfAny(e.mentions))), a.at), n);
    } else if !(a.Answered? && a.local == n) {
      DoUntouched(s, a, n);
      UntouchedKeeps(s, Do(s, a), n);
    }
  }

  /** A queued id stays in its conversation, unposted, or is used nowhere any more. */
  ghost predicate Resting(s: Store, n: nat, c: nat) {
    n < s.nextLocal && OnlyIn(s, n, c) && n !in s.inFlight && NotIn(s.accepted, n)
  }

  lemma RestingStep(s: Store, a: Act, n: nat, c: nat)
    requires Genuine(a) && Resting(s, n, c)
    ensures Resting(Do(s, a), n, c)
  {
    if Removal(a) {
      RemovalShrinks(s, a);
      ShrinksKeeps(s, Do(s, a), n);
    } else if a.Flushed? && a.entry.localId == n {
      var e, d := a.entry, DiscardFailed(s, a.entry.conversation, n);
      DiscardShrinks(s, e.conversation, n);
      ShrinksKeeps(s, d, n);
      ShowUntouched(d, Content(e.conversation, e.text, e.replyTo, OrEmpty(IfAny(e.mentions))), a.at, n);
      UntouchedKeeps(d, Show(d, Content(e.conversation, e.text, e.replyTo, OrEmpty(IfAny(e.mentions))), a.at), n);
    } else if !(a.Answered? && a.local == n) {
      DoUntouched(s, a, n);
      UntouchedKeeps(s, Do(s, a), n);
    }
  }

  lemma {:induction false} RestingThrough(s: Store, acts: seq<Act>, n: nat, c: nat)
    requires Inv(s) && (forall i :: 0 <= i < |acts| ==> Genuine(acts[i])) && Resting(s, n, c)
    ensures Resting(DoAll(s, acts), n, c)
  {
    if acts != [] {
      RestingThrough(s, Front(acts), n, c);
      assert Genuine(acts[|acts| - 1]);
      RestingStep(DoAll(s, Front(acts)), Last(acts), n, c);
    }
  }

  /** Once an entry is flushed, nothing is left under its old id: not queued, not shown, not posted. */
  lemma {:induction false} OldIdGone(s: Store, acts: seq<Act>, k: nat)
    requires Inv(s) && (forall i :: 0 <= i < |acts| ==> Genuine(acts[i])) && FlushesOld(s, acts)
    requires k < |acts| && acts[k].Flushed?
    ensures Unused(DoAll(s, acts), acts[k].entry.localId)
    decreases |acts|
  {
    var before, a, n := DoAll(s, Front(acts)), Last(acts), acts[k].entry.localId;
    InvDoAll(s, Front(acts));
    assert Genuine(acts[|acts| - 1]);
    OldIds(s, acts, k);
    if k == |acts| - 1 {
      RestingThrough(s, Front(acts), n, a.entry.conversation);
      FlushedClears(before, a.entry, a.at);
    } else {
      OldIdGone(s, Front(acts), k);
      UnusedStep(before, a, n);
    }
  }

  lemma FlushedClears(s: Store, e: Entry, at: int)
    requires Resting(s, e.localId, e.conversation)
    ensures Unused(Do(s, Flushed(e, at)), e.localId)
  {
    var d := DiscardFailed(s, e.conversation, e.localId);
    var m := Content(e.conversation, e.text, e.replyTo, OrEmpty(IfAny(e.mentions)));
    DiscardClears(s, e.conversation, e.localId);
    ShowUntouched(d, m, at, e.localId);
    UntouchedKeeps(d, Show(d, m, at), e.localId);
  }

  /**
    * For a whole pass, entry by entry: if and only if its conversation is loaded at its turn, an entry
    * gets an id at that turn and is somewhere under it at the end. Otherwise its turn only removes
    * it, and nothing is left of it anywhere.
    */
  lemma LostExactly(s: Store, acts: seq<Act>, k: nat)
    requires Inv(s) && (forall i :: 0 <= i < |acts| ==> Genuine(acts[i])) && FlushesOld(s, acts)
    requires k < |acts| && acts[k].Flushed? && KeptAfterTurn(s, acts, k)
    ensures var e, id, after := acts[k].entry, NewId(s, acts, k), DoAll(s, acts[..k + 1]);
            && (ReadyAtTurn(s, acts, k) <==> id < after.nextLocal && Somewhere(DoAll(s, acts), id, ContentOf(e)))
            && (!ReadyAtTurn(s, acts, k) ==>
                  after == DiscardFailed(Before(s, acts, k), e.conversation, e.localId) && after.nextLocal == id)
            && Unused(DoAll(s, acts), e.localId)
  {
    var e := acts[k].entry;
    assert Front(acts[..k + 1]) == acts[..k] && Last(acts[..k + 1]) == acts[k];
    InvDoAll(s, acts[..k]);
    FlushTurn(Before(s, acts, k), e, acts[k].at);
    OldIdGone(s, acts, k);
    if ReadyAtTurn(s, acts, k) { EntryPlaced(s, acts, k); }
  }

  lemma IdsDuringAct(s: Store, acts: seq<Act>, k: nat)
    requires Inv(s) && k < |acts| && forall i :: 0 <= i < |acts| ==> Genuine(acts[i])
    ensures Before(s, acts, k).nextLocal <= DoAll(s, acts[..k + 1]).nextLocal
    ensures acts[k].Flushed? && ReadyAtTurn(s, acts, k) ==>
              Before(s, acts, k).nextLocal < DoAll(s, acts[..k + 1]).nextLocal
  {
    assert Front(acts[..k + 1]) == acts[..k] && Last(acts[..k + 1]) == acts[k];
    InvDoAll(s, acts[..k]);
    InvDo(Before(s, acts, k), acts[k]);
    if acts[k].Flushed? { FlushTurn(Before(s, acts, k), acts[k].entry, acts[k].at); }
  }

  /** Different entries get different ids, in the order of the pass. */
  lemma {:induction false} IdsIncrease(s: Store, acts: seq<Act>, i: nat, j: nat)
    requires Inv(s) && forall i :: 0 <= i < |acts| ==> Genuine(acts[i])
    requires i < j < |acts| && acts[i].Flushed? && ReadyAtTurn(s, acts, i)
    ensures NewId(s, acts, i) < NewId(s, acts, j)
    decreases j
  {
    IdsDuringAct(s, acts, j - 1);
    if i < j - 1 { IdsIncrease(s, acts, i, j - 1); }
  }

  /**
    * The price of two passes at once: if the same row is flushed twice, its message is under two ids, and
    * whatever its POSTs decide is decided twice.
    */
  lemma OverlapDoubles(s: Store, acts: seq<Act>, i: nat, j: nat)
    requires Inv(s) && (forall i :: 0 <= i < |acts| ==> Genuine(acts[i])) && FlushesOld(s, acts)
    requires i < j < |acts| && acts[i].Flushed? && acts[j].Flushed? && acts[i].entry == acts[j].entry
    requires ReadyAtTurn(s, acts, i) && KeptAfterTurn(s, acts, i)
    requires ReadyAtTurn(s, acts, j) && KeptAfterTurn(s, acts, j)
    ensures NewId(s, acts, i) < NewId(s, acts, j)
    ensures var r, m := DoAll(s, acts), ContentOf(acts[i].entry);
            && At(r, NewId(s, acts, i), m, FinalPlace(s, acts, i))
            && At(r, NewId(s, acts, j), m, FinalPlace(s, acts, j))
  {
    IdsIncrease(s, acts, i, j);
    EntryPlaced(s, acts, i);
    EntryPlaced(s, acts, j);
  }

  /** Entries that are queued again come back from the outbox in the order of the pass. */
  lemma RequeuedInOrder(s: Store, acts: seq<Act>, i: nat, j: nat, r: seq<Entry>, p: nat, q: nat)
    requires Inv(s) && (forall i :: 0 <= i < |acts| ==> Genuine(acts[i])) && FlushesOld(s, acts)
    requires i < |acts| && acts[i].Flushed? && ReadyAtTurn(s, acts, i) && KeptAfterTurn(s, acts, i)
    requires j < |acts| && acts[j].Flushed? && ReadyAtTurn(s, acts, j) && KeptAfterTurn(s, acts, j)
    requires FinalPlace(s, acts, i).Queued? && FinalPlace(s, acts, j).Queued?
    requires FinalPlace(s, acts, i).at < FinalPlace(s, acts, j).at
    requires OutboxList(DoAll(s, acts).outbox, r) && p < |r| && q < |r|
    requires r[p].localId == NewId(s, acts, i) && r[q].localId == NewId(s, acts, j)
    ensures p < q
  {
    EntryPlaced(s, acts, i);
    EntryPlaced(s, acts, j);
    LaterInOutbox(r, p, q);
  }

  lemma LaterInOutbox(r: seq<Entry>, p: nat, q: nat)
    requires InOutboxOrder(r) && p < |r| && q < |r| && r[p].createdAt < r[q].createdAt
    ensures p < q
  {
  }

  // ---- The flush of the store: one entry after the other ----

  predicate GenuineTurn(t: Turn) {
    t.outcome.Accepted? ==> FromServer(t.outcome.message)
  }

  /** One turn of the flush is the beginning of its send and the answer to it. */
  lemma FlushOneIsTwoActs(s: Store, e: Entry, t: Turn)
    requires Inv(s)
    ensures FlushOne(s, e, t) == Do(Do(s, Flushed(e, t.sentAt)), Answered(s.nextLocal, t.outcome, t.failedAt))
  {
    InvDiscard(s, e.conversation, e.localId);
    assert IdOk(s, s.nextLocal);
  }

  lemma FlushOneKeeps(s: Store, e: Entry, t: Turn)
    requires Inv(s) && GenuineTurn(t)
    ensures Inv(FlushOne(s, e, t)) && FlushOne(s, e, t).conversations == s.conversations
    ensures FlushOne(s, e, t).nextLocal == s.nextLocal + if Ready(s, e.conversation) then 1 else 0
  {
    FlushOneIsTwoActs(s, e, t);
    InvDo(s, Flushed(e, t.sentAt));
    InvDo(Do(s, Flushed(e, t.sentAt)), Answered(s.nextLocal, t.outcome, t.failedAt));
  }

  lemma FlushOnePlaces(s: Store, e: Entry, t: Turn)
    requires Inv(s) && GenuineTurn(t) && Ready(s, e.conversation)
    ensures At(FlushOne(s, e, t), s.nextLocal, ContentOf(e), PlaceOf(t.outcome, t.failedAt))
  {
    FlushOneIsTwoActs(s, e, t);
    FlushTurn(s, e, t.sentAt);
    FinishMoves(Do(s, Flushed(e, t.sentAt)), s.nextLocal, ContentOf(e), t.outcome, t.failedAt);
  }

  lemma FlushOneKeepsPlace(s: Store, e: Entry, t: Turn, n: nat, m: Content, p: Place)
    requires Inv(s) && GenuineTurn(t) && n < s.nextLocal && At(s, n, m, p) && e.localId != n
    ensures At(FlushOne(s, e, t), n, m, p)
  {
    var a, b := Flushed(e, t.sentAt), Answered(s.nextLocal, t.outcome, t.failedAt);
    FlushOneIsTwoActs(s, e, t);
    InvDo(s, a);
    PlaceStep(s, a, n, m, p);
    PlaceStep(Do(s, a), b, n, m, p);
  }

  lemma FlushOneUnused(s: Store, e: Entry, t: Turn, n: nat)
    requires Inv(s) && GenuineTurn(t) && n < s.nextLocal && Unused(s, n)
    ensures Unused(FlushOne(s, e, t), n)
  {
    var a, b := Flushed(e, t.sentAt), Answered(s.nextLocal, t.outcome, t.failedAt);
    FlushOneIsTwoActs(s, e, t);
    InvDo(s, a);
    UnusedStep(s, a, n);
    UnusedStep(Do(s, a), b, n);
  }

  lemma FlushOneRests(s: Store, e: Entry, t: Turn, n: nat, c: nat)
    requires Inv(s) && GenuineTurn(t) && Resting(s, n, c)
    ensures Resting(FlushOne(s, e, t), n, c)
  {
    var a, b := Flushed(e, t.sentAt), Answered(s.nextLocal, t.outcome, t.failedAt);
    FlushOneIsTwoActs(s, e, t);
    RestingStep(s, a, n, c);
    RestingStep(Do(s, a), b, n, c);
  }

  lemma {:induction false} FlushKeeps(s: Store, entries: seq<Entry>, turns: seq<Turn>)
    requires Inv(s) && |entries| == |turns| && GenuineTurns(turns)
    ensures var r := Flush(s, entries, turns);
            Inv(r) && r.conversations == s.conversations && s.nextLocal <= r.nextLocal
  {
    if entries != [] {
      FlushKeeps(s, Front(entries), Front(turns));
      assert GenuineTurn(turns[|turns| - 1]);
      FlushOneKeeps(Flush(s, Front(entries), Front(turns)), Last(entries), Last(turns));
    }
  }

  lemma {:induction false} FlushRests(s: Store, entries: seq<Entry>, turns: seq<Turn>, n: nat, c: nat)
    requires Inv(s) && |entries| == |turns| && GenuineTurns(turns)
    requires Resting(s, n, c)
    ensures Resting(Flush(s, entries, turns), n, c)
  {
    if entries != [] {
      FlushRests(s, Front(entries), Front(turns), n, c);
      FlushKeeps(s, Front(entries), Front(turns));
      assert GenuineTurn(turns[|turns| - 1]);
      FlushOneRests(Flush(s, Front(entries), Front(turns)), Last(entries), Last(turns), n, c);
    }
  }

  /** The id entry `k` of the pass gets if its conversation is loaded. */
  function FlushId(s: Store, entries: seq<Entry>, turns: seq<Turn>, k: nat): nat
    requires |entries| == |turns| && k < |entries|
  {
    Flush(s, entries[..k], turns[..k]).nextLocal
  }

  predicate GenuineTurns(turns: seq<Turn>) {
    forall i :: 0 <= i < |turns| ==> GenuineTurn(turns[i])
  }

  /** The entries are rows of the outbox. */
  predicate FromOutbox(s: Store, entries: seq<Entry>) {
    forall i :: 0 <= i < |entries| ==>
      entries[i].localId in s.outbox && s.outbox[entries[i].localId] == entries[i]
  }

  lemma FromOutboxRests(s: Store, entries: seq<Entry>, k: nat)
    requires Inv(s) && FromOutbox(s, entries) && k < |entries|
    ensures Resting(s, entries[k].localId, entries[k].conversation)
  {
    assert IdOk(s, entries[k].localId);
  }

  lemma {:induction false} FlushGone(s: Store, entries: seq<Entry>, turns: seq<Turn>, k: nat)
    requires Inv(s) && |entries| == |turns| && k < |entries| && GenuineTurns(turns) && FromOutbox(s, entries)
    ensures Unused(Flush(s, entries, turns), entries[k].localId)
    decreases |entries|
  {
    var e, front, rest := entries[k], Front(entries), Front(turns);
    FlushKeeps(s, front, rest);
    FromOutboxRests(s, entries, k);
    assert GenuineTurn(turns[|turns| - 1]);
    if k == |entries| - 1 {
      FlushRests(s, front, rest, e.localId, e.conversation);
      FlushLast(Flush(s, front, rest), e, Last(turns));
    } else {
      FlushGone(s, front, rest, k);
      FlushOneUnused(Flush(s, front, rest), Last(entries), Last(turns), e.localId);
    }
  }

  ghost predicate AtAfter(s: Store, entries: seq<Entry>, turns: seq<Turn>, n: nat, m: Content, p: Place)
    requires |entries| == |turns|
  {
    n < Flush(s, entries, turns).nextLocal && At(Flush(s, entries, turns), n, m, p)
  }

  lemma FlushTurnKeeps(s: Store, entries: seq<Entry>, turns: seq<Turn>, i: nat, n: nat, m: Content, p: Place)
    requires Inv(s) && |entries| == |turns| && i < |entries| && GenuineTurns(turns)
    requires entries[i].localId != n && AtAfter(s, entries[..i], turns[..i], n, m, p)
    ensures AtAfter(s, entries[..i + 1], turns[..i + 1], n, m, p)
  {
    var before := Flush(s, entries[..i], turns[..i]);
    FlushKeeps(s, entries[..i], turns[..i]);
    FlushNext(s, entries, turns, i);
    FlushOneKeepsPlace(before, entries[i], turns[i], n, m, p);
    FlushOneKeeps(before, entries[i], turns[i]);
  }

  /** The turns that follow leave a message where it is. */
  lemma {:induction false} FlushRestKeeps(s: Store, entries: seq<Entry>, turns: seq<Turn>, i: nat,
                                          n: nat, m: Content, p: Place)
    requires Inv(s) && |entries| == |turns| && i <= |entries| && GenuineTurns(turns)
    requires forall j :: 0 <= j < |entries| ==> entries[j].localId != n
    requires AtAfter(s, entries[..i], turns[..i], n, m, p)
    ensures AtAfter(s, entries, turns, n, m, p)
    decreases |entries| - i
  {
    if i == |entries| {
      assert entries[..i] == entries && turns[..i] == turns;
    } else {
      FlushTurnKeeps(s, entries, turns, i, n, m, p);
      FlushRestKeeps(s, entries, turns, i + 1, n, m, p);
    }
  }

  lemma FlushPlaces(s: Store, entries: seq<Entry>, turns: seq<Turn>, k: nat)
    requires Inv(s) && |entries| == |turns| && k < |entries| && GenuineTurns(turns) && FromOutbox(s, entries)
    requires Ready(s, entries[k].conversation)
    ensures s.nextLocal <= FlushId(s, entries, turns, k) < Flush(s, entries, turns).nextLocal
    ensures At(Flush(s, entries, turns), FlushId(s, entries, turns, k), ContentOf(entries[k]),
               PlaceOf(turns[k].outcome, turns[k].failedAt))
  {
    var before, id := Flush(s, entries[..k], turns[..k]), FlushId(s, entries, turns, k);
    FlushKeeps(s, entries[..k], turns[..k]);
    FlushNext(s, entries, turns, k);
    FlushOneKeeps(before, entries[k], turns[k]);
    FlushOnePlaces(before, entries[k], turns[k]);
    forall j | 0 <= j < |entries|
      ensures entries[j].localId != id
    {
      FromOutboxRests(s, entries, j);
    }
    FlushRestKeeps(s, entries, turns, k + 1, id, ContentOf(entries[k]), PlaceOf(turns[k].outcome, turns[k].failedAt));
  }

  /**
    * One flush of the whole outbox. Each entry whose conversation is loaded ends up in exactly one
    * place, the one its own POST decides, under an id of its own and as it was written; each other
    * entry is gone. No entry keeps anything under its old id.
    */
  lemma FlushConserves(s: Store, entries: seq<Entry>, turns: seq<Turn>, k: nat)
    requires Inv(s) && OutboxList(s.outbox, entries)
    requires |entries| == |turns| && k < |entries| && GenuineTurns(turns)
    ensures var r, id, e := Flush(s, entries, turns), FlushId(s, entries, turns, k), entries[k];
            && (Ready(s, e.conversation) ==>
                  && s.nextLocal <= id < r.nextLocal
                  && At(r, id, ContentOf(e), PlaceOf(turns[k].outcome, turns[k].failedAt)))
            && (!Ready(s, e.conversation) ==> Flush(s, entries[..k + 1], turns[..k + 1]).nextLocal == id)
            && Unused(r, e.localId)
  {
    FlushGone(s, entries, turns, k);
    FlushKeeps(s, entries[..k], turns[..k]);
    FlushNext(s, entries, turns, k);
    FlushOneKeeps(Flush(s, entries[..k], turns[..k]), entries[k], turns[k]);
    if Ready(s, entries[k].conversation) { FlushPlaces(s, entries, turns, k); }
  }

  lemma FlushLast(s: Store, e: Entry, t: Turn)
    requires Inv(s) && GenuineTurn(t) && Resting(s, e.localId, e.conversation)
    ensures Unused(FlushOne(s, e, t), e.localId)
    ensures Ready(s, e.conversation) ==>
              At(FlushOne(s, e, t), s.nextLocal, ContentOf(e), PlaceOf(t.outcome, t.failedAt))
  {
    FlushOneIsTwoActs(s, e, t);
    FlushedClears(s, e, t.sentAt);
    InvDo(s, Flushed(e, t.sentAt));
    UnusedStep(Do(s, Flushed(e, t.sentAt)), Answered(s.nextLocal, t.outcome, t.failedAt), e.localId);
    if Ready(s, e.conversation) { FlushOnePlaces(s, e, t); }
  }

  /** The loss can happen: the app starts with a queued entry and connects before its conversations are loaded. */
  lemma FlushAtStartLoses(e: Entry, t: Turn)
    requires e.localId == 0
    ensures var s := Store(map[], map[], map[0 := e], 1, map[], []);
            var r := Flush(s, [e], [t]);
            && Inv(s) && OutboxList(s.outbox, [e])
            && r.outbox == map[] && r.accepted == [] && r.inFlight == map[] && r.nextLocal == 1
            && forall c :: ListOf(r, c) == []
  {
    var s := Store(map[], map[], map[0 := e], 1, map[], []);
    assert forall n :: IdOk(s, n);
    assert Front([e]) == [] && Front([t]) == [];
    assert Without([], Local(0)) == [];
  }

  // ---- Retrying by hand ----

  lemma {:induction false} FailedAtIsListed(items: seq<Item>, local: nat)
    ensures FailedAt(items, local).Some? ==>
              && FailedAt(items, local).value in items
              && FailedAt(items, local).value.id == Local(local) && FailedAt(items, local).value.status == Failed
    ensures FailedAt(items, local).None? ==>
              forall m :: m in items && m.id == Local(local) ==> m.status != Failed
  {
    if items != [] {
      FailedAtIsListed(Front(items), local);
      assert items == Front(items) + [Last(items)];
    }
  }

  /** The message a retry would send again. */
  function RetryContent(s: Store, c: nat, local: nat): Option<Content> {
    match FailedAt(ListOf(s, c), local)
    case None => None
    case Some(m) =>
      if m.text.None? || m.text.value == "" then None else Some(Content(c, m.text.value, m.replyTo, m.mentions))
  }

  /** There is something to send again exactly if the message is listed as failed and has a text. */
  lemma RetryFinds(s: Store, c: nat, local: nat, m: Item)
    requires UniqueIds(ListOf(s, c)) && m in ListOf(s, c) && m.id == Local(local)
    ensures RetryContent(s, c, local) ==
            if m.status == Failed && m.text.Some? && m.text.value != ""
            then Some(Content(c, m.text.value, m.replyTo, m.mentions)) else None
  {
    FailedAtIsListed(ListOf(s, c), local);
  }

  /**
    * A retry of a failed message with text moves it, as it is, to a new id in exactly one place if and
    * only if its conversation is loaded; otherwise the retry just removes it. Anything else it leaves alone.
    */
  lemma RetryExactly(s: Store, c: nat, local: nat, t: Turn)
    requires Inv(s) && GenuineTurn(t)
    ensures var r, m := Retry(s, c, local, t), RetryContent(s, c, local);
            if m.None? then r == s
            else
              && local !in r.outbox && !Listed(ListOf(r, c), Local(local))
              && (Ready(s, c) <==> s.nextLocal < r.nextLocal && Somewhere(r, s.nextLocal, m.value))
              && (Ready(s, c) ==> At(r, s.nextLocal, m.value, PlaceOf(t.outcome, t.failedAt)))
              && (!Ready(s, c) ==> r == DiscardFailed(s, c, local))
  {
    var list, m := ListOf(s, c), RetryContent(s, c, local);
    FailedAtIsListed(list, local);
    if m.Some? {
      var d := DiscardFailed(s, c, local);
      InListed(list, Local(local));
      assert IdOk(s, local) && local < s.nextLocal;
      InvDiscard(s, c, local);
      NotListedWithout(list, Local(local));
      if Ready(s, c) { RetrySends(d, m.value, local, t); }
    }
  }

  lemma RetrySends(d: Store, m: Content, local: nat, t: Turn)
    requires Inv(d) && GenuineTurn(t) && Ready(d, m.conversation) && local < d.nextLocal
    requires local !in d.outbox && !Listed(ListOf(d, m.conversation), Local(local))
    ensures var r := SendText(d, m.conversation, m.text, m.replyTo, IfAny(m.mentions), t);
            && r.nextLocal == d.nextLocal + 1 && At(r, d.nextLocal, m, PlaceOf(t.outcome, t.failedAt))
            && local !in r.outbox && !Listed(ListOf(r, m.conversation), Local(local))
  {
    MentionsRoundTrip(m.mentions);
    var b := Show(d, m, t.sentAt);
    ShowWaits(d, m, t.sentAt);
    FinishMoves(b, d.nextLocal, m, t.outcome, t.failedAt);
    ShowUntouched(d, m, t.sentAt, local);
    FinishUntouched(b, d.nextLocal, t.outcome, t.failedAt, local);
    UntouchedTwice(d, b, Finish(b, d.nextLocal, t.outcome, t.failedAt), local);
    assert KeepsLocal(ListOf(d, m.conversation),
                      ListOf(Finish(b, d.nextLocal, t.outcome, t.failedAt), m.conversation), local);
  }

  // ---- What a send shows ----

  /** What the server accepted is on the list, in the place of the local copy, unless its event came first. */
  lemma AcceptedIsShown(s: Store, local: nat, message: Item, failedAt: int)
    requires local in s.inFlight && FromServer(message)
    ensures var c, r := s.inFlight[local].conversation, Finish(s, local, Accepted(message), failedAt);
            && Replaces(ListOf(s, c), ListOf(r, c), local, message) && Listed(ListOf(r, c), message.id)
            && (UniqueIds(ListOf(s, c)) ==> UniqueIds(ListOf(r, c)))
            && (forall d :: d != c ==> ListOf(r, d) == ListOf(s, d))
            && r.outbox == s.outbox && r.nextLocal == s.nextLocal
            && forall d :: Ready(r, d) <==> Ready(s, d) || d == c
  {
    var c, r := s.inFlight[local].conversation, Finish(s, local, Accepted(message), failedAt);
    var rest := Without(ListOf(s, c), Local(local));
    FilterKeeps((m: Item) => m.id != Local(local), ListOf(s, c));
    assert Arrives(rest, ListOf(r, c), message);
    ListedAppendNew(rest, message);
    if UniqueIds(ListOf(s, c)) {
      FilterUnique((m: Item) => m.id != Local(local), ListOf(s, c));
      AppendNewUnique(rest, message);
    }
  }

  /** A send that was not accepted is marked as failed where it is listed, and nothing else changes. */
  lemma FailureIsShown(s: Store, local: nat, outcome: Outcome, failedAt: int)
    requires local in s.inFlight && !outcome.Accepted?
    ensures var c, r := s.inFlight[local].conversation, Finish(s, local, outcome, failedAt);
            && ChangesOnly(ListOf(s, c), ListOf(r, c), Local(local))
            && (forall i :: 0 <= i < |ListOf(s, c)| && ListOf(s, c)[i].id == Local(local) ==>
                  ListOf(r, c)[i] == ListOf(s, c)[i].(status := Failed))
            && (forall d :: d != c ==> ListOf(r, d) == ListOf(s, d))
            && r.outbox.Keys == s.outbox.Keys + (if outcome.Unreachable? then {local} else {})
            && r.nextLocal == s.nextLocal && r.conversations == s.conversations && r.accepted == s.accepted
  {
  }

  /** Whether a conversation is loaded after an act: a loaded list, a drop and an accepted send decide it. */
  lemma ReadyExactly(s: Store, a: Act, c: nat)
    ensures Ready(Do(s, a), c) <==>
            match a
            case Loaded(cs) => c in cs && cs[c]
            case Dropped(d, _) => d != c && Ready(s, c)
            case Answered(l, outcome, _) =>
              Ready(s, c) || (outcome.Accepted? && l in s.inFlight && s.inFlight[l].conversation == c)
            case _ => Ready(s, c)
  {
  }

  /** What an act is to the timeline of conversation `c`. */
  function EventsOf(s: Store, a: Act, c: nat): seq<Timeline.Event> {
    match a
    case Flushed(e, at) =>
      if e.conversation != c then []
      else [Discard(e.localId)] + if Ready(s, c) then [Send(at, e.text, e.replyTo, e.mentions)] else []
    case Typed(m, at) =>
      if m.conversation == c && Ready(s, c) then [Send(at, m.text, m.replyTo, m.mentions)] else []
    case Answered(l, outcome, _) =>
      if l !in s.inFlight || s.inFlight[l].conversation != c then []
      else if outcome.Accepted? then [PostReply(l, outcome.message)] else [PostFailed(l)]
    case Loaded(_) => []
    case Dropped(d, _) => if d == c then [DropConversation] else []
    case Discarded(d, l) => if d == c then [Discard(l)] else []
    case Hidden(d, id) => if d == c then [Event.Hide(id)] else []
    case Cleared(d, cutoff) =>
      if d != c then [] else if cutoff.Some? then [ClearOlderThan(cutoff.value)] else [ClearHistory]
  }

  function Steps(z: State, es: seq<Timeline.Event>): State {
    if es == [] then z else Step(Steps(z, Front(es)), Last(es))
  }

  lemma StepsOne(z: State, e: Timeline.Event)
    ensures Steps(z, [e]) == Step(z, e)
  {
    assert Front([e]) == [];
  }

  lemma StepsTwo(z: State, e: Timeline.Event, f: Timeline.Event)
    ensures Steps(z, [e] + [f]) == Step(Step(z, e), f)
  {
    assert Front([e] + [f]) == [e];
    StepsOne(z, e);
  }

  function TimelineOf(s: Store, c: nat): State {
    State(ListOf(s, c), map[], map[], None, s.nextLocal)
  }

  lemma FlushOnTimeline(s: Store, e: Entry, at: int, c: nat)
    ensures ListOf(Do(s, Flushed(e, at)), c) == Steps(TimelineOf(s, c), EventsOf(s, Flushed(e, at), c)).items
  {
    MentionsRoundTrip(e.mentions);
    if e.conversation == c {
      StepsOne(TimelineOf(s, c), Discard(e.localId));
      StepsTwo(TimelineOf(s, c), Discard(e.localId), Send(at, e.text, e.replyTo, e.mentions));
    }
  }

  lemma TypedOnTimeline(s: Store, m: Content, at: int, c: nat)
    ensures ListOf(Do(s, Typed(m, at)), c) == Steps(TimelineOf(s, c), EventsOf(s, Typed(m, at), c)).items
  {
    MentionsRoundTrip(m.mentions);
    StepsOne(TimelineOf(s, c), Send(at, m.text, m.replyTo, m.mentions));
  }

  lemma AnswerOnTimeline(s: Store, a: Act, c: nat)
    requires a.Answered?
    ensures ListOf(Do(s, a), c) == Steps(TimelineOf(s, c), EventsOf(s, a, c)).items
  {
    if a.local in s.inFlight && s.inFlight[a.local].conversation == c {
      var z := TimelineOf(s, c);
      if a.outcome.Accepted? {
        StepsOne(z, PostReply(a.local, a.outcome.message));
      } else {
        StepsOne(z, PostFailed(a.local));
      }
    }
  }

  lemma ClearedOnList(s: Store, c: nat, cutoff: Option<int>)
    ensures var e := if cutoff.Some? then ClearOlderThan(cutoff.value) else ClearHistory;
            ListOf(Clear(s, c, cutoff), c) == Step(TimelineOf(s, c), e).items
  {
  }

  lemma WithoutOnList(s: Store, c: nat, id: Id)
    ensures ListOf(Hide(s, c, id), c) == Step(TimelineOf(s, c), Event.Hide(id)).items
    ensures id.Local? ==> ListOf(DiscardFailed(s, c, id.n), c) == Step(TimelineOf(s, c), Discard(id.n)).items
  {
  }

  lemma RemovalOnList(s: Store, a: Act, c: nat)
    requires Removal(a)
    ensures EventsOf(s, a, c) == [] ==> ListOf(Do(s, a), c) == ListOf(s, c)
    ensures EventsOf(s, a, c) != [] ==> ListOf(Do(s, a), c) == Step(TimelineOf(s, c), EventsOf(s, a, c)[0]).items
  {
    match a
    case Dropped(_, _) =>
    case Discarded(d, l) => WithoutOnList(s, d, Local(l));
    case Hidden(d, id) => WithoutOnList(s, d, id);
    case Cleared(d, cutoff) => ClearedOnList(s, d, cutoff);
  }

  lemma RemovalOnTimeline(s: Store, a: Act, c: nat)
    requires Removal(a)
    ensures ListOf(Do(s, a), c) == Steps(TimelineOf(s, c), EventsOf(s, a, c)).items
  {
    RemovalOnList(s, a, c);
    var es := EventsOf(s, a, c);
    if es != [] {
      assert es == [es[0]];
      StepsOne(TimelineOf(s, c), es[0]);
    }
  }

  /** An act does to the list of every conversation what the events it stands for do to its timeline. */
  lemma ActsOnTimelines(s: Store, a: Act, c: nat)
    ensures ListOf(Do(s, a), c) == Steps(TimelineOf(s, c), EventsOf(s, a, c)).items
  {
    match a
    case Flushed(e, at) => FlushOnTimeline(s, e, at, c);
    case Typed(m, at) => TypedOnTimeline(s, m, at, c);
    case Answered(_, _, _) => AnswerOnTimeline(s, a, c);
    case Loaded(_) =>
    case _ => RemovalOnTimeline(s, a, c);
  }

  lemma WithoutLast(items: seq<Item>, x: Item)
    requires !Listed(items, x.id)
    ensures Without(items + [x], x.id) == items
  {
    assert Front(items + [x]) == items;
    WithoutAbsent(items, x.id);
  }

  lemma MarkLast(items: seq<Item>, x: Item, local: nat)
    requires x.id == Local(local) && !Listed(items, x.id)
    ensures MarkFailed(items + [x], local) == items + [x.(status := Failed)]
  {
  }

  /** The message a send leaves on the list: the server's copy if it was accepted, otherwise the failed local one. */
  function Outcoming(s: Store, m: Content, t: Turn): Item {
    if t.outcome.Accepted? then t.outcome.message else Shown(m, s.nextLocal, t.sentAt).(status := Failed)
  }

  /**
    * A send that nothing interrupts adds its message at the end of its conversation, once, unless the
    * server's copy was there already. Every listed message keeps its place and its version.
    */
  lemma SentIsShown(s: Store, m: Content, t: Turn)
    requires Inv(s) && GenuineTurn(t) && Ready(s, m.conversation)
    ensures var r := SendText(s, m.conversation, m.text, m.replyTo, IfAny(m.mentions), t);
            && Arrives(ListOf(s, m.conversation), ListOf(r, m.conversation), Outcoming(s, m, t))
            && forall d :: d != m.conversation ==> ListOf(r, d) == ListOf(s, d)
  {
    MentionsRoundTrip(m.mentions);
    var items, x := ListOf(s, m.conversation), Shown(m, s.nextLocal, t.sentAt);
    var b := Show(s, m, t.sentAt);
    assert IdOk(s, s.nextLocal);
    assert ListOf(b, m.conversation) == items + [x];
    WithoutLast(items, x);
    MarkLast(items, x, s.nextLocal);
  }

  // -- over a pass --

  lemma {:induction false} FilterBoth(keep: Item -> bool, also: Item -> bool, both: Item -> bool, s: seq<Item>)
    requires forall m :: both(m) == (keep(m) && also(m))
    ensures Filter(also, Filter(keep, s)) == Filter(both, s)
  {
    if s == [] {
      assert Filter(keep, s) == [];
    } else {
      FilterBoth(keep, also, both, Front(s));
      var front, last := Filter(keep, Front(s)), Last(s);
      assert both(last) == (keep(last) && also(last));
      assert Front(front + [last]) == front && Last(front + [last]) == last;
      assert Filter(also, front + [last]) == Filter(also, front) + if also(last) then [last] else [];
      assert Filter(keep, s) == if keep(last) then front + [last] else front;
    }
  }

  lemma {:induction false} FilterPrefix(keep: Item -> bool, a: seq<Item>, b: seq<Item>)
    requires a <= b
    ensures Filter(keep, a) <= Filter(keep, b)
  {
    if |a| < |b| {
      assert a <= Front(b);
      FilterPrefix(keep, a, Front(b));
    } else {
      assert a == b;
    }
  }

  /** The messages of a list that no entry of the pass stands for. */
  predicate Spared(m: Item, c: nat, entries: seq<Entry>) {
    forall i :: 0 <= i < |entries| && entries[i].conversation == c ==> m.id != Local(entries[i].localId)
  }

  /** The kept messages are on the list before all others, in their old order and as they were. */
  ghost predicate Carries(a: seq<Item>, b: seq<Item>, keep: Item -> bool) {
    exists first :: KeptOf(a, first, keep) && first <= b
  }

  ghost predicate AllUnique(s: Store) {
    forall c :: UniqueIds(ListOf(s, c))
  }

  lemma FlushOneShows(s: Store, e: Entry, t: Turn, c: nat)
    requires Inv(s) && GenuineTurn(t)
    ensures var r := FlushOne(s, e, t);
            var items := if c == e.conversation then Without(ListOf(s, c), Local(e.localId)) else ListOf(s, c);
            if c == e.conversation && Ready(s, c) then Arrives(items, ListOf(r, c), Outcoming(s, ContentOf(e), t))
            else ListOf(r, c) == items
  {
    InvDiscard(s, e.conversation, e.localId);
    if Ready(s, e.conversation) {
      SentIsShown(DiscardFailed(s, e.conversation, e.localId), ContentOf(e), t);
    }
  }

  lemma ArrivesShown(items: seq<Item>, after: seq<Item>, m: Item)
    requires Arrives(items, after, m)
    ensures items <= after && Listed(after, m.id)
    ensures UniqueIds(items) ==> UniqueIds(after)
  {
    if !Listed(items, m.id) { assert after[|items|].id == m.id; }
  }

  lemma FlushOneUnique(s: Store, e: Entry, t: Turn)
    requires Inv(s) && GenuineTurn(t) && AllUnique(s)
    ensures AllUnique(FlushOne(s, e, t))
  {
    forall c
      ensures UniqueIds(ListOf(FlushOne(s, e, t), c))
    {
      var items := if c == e.conversation then Without(ListOf(s, c), Local(e.localId)) else ListOf(s, c);
      FilterUnique((m: Item) => m.id != Local(e.localId), ListOf(s, c));
      FlushOneShows(s, e, t, c);
      if c == e.conversation && Ready(s, c) {
        ArrivesShown(items, ListOf(FlushOne(s, e, t), c), Outcoming(s, ContentOf(e), t));
      }
    }
  }

  lemma FlushOneAccepts(s: Store, e: Entry, t: Turn)
    requires Inv(s) && GenuineTurn(t) && Ready(s, e.conversation) && t.outcome.Accepted?
    ensures Listed(ListOf(FlushOne(s, e, t), e.conversation), t.outcome.message.id)
  {
    var c := e.conversation;
    FlushOneShows(s, e, t, c);
    ArrivesShown(Without(ListOf(s, c), Local(e.localId)), ListOf(FlushOne(s, e, t), c), Outcoming(s, ContentOf(e), t));
  }

  lemma FlushOneKeepsServer(s: Store, e: Entry, t: Turn, c: nat, n: nat)
    requires Inv(s) && GenuineTurn(t) && Listed(ListOf(s, c), Server(n))
    ensures Listed(ListOf(FlushOne(s, e, t), c), Server(n))
  {
    var items := if c == e.conversation then Without(ListOf(s, c), Local(e.localId)) else ListOf(s, c);
    var r := ListOf(FlushOne(s, e, t), c);
    var i :| 0 <= i < |ListOf(s, c)| && ListOf(s, c)[i].id == Server(n);
    FilterIn((m: Item) => m.id != Local(e.localId), ListOf(s, c), ListOf(s, c)[i]);
    FlushOneShows(s, e, t, c);
    InListed(items, Server(n));
    if c == e.conversation && Ready(s, c) { ArrivesShown(items, r, Outcoming(s, ContentOf(e), t)); }
    InListed(r, Server(n));
  }

  lemma {:induction false} FlushCarries(s: Store, entries: seq<Entry>, turns: seq<Turn>, c: nat)
    requires Inv(s) && |entries| == |turns| && GenuineTurns(turns)
    ensures Filter((m: Item) => Spared(m, c, entries), ListOf(s, c)) <= ListOf(Flush(s, entries, turns), c)
  {
    var items, keep := ListOf(s, c), (m: Item) => Spared(m, c, entries);
    if entries == [] {
      FilterAll(keep, items);
    } else {
      var front, e, before := Front(entries), Last(entries), Flush(s, Front(entries), Front(turns));
      var keepFront := (m: Item) => Spared(m, c, front);
      var also := (m: Item) => c == e.conversation ==> m.id != Local(e.localId);
      FlushCarries(s, front, Front(turns), c);
      FlushKeeps(s, front, Front(turns));
      assert GenuineTurn(turns[|turns| - 1]);
      forall m
        ensures keep(m) == (keepFront(m) && also(m))
      {
        SparedNext(m, c, entries);
      }
      FilterBoth(keepFront, also, keep, items);
      FilterPrefix(also, Filter(keepFront, items), ListOf(before, c));
      FlushOneShows(before, e, Last(turns), c);
      if c == e.conversation {
        FilterAlike(also, (m: Item) => m.id != Local(e.localId), ListOf(before, c));
        if Ready(before, c) {
          ArrivesShown(Without(ListOf(before, c), Local(e.localId)), ListOf(FlushOne(before, e, Last(turns)), c),
                       Outcoming(before, ContentOf(e), Last(turns)));
        }
      } else {
        FilterAll(also, ListOf(before, c));
      }
    }
  }

  lemma SparedNext(m: Item, c: nat, entries: seq<Entry>)
    requires entries != []
    ensures var e := Last(entries);
            Spared(m, c, entries) <==>
              Spared(m, c, Front(entries)) && (c == e.conversation ==> m.id != Local(e.localId))
  {
    assert entries[|entries| - 1] == Last(entries);
    assert forall i :: 0 <= i < |Front(entries)| ==> Front(entries)[i] == entries[i];
  }

  lemma {:induction false} FilterAll(keep: Item -> bool, s: seq<Item>)
    requires forall m :: keep(m)
    ensures Filter(keep, s) == s
  {
    if s != [] {
      FilterAll(keep, Front(s));
      assert s == Front(s) + [Last(s)];
    }
  }

  lemma {:induction false} FilterAlike(keep: Item -> bool, also: Item -> bool, s: seq<Item>)
    requires forall m :: keep(m) == also(m)
    ensures Filter(keep, s) == Filter(also, s)
  {
    if s != [] { FilterAlike(keep, also, Front(s)); }
  }

  lemma {:induction false} FlushUnique(s: Store, entries: seq<Entry>, turns: seq<Turn>)
    requires Inv(s) && AllUnique(s) && |entries| == |turns| && GenuineTurns(turns)
    ensures AllUnique(Flush(s, entries, turns))
  {
    if entries != [] {
      FlushUnique(s, Front(entries), Front(turns));
      FlushKeeps(s, Front(entries), Front(turns));
      assert GenuineTurn(turns[|turns| - 1]);
      FlushOneUnique(Flush(s, Front(entries), Front(turns)), Last(entries), Last(turns));
    }
  }

  lemma {:induction false} FlushLists(s: Store, entries: seq<Entry>, turns: seq<Turn>, k: nat)
    requires Inv(s) && |entries| == |turns| && k < |entries| && GenuineTurns(turns)
    requires Ready(s, entries[k].conversation) && turns[k].outcome.Accepted?
    ensures Listed(ListOf(Flush(s, entries, turns), entries[k].conversation), turns[k].outcome.message.id)
    decreases |entries|
  {
    var front, rest, e, t := Front(entries), Front(turns), Last(entries), Last(turns);
    FlushKeeps(s, front, rest);
    assert GenuineTurn(turns[|turns| - 1]) && GenuineTurn(turns[k]);
    if k < |front| {
      assert front[k] == entries[k] && rest[k] == turns[k];
      FlushLists(s, front, rest, k);
      FlushOneKeepsServer(Flush(s, front, rest), e, t, entries[k].conversation, turns[k].outcome.message.id.n);
    } else {
      FlushOneAccepts(Flush(s, front, rest), e, t);
    }
  }

  /**
    * What the user sees after a pass: every message that was accepted in it is on the list of its
    * conversation, once; every message that no entry stood for keeps its place and its version, before
    * what the pass has added.
    */
  lemma FlushShows(s: Store, entries: seq<Entry>, turns: seq<Turn>, k: nat, c: nat)
    requires Inv(s) && AllUnique(s) && |entries| == |turns| && k < |entries| && GenuineTurns(turns)
    ensures var r := Flush(s, entries, turns);
            && (Ready(s, entries[k].conversation) && turns[k].outcome.Accepted? ==>
                  Listed(ListOf(r, entries[k].conversation), turns[k].outcome.message.id))
            && UniqueIds(ListOf(r, c))
            && Carries(ListOf(s, c), ListOf(r, c), (m: Item) => Spared(m, c, entries))
  {
    FlushUnique(s, entries, turns);
    if Ready(s, entries[k].conversation) && turns[k].outcome.Accepted? { FlushLists(s, entries, turns, k); }
    FlushCarries(s, entries, turns, c);
    FilterKeeps((m: Item) => Spared(m, c, entries), ListOf(s, c));
  }
}
