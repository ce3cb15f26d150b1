/**
  * The message list of one conversation on the mobile client. Socket events and user actions are
  * atomic; a page load is a request, a snapshot taken by the server, and a landing, and any number
  * of them may be under way at once. Before it fetches, a load may show cached messages: it reads
  * them while the list is empty and paints them later. A send shows its message at once under a
  * local id and ends with the reply to its POST or with a failure.
  */
module Timeline {
  import opened Base

  datatype Id = Local(n: nat) | Server(n: nat)

  /** The `sendStatus` of the source; `Sent` where it is absent. */
  datatype Status = Sent | Pending | Failed

  datatype Earlier = Earlier(text: string, editedAt: int)

  datatype Item = Item(
    id: Id, createdAt: int, text: Option<string>, hasMeta: bool, decryptFailed: bool,
    replyTo: Option<nat>, mentions: seq<nat>, deletedAt: Option<int>, locallyKept: bool,
    starred: bool, history: seq<Earlier>, status: Status)

  datatype Load = Newest(page: Option<seq<Item>>) | Older(cursor: int, page: Option<seq<Item>>)

  /** `paints` are the cached messages that have been read and not been shown yet. */
  datatype State = State(
    items: seq<Item>, paints: map<nat, seq<Item>>, loads: map<nat, Load>, hasMore: Option<bool>, nextLocal: nat)

  /**
    * `MessageNew` also stands for the reply to a send without an optimistic copy (media, location,
    * contact, poll, forward), and `MessageDeleted` without retention for a deletion on this device.
    */
  datatype Event =
    | Send(createdAt: int, text: string, replyTo: Option<nat>, mentions: seq<nat>)
    | PostReply(local: nat, message: Item)
    | PostFailed(local: nat)
    | MessageNew(message: Item)
    | MessageDeleted(message: Item, keepDeleted: bool, at: int)
    | MessageEdited(message: Item, keepHistory: bool, at: int)
    | EditedHere(message: Item)
    | ReadCached(load: nat, cached: seq<Item>)
    | Paint(load: nat)
    | RequestNewest(load: nat)
    | RequestOlder(load: nat)
    | Snapshot(load: nat, page: seq<Item>)
    | Land(load: nat)
    | LoadFailed(load: nat)
    | Discard(local: nat)
    | Hide(id: Id)
    | ClearHistory
    | ClearOlderThan(cutoff: int)
    | DropConversation

  const PAGE_SIZE: nat := 30

  function Map<T>(f: T -> T, s: seq<T>): seq<T> {
    seq(|s|, i requires 0 <= i < |s| => f(s[i]))
  }

  predicate Listed(items: seq<Item>, id: Id) {
    exists i :: 0 <= i < |items| && items[i].id == id
  }

  function Without(items: seq<Item>, id: Id): seq<Item> {
    Filter((m: Item) => m.id != id, items)
  }

  function Unconfirmed(items: seq<Item>): seq<Item> {
    Filter((m: Item) => m.status != Sent, items)
  }

  function Optimistic(local: nat, createdAt: int, text: string, replyTo: Option<nat>, mentions: seq<nat>): Item {
    Item(Local(local), createdAt, Some(text), false, false, replyTo, mentions, None, false, false, [], Pending)
  }

  function AppendNew(items: seq<Item>, m: Item): seq<Item> {
    if Listed(items, m.id) then items else items + [m]
  }

  function MarkFailed(items: seq<Item>, local: nat): seq<Item> {
    Map((m: Item) => if m.id == Local(local) then m.(status := Failed) else m, items)
  }

  function Tombstone(m: Item, message: Item, keepDeleted: bool, at: int): Item {
    if keepDeleted && !m.decryptFailed && ((m.text.Some? && m.text.value != "") || m.hasMeta)
    then m.(deletedAt := Some(at), locallyKept := true)
    else message.(text := None, hasMeta := false, decryptFailed := false,
                  locallyKept := m.locallyKept, history := m.history, status := m.status)
  }

  function Edit(m: Item, message: Item, keepHistory: bool, at: int): Item {
    message.(starred := m.starred,
             history := if keepHistory && m.text.Some? && m.text != message.text
                        then m.history + [Earlier(m.text.value, at)] else m.history)
  }

  /** The events that change one listed message in place; an edit on this device puts in the bare server copy. */
  predicate Changes(e: Event) {
    e.MessageDeleted? || e.MessageEdited? || e.EditedHere?
  }

  function Apply(m: Item, e: Event): Item
    requires Changes(e)
  {
    if m.id != e.message.id then m else
      match e
      case MessageDeleted(message, keepDeleted, at) => Tombstone(m, message, keepDeleted, at)
      case MessageEdited(message, keepHistory, at) => Edit(m, message, keepHistory, at)
      case EditedHere(message) => message
  }

  /** A page that has been fetched replaces the list, or goes in front of it. */
  function Landed(s: State, load: Load): State
    requires load.page.Some?
  {
    var page := load.page.value;
    match load
    case Newest(_) => s.(items := page + Unconfirmed(s.items), hasMore := Some(|page| == PAGE_SIZE))
    case Older(_, _) => s.(items := page + s.items, hasMore := Some(|page| == PAGE_SIZE))
  }

  function Step(s: State, e: Event): State {
    match e
    case Send(createdAt, text, replyTo, mentions) =>
      s.(items := s.items + [Optimistic(s.nextLocal, createdAt, text, replyTo, mentions)], nextLocal := s.nextLocal + 1)
    case PostReply(l, m) => s.(items := AppendNew(Without(s.items, Local(l)), m))
    case PostFailed(l) => s.(items := MarkFailed(s.items, l))
    case MessageNew(m) => s.(items := AppendNew(s.items, m))
    case MessageDeleted(_, _, _) => s.(items := Map(m => Apply(m, e), s.items))
    case MessageEdited(_, _, _) => s.(items := Map(m => Apply(m, e), s.items))
    case EditedHere(_) => s.(items := Map(m => Apply(m, e), s.items))
    case ReadCached(k, cached) =>
      if s.items == [] && cached != [] then s.(paints := s.paints[k := cached]) else s
    case Paint(k) => if k in s.paints then s.(items := s.paints[k], paints := s.paints - {k}) else s
    case RequestNewest(k) => s.(loads := s.loads[k := Newest(None)])
    case RequestOlder(k) =>
      if s.hasMore == Some(false) || s.items == [] then s
      else s.(loads := s.loads[k := Older(s.items[0].createdAt, None)])
    case Snapshot(k, page) =>
      if k in s.loads && s.loads[k].page.None? then s.(loads := s.loads[k := s.loads[k].(page := Some(page))]) else s
    case Land(k) =>
      if k in s.loads && s.loads[k].page.Some?
      then Landed(s, s.loads[k]).(loads := s.loads - {k}) else s
    case LoadFailed(k) => s.(loads := s.loads - {k})
    case Discard(l) => s.(items := Without(s.items, Local(l)))
    case Hide(id) => s.(items := Without(s.items, id))
    case ClearHistory => s.(items := [], hasMore := Some(false))
    case ClearOlderThan(cutoff) => s.(items := Filter((m: Item) => m.createdAt >= cutoff, s.items))
    case DropConversation => s.(items := [], hasMore := None)
  }

  function Run(es: seq<Event>): State {
    if es == [] then State([], map[], map[], None, 0) else Step(Run(Front(es)), Last(es))
  }

  // ---- Well-formed runs ----

  predicate UniqueIds(items: seq<Item>) {
    forall i, j :: 0 <= i < j < |items| ==> items[i].id != items[j].id
  }

  /** A message as the server sends it. */
  predicate FromServer(m: Item) {
    m.id.Server? && m.status == Sent
  }

  predicate Page(items: seq<Item>) {
    UniqueIds(items) && forall i :: 0 <= i < |items| ==> FromServer(items[i])
  }

  /** Events carry server messages, pages and cached lists name a message once, replies follow sends. */
  predicate WellFormed(s: State, e: Event) {
    match e
    case PostReply(l, m) => l < s.nextLocal && FromServer(m)
    case MessageNew(m) => FromServer(m)
    case MessageDeleted(m, _, _) => FromServer(m)
    case MessageEdited(m, _, _) => FromServer(m)
    case EditedHere(m) => FromServer(m) && m.history == []
    case ReadCached(_, cached) => Page(cached)
    case Snapshot(_, page) => Page(page)
    case _ => true
  }

  ghost predicate WellFormedRun(es: seq<Event>) {
    es != [] ==> WellFormedRun(Front(es)) && WellFormed(Run(Front(es)), Last(es))
  }

  /** Exactly the messages of this device that the server has not confirmed sit under local ids. */
  predicate Shape(s: State) {
    && (forall i :: 0 <= i < |s.items| ==>
          && (s.items[i].status == Sent <==> s.items[i].id.Server?)
          && (s.items[i].id.Local? ==> s.items[i].id.n < s.nextLocal))
    && (forall k :: k in s.paints ==> Page(s.paints[k]))
    && forall k :: k in s.loads && s.loads[k].page.Some? ==> Page(s.loads[k].page.value)
  }

  // ---- Filtering ----

  lemma {:induction false} FilterUnique(keep: Item -> bool, s: seq<Item>)
    requires UniqueIds(s)
    ensures UniqueIds(Filter(keep, s))
  {
    if s != [] {
      FilterUnique(keep, Front(s));
      var r := Filter(keep, Front(s));
      forall i | 0 <= i < |r|
        ensures r[i].id != Last(s).id
      {
        FilterIn(keep, Front(s), r[i]);
      }
    }
  }

  lemma FilterShape(keep: Item -> bool, s: State)
    requires Shape(s)
    ensures Shape(s.(items := Filter(keep, s.items)))
  {
    var r := Filter(keep, s.items);
    forall i | 0 <= i < |r|
      ensures r[i] in s.items
    {
      FilterIn(keep, s.items, r[i]);
    }
  }

  lemma UnconfirmedAreLocal(s: State)
    requires Shape(s)
    ensures forall i :: 0 <= i < |Unconfirmed(s.items)| ==> Unconfirmed(s.items)[i].id.Local?
  {
    var r := Unconfirmed(s.items);
    forall i | 0 <= i < |r|
      ensures r[i].id.Local?
    {
      FilterIn((m: Item) => m.status != Sent, s.items, r[i]);
    }
  }

  lemma NotListedWithout(items: seq<Item>, id: Id)
    ensures !Listed(Without(items, id), id)
  {
    if Listed(Without(items, id), id) {
      var i :| 0 <= i < |Without(items, id)| && Without(items, id)[i].id == id;
      FilterIn((m: Item) => m.id != id, items, Without(items, id)[i]);
    }
  }

  lemma {:induction false} StepShape(s: State, e: Event)
    requires Shape(s) && WellFormed(s, e)
    ensures Shape(Step(s, e))
  {
    match e
    case PostReply(l, m) => FilterShape((m: Item) => m.id != Local(l), s);
    case Discard(l) => FilterShape((m: Item) => m.id != Local(l), s);
    case Hide(id) => FilterShape((m: Item) => m.id != id, s);
    case ClearOlderThan(cutoff) => FilterShape((m: Item) => m.createdAt >= cutoff, s);
    case Land(k) => FilterShape((m: Item) => m.status != Sent, s);
    case _ =>
  }

  lemma {:induction false} RunShape(es: seq<Event>)
    requires WellFormedRun(es)
    ensures Shape(Run(es))
  {
    if es != [] {
      RunShape(Front(es));
      StepShape(Run(Front(es)), Last(es));
    }
  }

  // ---- No message is listed twice ----

  ghost predicate Disjoint(a: seq<Item>, b: seq<Item>) {
    forall i, j :: 0 <= i < |a| && 0 <= j < |b| ==> a[i].id != b[j].id
  }

  /** An older page that lands lists nothing that is already shown. */
  ghost predicate LandsClear(s: State, e: Event) {
    e.Land? && e.load in s.loads && s.loads[e.load].Older? && s.loads[e.load].page.Some? ==>
      Disjoint(s.loads[e.load].page.value, s.items)
  }

  lemma UniqueAppend(a: seq<Item>, b: seq<Item>)
    requires UniqueIds(a) && UniqueIds(b)
    ensures UniqueIds(a + b) <==> Disjoint(a, b)
  {
    if UniqueIds(a + b) {
      forall i, j | 0 <= i < |a| && 0 <= j < |b|
        ensures a[i].id != b[j].id
      {
        assert (a + b)[i].id != (a + b)[|a| + j].id;
      }
    }
  }

  lemma AppendNewUnique(items: seq<Item>, m: Item)
    requires UniqueIds(items)
    ensures UniqueIds(AppendNew(items, m))
  {
  }

  /** The landing of an older page is the only step that can list a message twice. */
  lemma UniqueStep(s: State, e: Event)
    requires Shape(s) && WellFormed(s, e) && UniqueIds(s.items)
    ensures UniqueIds(Step(s, e).items) <==> LandsClear(s, e)
  {
    match e
    case PostReply(l, m) =>
      FilterUnique((m: Item) => m.id != Local(l), s.items);
      AppendNewUnique(Without(s.items, Local(l)), m);
    case Discard(l) => FilterUnique((m: Item) => m.id != Local(l), s.items);
    case Hide(id) => FilterUnique((m: Item) => m.id != id, s.items);
    case ClearOlderThan(cutoff) => FilterUnique((m: Item) => m.createdAt >= cutoff, s.items);
    case Land(k) =>
      if k in s.loads && s.loads[k].page.Some? {
        var page := s.loads[k].page.value;
        FilterUnique((m: Item) => m.status != Sent, s.items);
        UnconfirmedAreLocal(s);
        UniqueAppend(page, Unconfirmed(s.items));
        UniqueAppend(page, s.items);
      }
    case _ =>
  }

  ghost predicate UniqueThroughout(es: seq<Event>) {
    es != [] ==> UniqueThroughout(Front(es)) && UniqueIds(Run(es).items)
  }

  ghost predicate AlwaysLandsClear(es: seq<Event>) {
    es != [] ==> AlwaysLandsClear(Front(es)) && LandsClear(Run(Front(es)), Last(es))
  }

  /**
    * In every interleaving of sends, replies, socket events, page loads and removals, message ids
    * stay unique throughout exactly if every older page, as it lands, holds nothing already listed.
    */
  lemma {:induction false} UniqueExactly(es: seq<Event>)
    requires WellFormedRun(es)
    ensures UniqueThroughout(es) <==> AlwaysLandsClear(es)
    ensures UniqueThroughout(es) ==> UniqueIds(Run(es).items)
  {
    if es != [] {
      UniqueExactly(Front(es));
      RunShape(Front(es));
      if UniqueThroughout(Front(es)) {
        UniqueStep(Run(Front(es)), Last(es));
      }
    }
  }

  // ---- When older pages land clear ----

  /** The server messages an event may put on the list. */
  function Joining(s: State, e: Event): seq<Item> {
    match e
    case PostReply(_, m) => [m]
    case MessageNew(m) => [m]
    case Paint(k) => if k in s.paints then s.paints[k] else []
    case Land(k) => if k in s.loads && s.loads[k].page.Some? then s.loads[k].page.value else []
    case _ => []
  }

  ghost predicate NoneBefore(items: seq<Item>, cursor: int) {
    forall i :: 0 <= i < |items| && items[i].status == Sent ==> items[i].createdAt >= cursor
  }

  /** Every version of a server message carries the time it was created at. */
  ghost predicate Born(items: seq<Item>, born: map<nat, int>) {
    forall i :: 0 <= i < |items| && items[i].status == Sent ==>
      items[i].id.n in born && born[items[i].id.n] == items[i].createdAt
  }

  /**
    * What a client can see to: ask for older messages only when the first listed message is the
    * oldest, and let nothing older than the cursor join while the older page is on its way. The
    * server answers with messages created strictly before the cursor.
    */
  ghost predicate Orderly(s: State, e: Event) {
    && (e.RequestOlder? && s.items != [] ==> NoneBefore(s.items, s.items[0].createdAt))
    && (forall k :: k in s.loads && s.loads[k].Older? && !(e.Land? && e.load == k) ==>
          NoneBefore(Joining(s, e), s.loads[k].cursor))
    && (e.Snapshot? && e.load in s.loads && s.loads[e.load].Older? ==>
          forall i :: 0 <= i < |e.page| ==> e.page[i].createdAt < s.loads[e.load].cursor)
  }

  ghost predicate Truthful(s: State, e: Event, born: map<nat, int>) {
    && Born(Joining(s, e), born)
    && (e.Snapshot? ==> Born(e.page, born))
    && (e.ReadCached? ==> Born(e.cached, born))
    && (Changes(e) ==> Born([e.message], born))
  }

  ghost predicate OrderlyRun(es: seq<Event>, born: map<nat, int>) {
    es != [] ==>
      && OrderlyRun(Front(es), born)
      && Orderly(Run(Front(es)), Last(es)) && Truthful(Run(Front(es)), Last(es), born)
  }

  /** Older pages under way lie before their cursor, and the list does not. */
  ghost predicate Apart(s: State) {
    forall k :: k in s.loads && s.loads[k].Older? ==>
      && NoneBefore(s.items, s.loads[k].cursor)
      && (s.loads[k].page.Some? ==>
            forall i :: 0 <= i < |s.loads[k].page.value| ==> s.loads[k].page.value[i].createdAt < s.loads[k].cursor)
  }

  ghost predicate AllBorn(s: State, born: map<nat, int>) {
    && Born(s.items, born)
    && (forall k :: k in s.paints ==> Born(s.paints[k], born))
    && forall k :: k in s.loads && s.loads[k].page.Some? ==> Born(s.loads[k].page.value, born)
  }

  /** Every listed server message was listed before under the same id and time, or joins. */
  lemma {:induction false} ListedBefore(s: State, e: Event, m: Item, born: map<nat, int>)
    requires Shape(s) && WellFormed(s, e) && AllBorn(s, born) && Truthful(s, e, born)
    requires m in Step(s, e).items && m.status == Sent
    ensures || m in Joining(s, e)
            || exists p :: p in s.items && p.status == Sent && p.id == m.id && p.createdAt == m.createdAt
  {
    match e
    case PostReply(l, n) => FilterIn((m: Item) => m.id != Local(l), s.items, m);
    case Discard(l) => FilterIn((m: Item) => m.id != Local(l), s.items, m);
    case Hide(id) => FilterIn((m: Item) => m.id != id, s.items, m);
    case ClearOlderThan(cutoff) => FilterIn((m: Item) => m.createdAt >= cutoff, s.items, m);
    case Land(k) => FilterIn((m: Item) => m.status != Sent, s.items, m);
    case PostFailed(l) =>
      var i :| 0 <= i < |s.items| && Step(s, e).items[i] == m;
      assert s.items[i] in s.items;
    case MessageDeleted(n, _, _) => EditedBefore(s, e, m, born);
    case MessageEdited(n, _, _) => EditedBefore(s, e, m, born);
    case EditedHere(_) => EditedBefore(s, e, m, born);
    case _ =>
  }

  lemma EditedBefore(s: State, e: Event, m: Item, born: map<nat, int>)
    requires Shape(s) && WellFormed(s, e) && AllBorn(s, born) && Truthful(s, e, born)
    requires Changes(e)
    requires m in Step(s, e).items && m.status == Sent
    ensures exists p :: p in s.items && p.status == Sent && p.id == m.id && p.createdAt == m.createdAt
  {
    var i :| 0 <= i < |s.items| && Step(s, e).items[i] == m;
    assert s.items[i] in s.items;
    assert [e.message][0] == e.message;
  }

  /** A listed server message after a step has its time of creation and is not older than any cursor. */
  lemma ApartItem(s: State, e: Event, m: Item, born: map<nat, int>)
    requires Shape(s) && WellFormed(s, e) && Apart(s) && AllBorn(s, born)
    requires Orderly(s, e) && Truthful(s, e, born)
    requires m in Step(s, e).items && m.status == Sent
    ensures m.id.n in born && born[m.id.n] == m.createdAt
    ensures forall k :: k in s.loads && s.loads[k].Older? && k in Step(s, e).loads ==> m.createdAt >= s.loads[k].cursor
  {
    ListedBefore(s, e, m, born);
  }

  /** An older load was under way before with the same cursor, or is requested now. */
  lemma LoadBefore(s: State, e: Event, k: nat, born: map<nat, int>)
    requires Shape(s) && WellFormed(s, e) && Apart(s) && AllBorn(s, born)
    requires Orderly(s, e) && Truthful(s, e, born)
    requires k in Step(s, e).loads
    ensures var load := Step(s, e).loads[k];
            && (load.Older? ==>
                  || (k in s.loads && s.loads[k].Older? && s.loads[k].cursor == load.cursor)
                  || (load.page.None? && Step(s, e).items == s.items && NoneBefore(s.items, load.cursor)))
            && (load.Older? && load.page.Some? ==>
                  forall i :: 0 <= i < |load.page.value| ==> load.page.value[i].createdAt < load.cursor)
            && (load.page.Some? ==> Born(load.page.value, born))
  {
  }

  lemma ApartStep(s: State, e: Event, born: map<nat, int>)
    requires Shape(s) && WellFormed(s, e) && Apart(s) && AllBorn(s, born)
    requires Orderly(s, e) && Truthful(s, e, born)
    ensures Apart(Step(s, e)) && AllBorn(Step(s, e), born)
  {
    var t := Step(s, e);
    forall i | 0 <= i < |t.items| && t.items[i].status == Sent
      ensures t.items[i].id.Server? && t.items[i].id.n in born && born[t.items[i].id.n] == t.items[i].createdAt
      ensures forall k :: k in s.loads && s.loads[k].Older? && k in t.loads ==>
                t.items[i].createdAt >= s.loads[k].cursor
    {
      StepShape(s, e);
      ApartItem(s, e, t.items[i], born);
    }
    forall k | k in t.loads
      ensures t.loads[k].Older? ==> NoneBefore(t.items, t.loads[k].cursor)
    {
      LoadBefore(s, e, k, born);
    }
    forall k | k in t.loads
      ensures t.loads[k].page.Some? ==> Born(t.loads[k].page.value, born)
      ensures t.loads[k].Older? && t.loads[k].page.Some? ==>
                forall i :: 0 <= i < |t.loads[k].page.value| ==> t.loads[k].page.value[i].createdAt < t.loads[k].cursor
    {
      LoadBefore(s, e, k, born);
    }
  }

  lemma ApartLandsClear(s: State, e: Event, born: map<nat, int>)
    requires Shape(s) && Apart(s) && AllBorn(s, born)
    ensures LandsClear(s, e)
  {
  }

  lemma {:induction false} OrderlyApart(es: seq<Event>, born: map<nat, int>)
    requires WellFormedRun(es) && OrderlyRun(es, born)
    ensures Apart(Run(es)) && AllBorn(Run(es), born)
    ensures AlwaysLandsClear(es)
  {
    if es != [] {
      OrderlyApart(Front(es), born);
      RunShape(Front(es));
      ApartStep(Run(Front(es)), Last(es), born);
      ApartLandsClear(Run(Front(es)), Last(es), born);
    }
  }

  /** Orderly clients never list a message twice. */
  lemma OrderlyIsUnique(es: seq<Event>, born: map<nat, int>)
    requires WellFormedRun(es) && OrderlyRun(es, born)
    ensures UniqueThroughout(es) && UniqueIds(Run(es).items)
  {
    OrderlyApart(es, born);
    UniqueExactly(es);
  }

  // ---- Unsent messages ----

  /** The ways an unsent message may go: its own success, being discarded or hidden, or its history being removed. */
  predicate Removes(e: Event, m: Item) {
    match e
    case PostReply(l, _) => m.id == Local(l)
    case Discard(l) => m.id == Local(l)
    case Hide(id) => m.id == id
    case ClearHistory => true
    case ClearOlderThan(cutoff) => m.createdAt < cutoff
    case DropConversation => true
    case _ => false
  }

  /** The same unsent message, whatever became of its send. */
  predicate SameUnsent(a: Item, b: Item) {
    a == b.(status := a.status) && a.status != Sent
  }

  predicate Holds(items: seq<Item>, m: Item) {
    exists i :: 0 <= i < |items| && SameUnsent(items[i], m)
  }

  lemma KeptByFilter(keep: Item -> bool, items: seq<Item>, m: Item, i: nat)
    requires i < |items| && SameUnsent(items[i], m) && keep(items[i])
    ensures Holds(Filter(keep, items), m)
  {
    FilterIn(keep, items, items[i]);
    var j :| 0 <= j < |Filter(keep, items)| && Filter(keep, items)[j] == items[i];
  }

  lemma GoneByFilter(keep: Item -> bool, items: seq<Item>, id: Id)
    requires forall i :: 0 <= i < |items| && items[i].id == id ==> !keep(items[i])
    ensures !Listed(Filter(keep, items), id)
  {
    if Listed(Filter(keep, items), id) {
      var i :| 0 <= i < |Filter(keep, items)| && Filter(keep, items)[i].id == id;
      FilterIn(keep, items, Filter(keep, items)[i]);
    }
  }

  lemma HoldsAppend(a: seq<Item>, b: seq<Item>, m: Item)
    requires Holds(a, m) || Holds(b, m)
    ensures Holds(a + b, m)
  {
    if Holds(a, m) {
      var i :| 0 <= i < |a| && SameUnsent(a[i], m);
      assert SameUnsent((a + b)[i], m);
    } else {
      var i :| 0 <= i < |b| && SameUnsent(b[i], m);
      assert SameUnsent((a + b)[|a| + i], m);
    }
  }

  lemma HoldsMapped(f: Item -> Item, items: seq<Item>, m: Item, i: nat)
    requires i < |items| && SameUnsent(items[i], m) && SameUnsent(f(items[i]), m)
    ensures Holds(Map(f, items), m)
  {
    assert Map(f, items)[i] == f(items[i]);
  }

  /** Cached messages are painted over a list that is no longer empty. */
  predicate Overpaints(s: State, e: Event) {
    e.Paint? && e.load in s.paints && s.items != []
  }

  lemma UnsentKept(s: State, e: Event, m: Item, i: nat)
    requires Shape(s) && WellFormed(s, e)
    requires i < |s.items| && SameUnsent(s.items[i], m) && !Removes(e, m) && !Overpaints(s, e)
    ensures Holds(Step(s, e).items, m)
  {
    match e
    case PostReply(l, n) =>
      KeptByFilter((m: Item) => m.id != Local(l), s.items, m, i);
      if !Listed(Without(s.items, Local(l)), n.id) { HoldsAppend(Without(s.items, Local(l)), [n], m); }
    case PostFailed(l) =>
      HoldsMapped((m: Item) => if m.id == Local(l) then m.(status := Failed) else m, s.items, m, i);
    case MessageDeleted(_, _, _) => HoldsMapped(x => Apply(x, e), s.items, m, i);
    case MessageEdited(_, _, _) => HoldsMapped(x => Apply(x, e), s.items, m, i);
    case EditedHere(_) => HoldsMapped(x => Apply(x, e), s.items, m, i);
    case Discard(l) => KeptByFilter((m: Item) => m.id != Local(l), s.items, m, i);
    case Hide(id) => KeptByFilter((m: Item) => m.id != id, s.items, m, i);
    case ClearOlderThan(cutoff) => KeptByFilter((m: Item) => m.createdAt >= cutoff, s.items, m, i);
    case Land(k) => LandKeepsUnsent(s, k, m, i);
    case Send(c, t, r, ms) => HoldsAppend(s.items, [Optimistic(s.nextLocal, c, t, r, ms)], m);
    case MessageNew(n) => HoldsAppend(s.items, [n], m);
    case _ =>
  }

  /**
    * One step without a removal keeps an unsent message with its text, reply target and mentions
    * exactly if it does not paint cached messages over it.
    */
  lemma UnsentStep(s: State, e: Event, m: Item)
    requires Shape(s) && WellFormed(s, e) && Holds(s.items, m) && !Removes(e, m)
    ensures Holds(Step(s, e).items, m) <==> !Overpaints(s, e)
    ensures Overpaints(s, e) ==> !Listed(Step(s, e).items, m.id)
  {
    var i :| 0 <= i < |s.items| && SameUnsent(s.items[i], m);
    if !Overpaints(s, e) {
      UnsentKept(s, e, m, i);
    } else {
      NotOnPage(s.paints[e.load], m.id);
    }
  }

  lemma NotOnPage(page: seq<Item>, id: Id)
    requires Page(page) && id.Local?
    ensures !Listed(page, id)
    ensures forall m: Item :: m.id == id ==> !Holds(page, m)
  {
  }

  /** A local id that is gone from the list never comes back. */
  lemma GoneStep(s: State, e: Event, id: Id)
    requires Shape(s) && WellFormed(s, e) && id.Local? && id.n < s.nextLocal
    requires !Listed(s.items, id)
    ensures !Listed(Step(s, e).items, id)
  {
    match e
    case PostReply(l, n) =>
      GoneByFilter((m: Item) => m.id != Local(l), s.items, id);
      NotListedAppendNew(Without(s.items, Local(l)), n, id);
    case MessageNew(n) => NotListedAppendNew(s.items, n, id);
    case Discard(l) => GoneByFilter((m: Item) => m.id != Local(l), s.items, id);
    case Hide(h) => GoneByFilter((m: Item) => m.id != h, s.items, id);
    case ClearOlderThan(cutoff) => GoneByFilter((m: Item) => m.createdAt >= cutoff, s.items, id);
    case Land(k) =>
      if k in s.loads && s.loads[k].page.Some? {
        NotOnPage(s.loads[k].page.value, id);
        GoneByFilter((m: Item) => m.status != Sent, s.items, id);
      }
    case Paint(k) => if k in s.paints { NotOnPage(s.paints[k], id); }
    case _ =>
  }

  lemma LandKeepsUnsent(s: State, k: nat, m: Item, i: nat)
    requires i < |s.items| && SameUnsent(s.items[i], m)
    ensures Holds(Step(s, Land(k)).items, m)
  {
    if k in s.loads && s.loads[k].page.Some? {
      KeptByFilter((m: Item) => m.status != Sent, s.items, m, i);
      HoldsAppend(s.loads[k].page.value, Unconfirmed(s.items), m);
      HoldsAppend(s.loads[k].page.value, s.items, m);
    }
  }

  /** And each of those steps does remove it. */
  lemma RemovedStep(s: State, e: Event, m: Item)
    requires Shape(s) && WellFormed(s, e) && UniqueIds(s.items)
    requires Holds(s.items, m) && m.status != Sent && Removes(e, m)
    ensures !Listed(Step(s, e).items, m.id)
  {
    var i :| 0 <= i < |s.items| && SameUnsent(s.items[i], m);
    match e
    case PostReply(l, n) => NotListedWithout(s.items, Local(l)); assert n.id != m.id;
    case Discard(l) => NotListedWithout(s.items, Local(l));
    case Hide(id) => NotListedWithout(s.items, id);
    case ClearOlderThan(cutoff) => GoneByFilter((m: Item) => m.createdAt >= cutoff, s.items, m.id);
    case ClearHistory =>
    case DropConversation =>
  }

  /** No event after the run `before` paints over a list that stopped being empty. */
  ghost predicate NeverOverpaints(before: seq<Event>, after: seq<Event>) {
    after != [] ==>
      NeverOverpaints(before, Front(after)) && !Overpaints(Run(before + Front(after)), Last(after))
  }

  /**
    * Over every run without one of its own removals, a pending or failed message stays on the list
    * with everything the user wrote, if and only if no cached messages that were read while the list
    * was empty are painted over it. Once painted over, it never comes back.
    */
  lemma {:induction false} UnsentStays(before: seq<Event>, after: seq<Event>, m: Item)
    requires WellFormedRun(before + after)
    requires Holds(Run(before).items, m)
    requires forall i :: 0 <= i < |after| ==> !Removes(after[i], m)
    ensures Holds(Run(before + after).items, m) <==> NeverOverpaints(before, after)
    ensures !NeverOverpaints(before, after) ==> !Listed(Run(before + after).items, m.id)
    ensures m.id.Local? && m.id.n < Run(before + after).nextLocal
    decreases |after|
  {
    RunShape(before + after);
    if after == [] {
      assert before + after == before;
    } else {
      var front, e := Front(after), Last(after);
      assert Front(before + after) == before + front && Last(before + after) == e;
      UnsentStays(before, front, m);
      RunShape(before + front);
      assert after[|after| - 1] == e;
      if NeverOverpaints(before, front) {
        UnsentStep(Run(before + front), e, m);
      } else {
        GoneStep(Run(before + front), e, m.id);
        NotHeld(Run(before + after).items, m);
      }
    }
  }

  lemma NotHeld(items: seq<Item>, m: Item)
    requires !Listed(items, m.id)
    ensures !Holds(items, m)
  {
  }

  /** A message that is on the list while no read cached messages wait to be painted is safe from them. */
  lemma {:induction false} SafeWithoutPendingPaint(before: seq<Event>, after: seq<Event>, m: Item)
    requires WellFormedRun(before + after)
    requires Holds(Run(before).items, m) && Run(before).paints == map[]
    requires forall i :: 0 <= i < |after| ==> !Removes(after[i], m)
    ensures Holds(Run(before + after).items, m) && Run(before + after).paints == map[]
    decreases |after|
  {
    if after == [] {
      assert before + after == before;
    } else {
      var front, e := Front(after), Last(after);
      assert Front(before + after) == before + front && Last(before + after) == e;
      SafeWithoutPendingPaint(before, front, m);
      RunShape(before + front);
      assert after[|after| - 1] == e;
      UnsentStep(Run(before + front), e, m);
    }
  }

  /** The loss can happen: the first load of a conversation reads its cache, the user sends, the cache is painted. */
  lemma PaintLosesUnsent(a: nat, text: string)
    ensures var es := [ReadCached(0, [Plain(a, 1)]), Send(2, text, None, []), Paint(0)];
            var m := Optimistic(0, 2, text, None, []);
            && WellFormedRun(es)
            && Holds(Run(es[..2]).items, m) && !Removes(es[2], m)
            && Run(es).items == [Plain(a, 1)] && !Listed(Run(es).items, m.id)
  {
    var e0, e1, e2 := ReadCached(0, [Plain(a, 1)]), Send(2, text, None, []), Paint(0);
    var r0: seq<Event> := [];
    RunNext(r0, e0);
    RunNext(r0 + [e0], e1);
    RunNext(r0 + [e0] + [e1], e2);
    assert r0 + [e0] + [e1] + [e2] == [e0, e1, e2];
    assert [e0, e1, e2][..2] == r0 + [e0] + [e1];
    var sent := Run(r0 + [e0] + [e1]);
    assert sent.items == [Optimistic(0, 2, text, None, [])];
    assert SameUnsent(sent.items[0], Optimistic(0, 2, text, None, []));
  }

  /** A send that succeeds leaves exactly the server's copy: the local one is gone, the copy is there once. */
  lemma SendSucceeds(s: State, l: nat, m: Item)
    requires Shape(s) && UniqueIds(s.items) && WellFormed(s, PostReply(l, m))
    ensures var t := Step(s, PostReply(l, m)).items;
            !Listed(t, Local(l)) && Listed(t, m.id) && UniqueIds(t)
  {
    NotListedWithout(s.items, Local(l));
    UniqueStep(s, PostReply(l, m));
    var w := Without(s.items, Local(l));
    if !Listed(w, m.id) { assert (w + [m])[|w|] == m; }
  }

  // ---- Replayed events, edits and deletions ----

  lemma {:induction false} WithoutAbsent(items: seq<Item>, id: Id)
    requires !Listed(items, id)
    ensures Without(items, id) == items
  {
    if items != [] {
      assert items == Front(items) + [Last(items)];
      forall i | 0 <= i < |Front(items)|
        ensures Front(items)[i].id != id
      {
        assert items[i].id != id;
      }
      assert items[|items| - 1].id != id;
      WithoutAbsent(Front(items), id);
    }
  }

  lemma NotListedAppendNew(items: seq<Item>, m: Item, id: Id)
    requires !Listed(items, id) && m.id != id
    ensures !Listed(AppendNew(items, m), id)
  {
  }

  lemma ListedAppendNew(items: seq<Item>, m: Item)
    ensures Listed(AppendNew(items, m), m.id)
  {
    if !Listed(items, m.id) { assert (items + [m])[|items|].id == m.id; }
  }

  /** A socket event or a reply that arrives twice changes the list once. */
  lemma ReplayLeavesList(s: State, e: Event)
    requires WellFormed(s, e)
    requires e.MessageNew? || Changes(e) || e.PostReply? || e.PostFailed?
    ensures Step(Step(s, e), e) == Step(s, e)
  {
    match e
    case MessageNew(m) => ListedAppendNew(s.items, m);
    case PostReply(l, m) =>
      NotListedWithout(s.items, Local(l));
      NotListedAppendNew(Without(s.items, Local(l)), m, Local(l));
      WithoutAbsent(Step(s, e).items, Local(l));
      ListedAppendNew(Without(s.items, Local(l)), m);
    case _ =>
  }

  function Texts(history: seq<Earlier>): seq<string> {
    seq(|history|, i requires 0 <= i < |history| => history[i].text)
  }

  /** Every text a message still shows, the present one last. */
  function Trail(m: Item): seq<string> {
    Texts(m.history) + if m.text.Some? then [m.text.value] else []
  }

  /**
    * When no text is lost: an edit event if the history is on or the text stays, a deletion if the
    * message is kept or showed no text, an edit on this device if no other text was ever shown.
    */
  predicate KeepsTrail(m: Item, e: Event)
    requires Changes(e)
  {
    m.id != e.message.id ||
    match e
    case MessageEdited(n, keepHistory, _) => keepHistory || m.text.None? || m.text == n.text
    case MessageDeleted(_, keepDeleted, _) =>
      m.text.None? || (keepDeleted && !m.decryptFailed && (m.text.value != "" || m.hasMeta))
    case EditedHere(n) => Trail(m) == [] || (n.text.Some? && Trail(m) == [n.text.value])
  }

  predicate KeepsStar(m: Item, e: Event)
    requires Changes(e)
  {
    || m.id != e.message.id || e.MessageEdited? || e.message.starred == m.starred
    || (e.MessageDeleted? && e.keepDeleted && !m.decryptFailed && ((m.text.Some? && m.text.value != "") || m.hasMeta))
  }

  lemma TextsAppend(history: seq<Earlier>, h: Earlier)
    ensures Texts(history + [h]) == Texts(history) + [h.text]
  {
  }

  lemma NoPrefix(a: seq<string>, x: string, b: seq<string>)
    ensures a + [x] <= a + b <==> b != [] && b[0] == x
    ensures a <= a + b
  {
    if b != [] { assert (a + b)[|a|] == b[0] && (a + [x])[|a|] == x; }
  }

  /** One change keeps every text the message showed, and its star, exactly under these conditions. */
  lemma TrailKeptExactly(s: State, m: Item, e: Event)
    requires Changes(e) && WellFormed(s, e)
    ensures Trail(m) <= Trail(Apply(m, e)) <==> KeepsTrail(m, e)
    ensures Apply(m, e).starred == m.starred <==> KeepsStar(m, e)
  {
    var n := Apply(m, e);
    var now := if n.text.Some? then [n.text.value] else [];
    var past := Texts(m.history);
    if m.text.Some? { NoPrefix(past, m.text.value, now); } else { NoPrefix(past, "", now); }
    if e.MessageEdited? && e.keepHistory && m.id == e.message.id && m.text.Some? && m.text != e.message.text {
      TextsAppend(m.history, Earlier(m.text.value, e.at));
      NoPrefix(past + [m.text.value], "", now);
    }
    if e.EditedHere? && m.id == e.message.id && Trail(m) != [] {
      assert Trail(n) == now;
      assert Trail(m) <= now <==> now != [] && Trail(m) == [now[0]];
    }
  }

  /** An edit on this device does lose the text before it: a message arrives and its author edits it here. */
  lemma EditHereLosesText(a: nat)
    ensures var es := [MessageNew(Plain(a, 1)), EditedHere(Plain(a, 1).(text := Some("b")))];
            && WellFormedRun(es)
            && Run(es[..1]).items == [Plain(a, 1)] && Trail(Plain(a, 1)) == ["a"]
            && |Run(es).items| == 1 && Run(es).items[0].id == Server(a) && Trail(Run(es).items[0]) == ["b"]
  {
    var e0, e1 := MessageNew(Plain(a, 1)), EditedHere(Plain(a, 1).(text := Some("b")));
    var r0: seq<Event> := [];
    RunNext(r0, e0);
    RunNext(r0 + [e0], e1);
    assert r0 + [e0] + [e1] == [e0, e1] && [e0, e1][..1] == r0 + [e0];
    assert Run(r0 + [e0]).items == [Plain(a, 1)];
    assert Run(r0 + [e0] + [e1]).items == [Plain(a, 1).(text := Some("b"))];
  }

  function ApplyAll(m: Item, es: seq<Event>): Item
    requires forall i :: 0 <= i < |es| ==> Changes(es[i])
  {
    if es == [] then m else Apply(ApplyAll(m, Front(es)), es[|es| - 1])
  }

  /** A list with a text appended unless it is already the last one. */
  function Extend(trail: seq<string>, text: string): seq<string> {
    if trail != [] && Last(trail) == text then trail else trail + [text]
  }

  function NewText(e: Event): Option<string> {
    if Changes(e) then e.message.text else None
  }

  function Extended(trail: seq<string>, es: seq<Event>): seq<string> {
    if es == [] then trail
    else if NewText(Last(es)).Some? then Extend(Extended(trail, Front(es)), NewText(Last(es)).value)
    else Extended(trail, Front(es))
  }

  /**
    * Edit events alone, with the history on: repeated or not, they leave the full sequence of
    * different texts in order, and the star.
    */
  lemma {:induction false} EditsKeepTrail(m: Item, es: seq<Event>)
    requires m.text.Some?
    requires forall i :: 0 <= i < |es| ==>
               es[i].MessageEdited? && es[i].keepHistory && es[i].message.id == m.id && es[i].message.text.Some?
    ensures var r := ApplyAll(m, es);
            r.id == m.id && r.text.Some? && r.starred == m.starred && Trail(r) == Extended(Trail(m), es)
  {
    if es != [] {
      EditsKeepTrail(m, Front(es));
      var before, after := ApplyAll(m, Front(es)), ApplyAll(m, es);
      if before.text != after.text {
        TextsAppend(before.history, Earlier(before.text.value, es[|es| - 1].at));
      }
    }
  }

  // ---- A list that shows a message twice ----

  function Plain(id: nat, at: int): Item {
    Item(Server(id), at, Some("a"), false, false, None, [], None, false, false, [], Sent)
  }

  /** A late event for a message of an older page, while that page is on its way, duplicates it. */
  lemma LateArrivalDuplicates(s: State, k: nat, m: Item)
    requires k in s.loads && s.loads[k].Older? && s.loads[k].page.Some? && m in s.loads[k].page.value
    ensures !UniqueIds(Step(Step(s, MessageNew(m)), Land(k)).items)
  {
    var page, items := s.loads[k].page.value, AppendNew(s.items, m);
    var i :| 0 <= i < |page| && page[i] == m;
    if !Listed(s.items, m.id) { assert items[|s.items|] == m; }
    var j :| 0 <= j < |items| && items[j].id == m.id;
    assert (page + items)[i].id == (page + items)[|page| + j].id;
  }

  /** Such a page can be under way. */
  lemma OlderPageUnderWay(a: nat, b: nat)
    ensures var es := [MessageNew(Plain(b, 2)), RequestOlder(0), Snapshot(0, [Plain(a, 1)])];
            && WellFormedRun(es)
            && Run(es) == State([Plain(b, 2)], map[], map[0 := Older(2, Some([Plain(a, 1)]))], None, 0)
  {
    var e0, e1, e2 := MessageNew(Plain(b, 2)), RequestOlder(0), Snapshot(0, [Plain(a, 1)]);
    var r0: seq<Event> := [];
    RunNext(r0, e0);
    RunNext(r0 + [e0], e1);
    RunNext(r0 + [e0] + [e1], e2);
    assert r0 + [e0] + [e1] + [e2] == [e0, e1, e2];
  }

  lemma RunNext(es: seq<Event>, e: Event)
    ensures Run(es + [e]) == Step(Run(es), e)
    ensures WellFormedRun(es + [e]) <==> WellFormedRun(es) && WellFormed(Run(es), e)
  {
    assert Front(es + [e]) == es;
  }

  // ---- What each event shows ----

  /** The removals take off the list exactly the messages they name, sent or not, and keep the others in order. */
  lemma RemovesExactly(s: State, e: Event)
    requires e.Discard? || e.Hide? || e.ClearHistory? || e.ClearOlderThan? || e.DropConversation?
    ensures KeptOf(s.items, Step(s, e).items, (m: Item) => !Removes(e, m))
    ensures Step(s, e).paints == s.paints && Step(s, e).loads == s.loads
  {
    match e
    case Discard(l) => FilterKeepsAs(s.items, (m: Item) => m.id != Local(l), (m: Item) => !Removes(e, m));
    case Hide(id) => FilterKeepsAs(s.items, (m: Item) => m.id != id, (m: Item) => !Removes(e, m));
    case ClearOlderThan(cutoff) =>
      FilterKeepsAs(s.items, (m: Item) => m.createdAt >= cutoff, (m: Item) => !Removes(e, m));
    case ClearHistory => assert Picks(s.items, [], (m: Item) => !Removes(e, m), []);
    case DropConversation => assert Picks(s.items, [], (m: Item) => !Removes(e, m), []);
  }

  lemma FilterKeepsAs(items: seq<Item>, keep: Item -> bool, also: Item -> bool)
    requires forall m :: keep(m) == also(m)
    ensures KeptOf(items, Filter(keep, items), also)
  {
    FilterKeeps(keep, items);
    KeptAlike(items, Filter(keep, items), keep, also);
  }

  /** A message arrives: at the end of the list, unless it is on it; nothing else changes. */
  predicate Arrives(items: seq<Item>, after: seq<Item>, m: Item) {
    if Listed(items, m.id) then after == items
    else |after| == |items| + 1 && Last(after) == m && forall i :: 0 <= i < |items| ==> after[i] == items[i]
  }

  /** A reply to a send: the copy under the local id goes, and the server's message arrives. */
  ghost predicate Replaces(items: seq<Item>, after: seq<Item>, local: nat, m: Item) {
    exists rest :: KeptOf(items, rest, (x: Item) => x.id != Local(local)) && Arrives(rest, after, m)
  }

  /** Only the listed message `id` changes, where it is. */
  ghost predicate ChangesOnly(items: seq<Item>, after: seq<Item>, id: Id) {
    && |after| == |items|
    && forall i :: 0 <= i < |items| ==> after[i].id == items[i].id && (items[i].id != id ==> after[i] == items[i])
  }

  /** What is on the list after a send, its end, and every event about a single message. */
  lemma ShownExactly(s: State, e: Event)
    requires Shape(s) && WellFormed(s, e)
    ensures match e
            case Send(createdAt, text, replyTo, mentions) =>
              var t := Step(s, e).items;
              && !Listed(s.items, Local(s.nextLocal)) && t != [] && Arrives(s.items, t, Last(t))
              && Last(t).id == Local(s.nextLocal) && Last(t).status == Pending && Last(t).createdAt == createdAt
              && Last(t).text == Some(text) && Last(t).replyTo == replyTo && Last(t).mentions == mentions
            case PostReply(l, m) => Replaces(s.items, Step(s, e).items, l, m)
            case PostFailed(l) =>
              && ChangesOnly(s.items, Step(s, e).items, Local(l))
              && forall i :: 0 <= i < |s.items| && s.items[i].id == Local(l) ==>
                   SameUnsent(Step(s, e).items[i], s.items[i]) && Step(s, e).items[i].status == Failed
            case MessageNew(m) => Arrives(s.items, Step(s, e).items, m)
            case MessageDeleted(_, _, _) => ChangesOnly(s.items, Step(s, e).items, e.message.id)
            case MessageEdited(_, _, _) => ChangesOnly(s.items, Step(s, e).items, e.message.id)
            case EditedHere(_) => ChangesOnly(s.items, Step(s, e).items, e.message.id)
            case _ => true
  {
    match e
    case PostReply(l, m) =>
      var keep := (m: Item) => m.id != Local(l);
      FilterKeeps(keep, s.items);
      assert Arrives(Without(s.items, Local(l)), Step(s, e).items, m);
    case _ =>
  }

  /** The message that changes: deleted, edited by an event, or edited on this device. */
  lemma ChangedExactly(s: State, e: Event, i: nat)
    requires WellFormed(s, e) && Changes(e)
    requires i < |s.items| && s.items[i].id == e.message.id
    ensures var m, r := s.items[i], Step(s, e).items[i];
            && i < |Step(s, e).items|
            && match e
               case MessageEdited(n, _, at) =>
                 && r.text == n.text && r.starred == m.starred && r.deletedAt == n.deletedAt && r.status == Sent
                 && m.history <= r.history <= m.history + [Earlier(if m.text.Some? then m.text.value else "", at)]
               case EditedHere(n) => r == n
               case MessageDeleted(n, keepDeleted, at) =>
                 && r.history == m.history && r.status == m.status
                 && if keepDeleted && !m.decryptFailed && (m.hasMeta || (m.text.Some? && m.text.value != ""))
                    then r.text == m.text && r.hasMeta == m.hasMeta && r.deletedAt == Some(at) && r.locallyKept
                    else r.text.None? && !r.hasMeta && !r.decryptFailed && r.deletedAt == n.deletedAt
                         && r.locallyKept == m.locallyKept
  {
  }

  // ---- What a fetched page shows ----

  predicate Concerns(e: Event, k: nat) {
    match e
    case RequestNewest(j) => j == k
    case RequestOlder(j) => j == k
    case Snapshot(j, _) => j == k
    case Land(j) => j == k
    case LoadFailed(j) => j == k
    case _ => false
  }

  ghost predicate NoneConcern(es: seq<Event>, k: nat) {
    forall i :: 0 <= i < |es| ==> !Concerns(es[i], k)
  }

  lemma {:induction false} LoadWaits(es: seq<Event>, more: seq<Event>, k: nat)
    requires k in Run(es).loads && NoneConcern(more, k)
    ensures k in Run(es + more).loads && Run(es + more).loads[k] == Run(es).loads[k]
  {
    if more == [] {
      assert es + more == es;
    } else {
      var front, e := Front(more), Last(more);
      assert Front(es + more) == es + front && Last(es + more) == e;
      assert !Concerns(more[|more| - 1], k);
      assert NoneConcern(front, k) by { assert forall i :: 0 <= i < |front| ==> front[i] == more[i]; }
      LoadWaits(es, front, k);
    }
  }

  /** A request, the server's answer to it, and whatever else happens before it arrives. */
  function Fetched(a: seq<Event>, request: Event, k: nat, b: seq<Event>, page: seq<Item>, c: seq<Event>): seq<Event> {
    a + [request] + b + [Snapshot(k, page)] + c
  }

  lemma FetchedPage(a: seq<Event>, request: Event, k: nat, b: seq<Event>, page: seq<Item>, c: seq<Event>)
    requires NoneConcern(b, k) && NoneConcern(c, k)
    requires var s := Run(a + [request]); k in s.loads && s.loads[k].page.None?
    ensures var s, r := Run(a + [request]), Run(Fetched(a, request, k, b, page, c));
            k in r.loads && r.loads[k] == s.loads[k].(page := Some(page))
  {
    LoadWaits(a + [request], b, k);
    RunNext(a + [request] + b, Snapshot(k, page));
    LoadWaits(a + [request] + b + [Snapshot(k, page)], c, k);
  }

  /** The page is on top as it was fetched, then the unsent messages in their old order; nothing else is listed. */
  ghost predicate ShowsNewest(items: seq<Item>, after: seq<Item>, page: seq<Item>) {
    && page <= after
    && KeptOf(items, after[|page|..], (m: Item) => m.status != Sent)
    && forall m: Item :: m.id.Server? ==> (m in after <==> m in page)
  }

  /**
    * The newest page that the server gave is what the user sees when it lands, whatever else happened
    * meanwhile: its messages, in its order and its versions, are the server messages listed, and the
    * unsent ones follow.
    */
  lemma NewestPageShown(a: seq<Event>, k: nat, b: seq<Event>, page: seq<Item>, c: seq<Event>)
    requires NoneConcern(b, k) && NoneConcern(c, k)
    requires WellFormedRun(Fetched(a, RequestNewest(k), k, b, page, c))
    ensures var es := Fetched(a, RequestNewest(k), k, b, page, c);
            ShowsNewest(Run(es).items, Run(es + [Land(k)]).items, page) && k !in Run(es + [Land(k)]).loads
  {
    var es := Fetched(a, RequestNewest(k), k, b, page, c);
    RunNext(a, RequestNewest(k));
    FetchedPage(a, RequestNewest(k), k, b, page, c);
    RunNext(es, Land(k));
    RunShape(es);
    LandShowsNewest(Run(es), k, page);
  }

  lemma LandShowsNewest(s: State, k: nat, page: seq<Item>)
    requires Shape(s) && k in s.loads && s.loads[k] == Newest(Some(page))
    ensures ShowsNewest(s.items, Step(s, Land(k)).items, page)
  {
    var after, rest := Step(s, Land(k)).items, Unconfirmed(s.items);
    FilterKeeps((m: Item) => m.status != Sent, s.items);
    UnconfirmedAreLocal(s);
    assert after[|page|..] == rest;
    forall m: Item | m.id.Server?
      ensures m in after <==> m in page
    {
      if m in rest { FilterIn((m: Item) => m.status != Sent, s.items, m); }
    }
  }

  /** An older page that the server gave is on top of the list when it lands, and the list goes on below as it was. */
  lemma OlderPageShown(a: seq<Event>, k: nat, b: seq<Event>, page: seq<Item>, c: seq<Event>)
    requires NoneConcern(b, k) && NoneConcern(c, k)
    requires Run(a).items != [] && Run(a).hasMore != Some(false)
    ensures var es := Fetched(a, RequestOlder(k), k, b, page, c);
            var items, after := Run(es).items, Run(es + [Land(k)]).items;
            && page <= after && |after| == |page| + |items| && k !in Run(es + [Land(k)]).loads
            && forall i :: 0 <= i < |items| ==> after[|page| + i] == items[i]
  {
    var es := Fetched(a, RequestOlder(k), k, b, page, c);
    RunNext(a, RequestOlder(k));
    FetchedPage(a, RequestOlder(k), k, b, page, c);
    RunNext(es, Land(k));
    LandShowsOlder(Run(es), k, page);
  }

  lemma LandShowsOlder(s: State, k: nat, page: seq<Item>)
    requires k in s.loads && s.loads[k].Older? && s.loads[k].page == Some(page)
    ensures Step(s, Land(k)).items == page + s.items && k !in Step(s, Land(k)).loads
  {
  }

  /** A load that fails shows nothing, then or later: until it is requested again its landing changes nothing. */
  lemma FailedLoadShowsNothing(s: State, k: nat)
    ensures var t := Step(s, LoadFailed(k));
            t == s.(loads := t.loads) && t.loads == s.loads - {k} && Step(t, Land(k)) == t
  {
  }

  /** What a paint shows is what was read from the cache while the list was empty. */
  lemma CachedPageShown(a: seq<Event>, k: nat, cached: seq<Item>, b: seq<Event>)
    requires Run(a).items == [] && cached != [] && NonePaint(b, k)
    ensures Run(a + [ReadCached(k, cached)] + b + [Paint(k)]).items == cached
  {
    var es := a + [ReadCached(k, cached)];
    RunNext(a, ReadCached(k, cached));
    PaintWaits(es, b, k);
    RunNext(es + b, Paint(k));
  }

  ghost predicate NonePaint(es: seq<Event>, k: nat) {
    forall i :: 0 <= i < |es| ==> !(es[i].ReadCached? && es[i].load == k) && es[i] != Paint(k)
  }

  lemma PaintKept(s: State, e: Event, k: nat)
    requires k in s.paints && !(e.ReadCached? && e.load == k) && e != Paint(k)
    ensures k in Step(s, e).paints && Step(s, e).paints[k] == s.paints[k]
  {
  }

  lemma {:induction false} PaintWaits(es: seq<Event>, more: seq<Event>, k: nat)
    requires k in Run(es).paints && NonePaint(more, k)
    ensures k in Run(es + more).paints && Run(es + more).paints[k] == Run(es).paints[k]
  {
    if more == [] {
      assert es + more == es;
    } else {
      var front, e := Front(more), Last(more);
      assert Front(es + more) == es + front && Last(es + more) == e;
      assert more[|more| - 1] == e;
      assert NonePaint(front, k) by { assert forall i :: 0 <= i < |front| ==> front[i] == more[i]; }
      PaintWaits(es, front, k);
      PaintKept(Run(es + front), e, k);
    }
  }

  // ---- When more is asked for ----

  /** What settles whether there are older messages: a page that lands, a cleared history, a dropped conversation. */
  predicate Settles(s: State, e: Event) {
    e.ClearHistory? || e.DropConversation? || (e.Land? && e.load in s.loads && s.loads[e.load].page.Some?)
  }

  ghost predicate NoneSettles(es: seq<Event>, more: seq<Event>) {
    more != [] ==> NoneSettles(es, Front(more)) && !Settles(Run(es + Front(more)), Last(more))
  }

  lemma {:induction false} Settled(es: seq<Event>, more: seq<Event>)
    requires NoneSettles(es, more)
    ensures Run(es + more).hasMore == Run(es).hasMore
  {
    if more == [] {
      assert es + more == es;
    } else {
      assert Front(es + more) == es + Front(more) && Last(es + more) == Last(more);
      Settled(es, Front(more));
    }
  }

  /** By what settled it last, there may be older messages: the page was full, or the conversation starts anew. */
  predicate MayHaveMore(s: State, e: Event)
    requires Settles(s, e)
  {
    e.DropConversation? || (e.Land? && |s.loads[e.load].page.value| == 30)
  }

  /**
    * Scrolling up starts a load exactly if the list is not empty and the last page that landed, newest
    * or older, had thirty messages; it asks for what lies before the first listed message. A cleared
    * history asks for nothing more.
    */
  lemma OlderStartsExactly(es: seq<Event>, e: Event, more: seq<Event>, k: nat)
    requires Settles(Run(es), e) && NoneSettles(es + [e], more)
    ensures var s := Run(es + [e] + more);
            Step(s, RequestOlder(k)) ==
              if s.items != [] && MayHaveMore(Run(es), e)
              then s.(loads := s.loads[k := Older(s.items[0].createdAt, None)]) else s
  {
    RunNext(es, e);
    Settled(es + [e], more);
    OlderRequested(Run(es + [e] + more), k);
  }

  lemma OlderRequested(s: State, k: nat)
    ensures Step(s, RequestOlder(k)) ==
            if s.items != [] && s.hasMore != Some(false)
            then s.(loads := s.loads[k := Older(s.items[0].createdAt, None)]) else s
  {
  }

  /** Before anything has settled it, scrolling up always asks. */
  lemma FirstOlderStarts(es: seq<Event>, k: nat)
    requires NoneSettles([], es) && Run(es).items != []
    ensures Step(Run(es), RequestOlder(k)).loads == Run(es).loads[k := Older(Run(es).items[0].createdAt, None)]
  {
    assert [] + es == es;
    Settled([], es);
    OlderRequested(Run(es), k);
  }
}
