/** The chat list: pinned conversations first, the most recently touched one on top of its group. */
module Conversations {
  import opened Base

  /** `data` stands for everything else a conversation holds. */
  datatype Conversation = Conversation(id: nat, isPinned: bool, data: nat)

  function Others(cs: seq<Conversation>, id: nat): seq<Conversation> {
    Filter((c: Conversation) => c.id != id, cs)
  }

  /** The index of the first conversation that is not pinned, or -1. */
  function FindUnpinned(cs: seq<Conversation>): (r: int)
    ensures -1 <= r < |cs|
    ensures r >= 0 ==> !cs[r].isPinned && forall i :: 0 <= i < r ==> cs[i].isPinned
    ensures r < 0 ==> forall i :: 0 <= i < |cs| ==> cs[i].isPinned
  {
    if cs == [] then -1
    else
      var front := FindUnpinned(Front(cs));
      if front >= 0 then front else if Last(cs).isPinned then -1 else |cs| - 1
  }

  function Upsert(cs: seq<Conversation>, c: Conversation): seq<Conversation> {
    var filtered := Others(cs, c.id);
    if c.isPinned then [c] + filtered
    else
      var at := FindUnpinned(filtered);
      if at == -1 then filtered + [c] else filtered[..at] + [c] + filtered[at..]
  }

  predicate PinnedFirst(cs: seq<Conversation>) {
    forall i, j :: 0 <= i < j < |cs| && cs[j].isPinned ==> cs[i].isPinned
  }

  predicate DistinctIds(cs: seq<Conversation>) {
    forall i, j :: 0 <= i < j < |cs| ==> cs[i].id != cs[j].id
  }

  lemma OthersIn(cs: seq<Conversation>, id: nat, x: Conversation)
    ensures x in Others(cs, id) <==> x in cs && x.id != id
  {
    FilterIn((c: Conversation) => c.id != id, cs, x);
  }

  lemma {:induction false} OthersKeeps(cs: seq<Conversation>, id: nat)
    ensures PinnedFirst(cs) ==> PinnedFirst(Others(cs, id))
    ensures DistinctIds(cs) ==> DistinctIds(Others(cs, id))
  {
    if cs != [] {
      OthersKeeps(Front(cs), id);
      var r := Others(Front(cs), id);
      forall i | 0 <= i < |r|
        ensures r[i] in Front(cs)
      {
        OthersIn(Front(cs), id, r[i]);
      }
    }
  }

  /** Everything is somebody else's already. */
  lemma {:induction false} OthersOfOthers(cs: seq<Conversation>, id: nat)
    requires forall i :: 0 <= i < |cs| ==> cs[i].id != id
    ensures Others(cs, id) == cs
  {
    if cs != [] {
      OthersOfOthers(Front(cs), id);
      assert cs == Front(cs) + [Last(cs)];
    }
  }

  function Insert(cs: seq<Conversation>, p: nat, c: Conversation): (r: seq<Conversation>)
    requires p <= |cs|
    ensures |r| == |cs| + 1 && r[p] == c
    ensures forall i :: 0 <= i < p ==> r[i] == cs[i]
    ensures forall i :: p < i < |r| ==> r[i] == cs[i - 1]
  {
    cs[..p] + [c] + cs[p..]
  }

  lemma {:induction false} OthersOfInsert(cs: seq<Conversation>, p: nat, c: Conversation)
    requires p <= |cs| && forall i :: 0 <= i < |cs| ==> cs[i].id != c.id
    ensures Others(Insert(cs, p, c), c.id) == cs
    decreases |cs|
  {
    var r := Insert(cs, p, c);
    if p == |cs| {
      assert Front(r) == cs;
      OthersOfOthers(cs, c.id);
    } else {
      assert Last(r) == Last(cs);
      assert Front(r) == Insert(Front(cs), p, c);
      OthersOfInsert(Front(cs), p, c);
      assert cs == Front(cs) + [Last(cs)];
    }
  }

  /** Where the touched conversation goes: on top if it is pinned, else after exactly the pinned ones. */
  function Place(cs: seq<Conversation>, c: Conversation): (p: nat)
    ensures p <= |Others(cs, c.id)|
  {
    var filtered := Others(cs, c.id);
    if c.isPinned then 0 else if FindUnpinned(filtered) == -1 then |filtered| else FindUnpinned(filtered)
  }

  lemma UpsertInserts(cs: seq<Conversation>, c: Conversation)
    ensures Upsert(cs, c) == Insert(Others(cs, c.id), Place(cs, c), c)
  {
    var filtered := Others(cs, c.id);
    if c.isPinned {
      assert filtered[..0] + [c] + filtered[0..] == [c] + filtered;
    } else if FindUnpinned(filtered) == -1 {
      assert filtered[..|filtered|] + [c] + filtered[|filtered|..] == filtered + [c];
    }
  }

  lemma InsertKeeps(cs: seq<Conversation>, p: nat, c: Conversation)
    requires PinnedFirst(cs) && DistinctIds(cs) && p <= |cs|
    requires forall i :: 0 <= i < |cs| ==> cs[i].id != c.id
    requires c.isPinned ==> p == 0
    requires !c.isPinned ==> (forall i :: 0 <= i < |cs| ==> (cs[i].isPinned <==> i < p))
    ensures PinnedFirst(Insert(cs, p, c)) && DistinctIds(Insert(cs, p, c))
  {
  }

  /**
    * Touching a conversation puts it on top of its group, leaves the order of all the others alone,
    * and keeps the list free of duplicates and the pinned ones first.
    */
  lemma UpsertKeepsList(cs: seq<Conversation>, c: Conversation)
    requires PinnedFirst(cs) && DistinctIds(cs)
    ensures var r, p := Upsert(cs, c), Place(cs, c);
            && PinnedFirst(r) && DistinctIds(r)
            && Others(r, c.id) == Others(cs, c.id)
            && p < |r| && r[p] == c
            && (forall i :: 0 <= i < p ==> r[i].isPinned && !c.isPinned)
  {
    var filtered, p := Others(cs, c.id), Place(cs, c);
    UpsertInserts(cs, c);
    OthersKeeps(cs, c.id);
    forall i | 0 <= i < |filtered|
      ensures filtered[i].id != c.id
    {
      OthersIn(cs, c.id, filtered[i]);
    }
    OthersOfInsert(filtered, p, c);
    InsertKeeps(filtered, p, c);
  }
}
