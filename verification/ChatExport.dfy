/**
 * Exporting a conversation's whole history page by page (mobile/src/utils/chatExport.ts).
 * The server answers with the newest messages strictly before a cursor, oldest first.
 */
module ChatExport {
  import opened Base
  import opened Arithmetic

  const PAGE_SIZE: nat := 100

  datatype Msg = Msg(id: nat, createdAt: int)

  ghost predicate Ascending(h: seq<Msg>) {
    forall i, j :: 0 <= i < j < |h| ==> h[i].createdAt <= h[j].createdAt
  }

  /** How many messages of an ascending history come strictly before `t`. */
  function Cut(h: seq<Msg>, t: int): (q: nat)
    ensures q <= |h| && (q > 0 ==> h[q - 1].createdAt < t) && forall i :: q <= i < |h| ==> h[i].createdAt >= t
  {
    if h == [] || Last(h).createdAt < t then |h| else Cut(Front(h), t)
  }

  function LastPage(h: seq<Msg>, n: nat): seq<Msg> {
    if |h| <= n then h else h[|h| - n..]
  }

  /** chatsApi.listMessages */
  function ListMessages(h: seq<Msg>, before: Option<int>, n: nat): seq<Msg> {
    LastPage(if before.Some? then h[..Cut(h, before.value)] else h, n)
  }

  function Flat(pages: seq<seq<Msg>>): seq<Msg> {
    if pages == [] then [] else pages[0] + Flat(pages[1..])
  }

  function Reverse(pages: seq<seq<Msg>>): seq<seq<Msg>> {
    if pages == [] then [] else [Last(pages)] + Reverse(Front(pages))
  }

  /** What is left of the history before the first message of its last page. */
  function Rest(h: seq<Msg>, n: nat): (r: seq<Msg>)
    requires h != [] && n > 0 && Ascending(h)
    ensures r <= h && Ascending(r) && |r| <= if |h| <= n then 0 else |h| - n
  {
    h[..Cut(h, LastPage(h, n)[0].createdAt)]
  }

  /** The messages that paging backwards reaches, in ascending order. */
  function Collected(h: seq<Msg>, n: nat): seq<Msg>
    requires n > 0 && Ascending(h)
    decreases |h|
  {
    if h == [] then []
    else if |h| < n then h
    else Collected(Rest(h, n), n) + LastPage(h, n)
  }

  /** Cutting a history that was already cut later on makes no difference. */
  lemma CutOfPrefix(h: seq<Msg>, left: seq<Msg>, t: int)
    requires Ascending(h) && left <= h && left != [] && t <= Last(left).createdAt
    ensures left[..Cut(left, t)] == h[..Cut(h, t)]
  {
    var q, r := Cut(h, t), Cut(left, t);
    assert forall i :: r <= i < |left| ==> h[i] == left[i];
    assert forall i :: 0 <= i < r ==> h[i] == left[i];
    assert r < |left|;
    assert q <= r;
    assert r <= q;
  }

  lemma ReversedAppend(pages: seq<seq<Msg>>, page: seq<Msg>)
    ensures Flat(Reverse(pages + [page])) == page + Flat(Reverse(pages))
  {
    assert Front(pages + [page]) == pages;
    assert Reverse(pages + [page])[1..] == Reverse(pages);
  }

  /** One turn of the export loop: the page joins the front of what was collected. */
  lemma OneMorePage(h: seq<Msg>, left: seq<Msg>, n: nat, pages: seq<seq<Msg>>)
    requires n > 0 && Ascending(h) && left <= h && left != [] && Ascending(left)
    ensures var page := LastPage(left, n);
            && page != [] && Rest(left, n) == h[..Cut(h, page[0].createdAt)]
            && Collected(left, n) + Flat(Reverse(pages)) ==
               (if |page| < n then [] else Collected(Rest(left, n), n)) + Flat(Reverse(pages + [page]))
  {
    var page := LastPage(left, n);
    RestOfPrefix(h, left, n);
    ReversedAppend(pages, page);
    CollectedPage(left, n);
    if |page| >= n { Regroup(Collected(Rest(left, n), n), page, Flat(Reverse(pages))); }
  }

  lemma CollectedPage(h: seq<Msg>, n: nat)
    requires n > 0 && Ascending(h) && h != []
    ensures LastPage(h, n) != []
    ensures Collected(h, n) ==
            if |LastPage(h, n)| < n then LastPage(h, n) else Collected(Rest(h, n), n) + LastPage(h, n)
  {
  }

  lemma Regroup(a: seq<Msg>, b: seq<Msg>, c: seq<Msg>)
    ensures a + b + c == a + (b + c)
  {
  }

  lemma RestOfPrefix(h: seq<Msg>, left: seq<Msg>, n: nat)
    requires n > 0 && Ascending(h) && left <= h && left != [] && Ascending(left)
    ensures Rest(left, n) == h[..Cut(h, LastPage(left, n)[0].createdAt)]
  {
    CutOfPrefix(h, left, LastPage(left, n)[0].createdAt);
  }

  /** How far the export has come: `left` is what lies before the cursor and is not collected yet. */
  ghost predicate Progress(h: seq<Msg>, n: nat, before: Option<int>, left: seq<Msg>, pages: seq<seq<Msg>>)
    requires n > 0 && Ascending(h)
  {
    && left <= h && Ascending(left)
    && left == (if before.Some? then h[..Cut(h, before.value)] else h)
    && Collected(h, n) == Collected(left, n) + Flat(Reverse(pages))
  }

  lemma ProgressStep(h: seq<Msg>, n: nat, before: Option<int>, left: seq<Msg>, pages: seq<seq<Msg>>)
    requires n > 0 && Ascending(h) && Progress(h, n, before, left, pages) && left != []
    ensures var page := ListMessages(h, before, n);
            && page != []
            && (if |page| < n then Collected(h, n) == Flat(Reverse(pages + [page]))
                else |Rest(left, n)| < |left|
                     && Progress(h, n, Some(page[0].createdAt), Rest(left, n), pages + [page]))
  {
    OneMorePage(h, left, n, pages);
  }

  /** The export loop: the pages come newest first and are put in order at the end. */
  method ExportMessages(h: seq<Msg>, n: nat) returns (messages: seq<Msg>)
    requires n > 0 && Ascending(h)
    ensures messages == Collected(h, n)
  {
    var pages: seq<seq<Msg>> := [];
    var before: Option<int> := None;
    ghost var left := h;
    assert Collected(h, n) + [] == Collected(h, n);
    while true
      invariant Progress(h, n, before, left, pages)
      decreases |left|
    {
      var page := ListMessages(h, before, n);
      if |page| == 0 {
        break;
      }
      ProgressStep(h, n, before, left, pages);
      pages := pages + [page];
      before := Some(page[0].createdAt);
      if |page| < n {
        return Flat(Reverse(pages));
      }
      left := Rest(left, n);
    }
    messages := Flat(Reverse(pages));
  }

  // ---------------------------------------------------------------- theorems

  /** A page boundary before message `p` separates different timestamps. */
  ghost predicate Separates(h: seq<Msg>, p: nat)
    requires 0 < p < |h|
  {
    h[p - 1].createdAt < h[p].createdAt
  }

  /** No page, counted from the newest message, begins between two messages with the same timestamp. */
  ghost predicate BoundariesSeparate(h: seq<Msg>, n: nat)
    requires n > 0
  {
    forall p :: 0 < p < |h| && BeginsPage(|h|, p, n) ==> Separates(h, p)
  }

  /** Message `p` of `len` is the first of a page, counting pages of `n` from the newest message. */
  ghost predicate BeginsPage(len: nat, p: nat, n: nat)
    requires n > 0 && p <= len
  {
    (len - p) % n == 0
  }

  lemma SeparatesInPrefix(h: seq<Msg>, p0: nat, p: nat)
    requires 0 < p < p0 <= |h|
    ensures Separates(h[..p0], p) <==> Separates(h, p)
  {
  }

  lemma PagesOfPrefix(len: nat, p: nat, n: nat)
    requires 0 < n < len && p < len
    ensures BeginsPage(len, p, n) <==> if p <= len - n then BeginsPage(len - n, p, n) else false
  {
    if p <= len - n {
      ModShift(len - n - p, n);
    } else {
      RemainderUnique(len - p, n, 0, len - p);
    }
  }

  lemma BoundariesDown(h: seq<Msg>, n: nat)
    requires 0 < n < |h| && BoundariesSeparate(h, n)
    ensures Separates(h, |h| - n) && BoundariesSeparate(h[..|h| - n], n)
  {
    var p0 := |h| - n;
    PagesOfPrefix(|h|, p0, n);
    forall p | 0 < p < p0 && BeginsPage(p0, p, n) ensures Separates(h[..p0], p) {
      PagesOfPrefix(|h|, p, n);
      SeparatesInPrefix(h, p0, p);
    }
  }

  lemma BoundariesUp(h: seq<Msg>, n: nat)
    requires 0 < n < |h| && Separates(h, |h| - n) && BoundariesSeparate(h[..|h| - n], n)
    ensures BoundariesSeparate(h, n)
  {
    var p0 := |h| - n;
    forall p | 0 < p < |h| && BeginsPage(|h|, p, n) ensures Separates(h, p) {
      PagesOfPrefix(|h|, p, n);
      if p < p0 { SeparatesInPrefix(h, p0, p); }
    }
  }

  lemma NoBoundaryInOnePage(h: seq<Msg>, n: nat)
    requires 0 < n && |h| <= n
    ensures BoundariesSeparate(h, n)
  {
    forall p | 0 < p < |h|
      ensures !BeginsPage(|h|, p, n)
    {
      RemainderUnique(|h| - p, n, 0, |h| - p);
    }
  }

  lemma {:induction false} CollectedBounded(h: seq<Msg>, n: nat)
    requires n > 0 && Ascending(h)
    ensures |Collected(h, n)| <= |h|
    decreases |h|
  {
    if h != [] && |h| >= n { CollectedBounded(Rest(h, n), n); }
  }

  lemma RestWhole(h: seq<Msg>, n: nat)
    requires 0 < n < |h| && Ascending(h)
    ensures Separates(h, |h| - n) <==> Rest(h, n) == h[..|h| - n]
  {
    var p := |h| - n;
    assert LastPage(h, n)[0] == h[p];
    if Separates(h, p) {
      var q := Cut(h, h[p].createdAt);
      assert q >= p;
    }
  }

  lemma AppendSame(a: seq<Msg>, b: seq<Msg>, tail: seq<Msg>)
    ensures a + tail == b + tail <==> a == b
  {
    if a + tail == b + tail {
      assert a == (a + tail)[..|a|] && b == (b + tail)[..|b|];
    }
  }

  /**
   * The export contains the whole history, every message exactly once and in order, if and only if
   * every page boundary separates different timestamps. Distinct timestamps are enough.
   */
  lemma {:induction false} ExportsEverything(h: seq<Msg>, n: nat)
    requires n > 0 && Ascending(h)
    ensures Collected(h, n) == h <==> BoundariesSeparate(h, n)
    decreases |h|
  {
    if |h| <= n {
      NoBoundaryInOnePage(h, n);
      if |h| == n && n > 0 { assert Rest(h, n) == []; }
    } else {
      ExportsRest(h, n);
      ExportsEverything(h[..|h| - n], n);
      if BoundariesSeparate(h, n) {
        BoundariesDown(h, n);
        RestWhole(h, n);
      } else if Collected(h, n) == h {
        BoundariesUp(h, n);
      }
    }
  }

  /** The loss can happen: a history one longer than a page, all of it from one moment, loses its first message. */
  lemma TieAtBoundaryLoses(n: nat)
    requires n > 0
    ensures var h := seq(n + 1, i requires 0 <= i < n + 1 => Msg(i, 0));
            Ascending(h) && !BoundariesSeparate(h, n) && Collected(h, n) == h[1..]
  {
    var h := seq(n + 1, i requires 0 <= i < n + 1 => Msg(i, 0));
    ModShift(0, n);
    assert BeginsPage(|h|, 1, n) && !Separates(h, 1);
    assert Rest(h, n) == [];
  }

  /** The export is complete exactly if the last page leaves all the older messages and they are exported completely. */
  lemma ExportsRest(h: seq<Msg>, n: nat)
    requires 0 < n < |h| && Ascending(h)
    ensures Collected(h, n) == h <==>
            Separates(h, |h| - n) && Rest(h, n) == h[..|h| - n] && Collected(h[..|h| - n], n) == h[..|h| - n]
  {
    var p := |h| - n;
    RestWhole(h, n);
    assert h == h[..p] + h[p..];
    CollectedBounded(Rest(h, n), n);
    AppendSame(Collected(Rest(h, n), n), h[..p], h[p..]);
  }

  /** With distinct timestamps the export loop returns exactly the history. */
  method ExportDistinct(h: seq<Msg>) returns (messages: seq<Msg>)
    requires forall i, j :: 0 <= i < j < |h| ==> h[i].createdAt < h[j].createdAt
    ensures messages == h
  {
    messages := ExportMessages(h, PAGE_SIZE);
    ExportsEverything(h, PAGE_SIZE);
  }

  /** `c` takes some of the messages of `h`, in ascending order, none twice. */
  ghost predicate PartOf(c: seq<Msg>, h: seq<Msg>) {
    Ascending(c) && multiset(c) <= multiset(h) && forall m :: m in c ==> m in h
  }

  lemma PartOfPrefix(h: seq<Msg>, rest: seq<Msg>, c: seq<Msg>, tail: seq<Msg>)
    requires Ascending(h) && |rest| + |tail| <= |h| && tail == h[|h| - |tail|..]
    requires rest <= h && PartOf(c, rest)
    ensures PartOf(c + tail, h)
  {
    var p := |h| - |tail|;
    forall i, j | 0 <= i < j < |c + tail|
      ensures (c + tail)[i].createdAt <= (c + tail)[j].createdAt
    {
      if i < |c| <= j { assert c[i] in rest; }
    }
    assert h == rest + h[|rest|..p] + tail;
  }

  lemma CollectedUnfold(h: seq<Msg>, n: nat)
    requires 0 < n <= |h| && Ascending(h)
    ensures Collected(h, n) == Collected(Rest(h, n), n) + LastPage(h, n)
    ensures LastPage(h, n) == h[|h| - n..]
  {
  }

  /** What the export contains comes from the history, in ascending order, and nothing twice. */
  lemma {:induction false} ExportsNothingElse(h: seq<Msg>, n: nat, c: seq<Msg>)
    requires n > 0 && Ascending(h) && c == Collected(h, n)
    ensures PartOf(c, h)
    decreases |h|
  {
    if |h| < n {
      assert c == h;
    } else {
      var rest := Rest(h, n);
      ExportsNothingElse(rest, n, Collected(rest, n));
      OlderAndPage(h, n, Collected(rest, n));
    }
  }

  lemma OlderAndPage(h: seq<Msg>, n: nat, older: seq<Msg>)
    requires 0 < n <= |h| && Ascending(h) && PartOf(older, Rest(h, n)) && older == Collected(Rest(h, n), n)
    ensures PartOf(Collected(h, n), h)
  {
    CollectedUnfold(h, n);
    PartOfPrefix(h, Rest(h, n), older, LastPage(h, n));
  }
}
