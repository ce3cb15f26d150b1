/** Vocabulary shared by every model in this project. */
module Base {

  /** A value that may be missing: a `null`/`undefined` in the source. */
  datatype Option<+T> = None | Some(value: T)

  /** All but the last element of a non-empty sequence. */
  function Front<T>(s: seq<T>): seq<T>
    requires s != []
  {
    s[..|s| - 1]
  }

  function Last<T>(s: seq<T>): T
    requires s != []
  {
    s[|s| - 1]
  }

  /** One element more than the first `i`. */
  lemma TakeFront<T>(s: seq<T>, i: nat)
    requires i < |s|
    ensures Front(s[..i + 1]) == s[..i] && Last(s[..i + 1]) == s[i]
  {
  }

  function Filter<T>(keep: T -> bool, s: seq<T>): seq<T> {
    if s == [] then []
    else Filter(keep, Front(s)) + if keep(Last(s)) then [Last(s)] else []
  }

  lemma {:induction false} FilterIn<T>(keep: T -> bool, s: seq<T>, x: T)
    ensures x in Filter(keep, s) <==> x in s && keep(x)
  {
    if s != [] {
      FilterIn(keep, Front(s), x);
      assert s == Front(s) + [Last(s)];
    }
  }

  /** `r` is what `keep` accepts of `s`, in order: `at` are the positions it comes from, ascending, none left out. */
  ghost predicate Picks<T>(s: seq<T>, r: seq<T>, keep: T -> bool, at: seq<nat>) {
    && |at| == |r|
    && (forall i, j :: 0 <= i < j < |at| ==> at[i] < at[j])
    && (forall i :: 0 <= i < |at| ==> at[i] < |s| && s[at[i]] == r[i] && keep(r[i]))
    && forall p {:trigger p in at} :: 0 <= p < |s| && keep(s[p]) ==> p in at
  }

  ghost predicate KeptOf<T>(s: seq<T>, r: seq<T>, keep: T -> bool) {
    exists at :: Picks(s, r, keep, at)
  }

  lemma PicksOne<T>(s: seq<T>, r: seq<T>, keep: T -> bool, at: seq<nat>, x: T)
    requires Picks(s, r, keep, at)
    ensures keep(x) ==> Picks(s + [x], r + [x], keep, at + [|s|])
    ensures !keep(x) ==> Picks(s + [x], r, keep, at)
  {
    var next := if keep(x) then at + [|s|] else at;
    forall p | 0 <= p < |s + [x]| && keep((s + [x])[p])
      ensures p in next
    {
      if p == |s| { assert next[|at|] == p; } else { assert p in at; }
    }
  }

  lemma KeptOne<T>(s: seq<T>, r: seq<T>, keep: T -> bool, x: T)
    requires KeptOf(s, r, keep)
    ensures KeptOf(s + [x], if keep(x) then r + [x] else r, keep)
  {
    var at: seq<nat> :| Picks(s, r, keep, at);
    PicksOne(s, r, keep, at, x);
  }

  lemma {:induction false} FilterKeeps<T>(keep: T -> bool, s: seq<T>)
    ensures KeptOf(s, Filter(keep, s), keep)
  {
    if s == [] {
      assert Picks(s, Filter(keep, s), keep, []);
    } else {
      var front, last := Front(s), Last(s);
      FilterKeeps(keep, front);
      KeptOne(front, Filter(keep, front), keep, last);
      assert s == front + [last];
      assert Filter(keep, s) == if keep(last) then Filter(keep, front) + [last] else Filter(keep, front);
    }
  }

  /** What is kept depends on `keep` only through the elements there are. */
  lemma KeptAlike<T>(s: seq<T>, r: seq<T>, keep: T -> bool, also: T -> bool)
    requires KeptOf(s, r, keep) && forall x :: x in s ==> keep(x) == also(x)
    ensures KeptOf(s, r, also)
  {
    var at: seq<nat> :| Picks(s, r, keep, at);
    assert Picks(s, r, also, at);
  }

  lemma SubsetSize<T>(a: set<T>, b: set<T>)
    requires a <= b
    ensures |a| <= |b|
  {
    assert b == a + (b - a);
  }
}
