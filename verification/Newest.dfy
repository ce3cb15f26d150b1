/** The `k` newest elements of a finite set, where every element has a fixed moment. */
module Newest {
  import opened Base

  /** Ids and the moments they were created at. */
  type Times = map<nat, int>

  /** Later first; ids break ties, so that the order is total. */
  predicate Newer(t: Times, x: nat, y: nat)
    requires x in t && y in t
  {
    t[x] > t[y] || (t[x] == t[y] && x > y)
  }

  function Above(s: set<nat>, t: Times, x: nat): set<nat>
    requires s <= t.Keys && x in t
  {
    set y | y in s && Newer(t, y, x)
  }

  /** The elements with fewer than `k` newer ones. */
  function Top(s: set<nat>, t: Times, k: nat): set<nat>
    requires s <= t.Keys
  {
    set x | x in s && |Above(s, t, x)| < k
  }

  ghost predicate Oldest(s: set<nat>, t: Times, m: nat)
    requires s <= t.Keys
  {
    m in s && forall y :: y in s && y != m ==> Newer(t, y, m)
  }

  lemma {:induction false} OldestExists(s: set<nat>, t: Times) returns (m: nat)
    requires s <= t.Keys && s != {}
    ensures Oldest(s, t, m)
  {
    var x :| x in s;
    if s == {x} {
      m := x;
    } else {
      var o := OldestExists(s - {x}, t);
      m := if Newer(t, o, x) then x else o;
      forall y | y in s && y != m
        ensures Newer(t, y, m)
      {
        if y != x && y != o { assert y in s - {x} && Newer(t, y, o); }
      }
    }
  }

  /** Removing the oldest element changes nobody's newer elements. */
  lemma TopWithoutOldest(s: set<nat>, t: Times, k: nat, m: nat)
    requires s <= t.Keys && Oldest(s, t, m)
    ensures Top(s, t, k) == Top(s - {m}, t, k) + if |s| - 1 < k then {m} else {}
  {
    assert Above(s, t, m) == s - {m};
    forall x | x in s - {m}
      ensures Above(s, t, x) == Above(s - {m}, t, x)
    {
    }
  }

  /** There are exactly `k` newest elements, or all of them if there are fewer. */
  lemma {:induction false} TopSize(s: set<nat>, t: Times, k: nat)
    requires s <= t.Keys
    ensures |Top(s, t, k)| == if |s| <= k then |s| else k
    decreases |s|
  {
    if s != {} {
      var m := OldestExists(s, t);
      TopSize(s - {m}, t, k);
      TopWithoutOldest(s, t, k, m);
    } else {
      assert Top(s, t, k) == {};
    }
  }

  /** They are newer than all the others. */
  lemma TopIsNewest(s: set<nat>, t: Times, k: nat, x: nat, y: nat)
    requires s <= t.Keys
    requires x in Top(s, t, k) && y in s - Top(s, t, k)
    ensures Newer(t, x, y)
  {
    if !Newer(t, x, y) {
      assert Above(s, t, y) <= Above(s, t, x);
      SubsetSize(Above(s, t, y), Above(s, t, x));
    }
  }

  /** Anything with `k` newer elements has `k` newer ones among the newest `k`. */
  lemma TopAbove(s: set<nat>, t: Times, k: nat, x: nat)
    requires s <= t.Keys && x in t && |Above(s, t, x)| >= k
    ensures |Above(Top(s, t, k), t, x)| >= k
  {
    var a := Above(s, t, x);
    forall y | y in a
      ensures Above(a, t, y) == Above(s, t, y)
    {
    }
    assert Top(a, t, k) <= Above(Top(s, t, k), t, x);
    TopSize(a, t, k);
    SubsetSize(Top(a, t, k), Above(Top(s, t, k), t, x));
  }

  /** Dropping all but the newest `k` before adding more elements does not change the newest `k`. */
  lemma TopIncremental(a: set<nat>, b: set<nat>, t: Times, k: nat)
    requires a <= t.Keys && b <= t.Keys
    ensures Top(Top(a, t, k) + b, t, k) == Top(a + b, t, k)
  {
    var n, m := Top(a, t, k) + b, a + b;
    forall x | x in m
      ensures x in Top(n, t, k) <==> x in Top(m, t, k)
    {
      SubsetSize(Above(n, t, x), Above(m, t, x));
      if |Above(m, t, x)| < k {
        SubsetSize(Above(a, t, x), Above(m, t, x));
      } else if exists y :: y in Above(m, t, x) && y !in n {
        var y :| y in Above(m, t, x) && y !in n;
        TopAbove(a, t, k, y);
        assert Above(Top(a, t, k), t, y) <= Above(n, t, x);
        SubsetSize(Above(Top(a, t, k), t, y), Above(n, t, x));
      } else {
        assert Above(m, t, x) <= Above(n, t, x);
        SubsetSize(Above(m, t, x), Above(n, t, x));
      }
    }
  }

  /** Taking the newest `l` of the newest `k`. */
  lemma TopOfTop(s: set<nat>, t: Times, k: nat, l: nat)
    requires s <= t.Keys && l <= k
    ensures Top(Top(s, t, k), t, l) == Top(s, t, l)
  {
    var n := Top(s, t, k);
    forall x | x in s
      ensures x in Top(n, t, l) <==> x in Top(s, t, l)
    {
      SubsetSize(Above(n, t, x), Above(s, t, x));
      if x in n {
        forall y | y in Above(s, t, x) ensures y in n {
          assert Above(s, t, y) <= Above(s, t, x);
          SubsetSize(Above(s, t, y), Above(s, t, x));
        }
        assert Above(n, t, x) == Above(s, t, x);
      }
    }
  }

  ghost predicate IsLatest(s: set<nat>, t: Times, m: nat)
    requires s <= t.Keys
  {
    m in s && forall y :: y in s && y != m ==> Newer(t, m, y)
  }

  lemma {:induction false} LatestExists(s: set<nat>, t: Times)
    requires s <= t.Keys && s != {}
    ensures exists m :: IsLatest(s, t, m)
    decreases |s|
  {
    var x :| x in s;
    if s == {x} {
      assert IsLatest(s, t, x);
    } else {
      LatestExists(s - {x}, t);
      var o :| IsLatest(s - {x}, t, o);
      var m := if Newer(t, x, o) then x else o;
      forall y | y in s && y != m
        ensures Newer(t, m, y)
      {
        if y != x && y != o { assert y in s - {x} && Newer(t, o, y); }
      }
      assert IsLatest(s, t, m);
    }
  }

  /** Selecting the latest element first leaves the newest `n - 1` of the rest to select. */
  lemma TopWithLatest(s: set<nat>, t: Times, n: nat, m: nat)
    requires s <= t.Keys && IsLatest(s, t, m) && n > 0
    ensures Top(s, t, n) == {m} + Top(s - {m}, t, n - 1)
  {
    assert Above(s, t, m) == {};
    forall x | x in s - {m}
      ensures |Above(s, t, x)| == |Above(s - {m}, t, x)| + 1
    {
      assert Above(s, t, x) == Above(s - {m}, t, x) + {m};
    }
  }
}
