/**
 * Counting argument used by every cooldown in the system: moments that keep a
 * minimum distance cannot crowd into a short window.
 */
module Spacing {
  import opened Arithmetic

  /** Every moment comes at least `gap` after the ones before it. */
  ghost predicate Spaced(ts: seq<int>, gap: nat) {
    forall i, j :: 0 <= i < j < |ts| ==> ts[j] - ts[i] >= gap
  }

  lemma {:induction false} SpacedSpan(ts: seq<int>, gap: nat, i: nat, j: nat)
    requires Spaced(ts, gap) && i <= j < |ts|
    ensures ts[j] - ts[i] >= (j - i) * gap
    decreases j
  {
    if i < j {
      SpacedSpan(ts, gap, i, j - 1);
      assert (j - i) * gap == (j - 1 - i) * gap + gap;
    }
  }

  /** A set of naturals between two bounds. */
  lemma {:induction false} BoundedSet(S: set<nat>, lo: nat, hi: nat)
    requires lo <= hi && forall i :: i in S ==> lo <= i < hi
    ensures |S| <= hi - lo
    decreases hi - lo
  {
    if lo < hi {
      BoundedSet(S - {lo}, lo + 1, hi);
    } else {
      assert S == {};
    }
  }

  /** At most 1 + floor(T / gap) moments that are `gap` apart fit into a window of length T. */
  lemma SpacedCount(ts: seq<int>, gap: nat, from: int, T: nat)
    requires Spaced(ts, gap) && gap > 0
    requires forall i :: 0 <= i < |ts| ==> from <= ts[i] <= from + T
    ensures |ts| <= 1 + T / gap
  {
    if |ts| > 0 {
      SpacedSpan(ts, gap, 0, |ts| - 1);
      QuotientBound(|ts| - 1, gap, T);
    }
  }

  /** Appending a moment far enough from the last one keeps the spacing. */
  lemma SpacedAppend(ts: seq<int>, gap: nat, t: int)
    requires Spaced(ts, gap)
    requires ts == [] || t - ts[|ts| - 1] >= gap
    ensures Spaced(ts + [t], gap)
  {
    assert forall i :: 0 <= i < |ts| ==> t - ts[i] >= gap;
  }
}
