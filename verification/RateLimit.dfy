/** The fixed-window limiter for socket events (checkSocketRateLimit in backend/src/services/presence.service.ts). */
module RateLimit {
  import opened Base
  import opened R = Redis

  const WINDOW: nat := 60_000

  /** INCR, and a window of a minute starts with the first call. */
  function CheckStep(st: Store, k: Key, max: nat, now: int): (Store, bool) {
    var (st', count) := IncrBy(st, k, 1, now);
    (if count == 1 then Expire(st', k, WINDOW, now) else st', count <= max)
  }

  /** The moments of the accepted calls, for calls made at `calls`. */
  function Play(calls: seq<int>, k: Key, max: nat): (Store, seq<int>) {
    if calls == [] then (map[], [])
    else
      var p := Play(Front(calls), k, max);
      var r := CheckStep(p.0, k, max, Last(calls));
      (r.0, if r.1 then p.1 + [Last(calls)] else p.1)
  }

  /**
   * `w` is when the current window started. Its accepted calls are the last `m` ones; at most
   * `max` more can lie less than a window before it.
   */
  ghost predicate Windows(st: Store, k: Key, max: nat, a: seq<int>, now: int, w: int, m: nat) {
    && m <= |a| && m <= max
    && (forall i :: 0 <= i < |a| ==> a[i] <= now)
    && (forall i :: 0 <= i < |a| - m ==> a[i] < w)
    && (forall i :: 0 <= i < |a| - m - max ==> a[i] < w - WINDOW)
    && (forall i :: |a| - m <= i < |a| ==> w <= a[i] < w + WINDOW)
    && (if k in st then
          && st[k].expires == Some(w + WINDOW) && w <= now
          && m == if st[k].value < max then st[k].value else max
        else a == [])
    && (k in st ==> st[k].value >= 1)
  }

  /** A call inside the window is accepted up to the limit. */
  lemma SameWindow(st: Store, k: Key, max: nat, a: seq<int>, now: int, now': int, w: int, m: nat)
    requires Windows(st, k, max, a, now, w, m) && now <= now' && Live(st, k, now')
    ensures var r := CheckStep(st, k, max, now');
            Windows(r.0, k, max, if r.1 then a + [now'] else a, now', w, if st[k].value + 1 <= max then m + 1 else m)
  {
  }

  /** A call after the window starts the next one. */
  lemma NextWindow(st: Store, k: Key, max: nat, a: seq<int>, now: int, now': int, w: int, m: nat)
    requires Windows(st, k, max, a, now, w, m) && now <= now' && !Live(st, k, now')
    ensures var r := CheckStep(st, k, max, now');
            Windows(r.0, k, max, if r.1 then a + [now'] else a, now', now', if max >= 1 then 1 else 0)
  {
  }

  lemma WindowsStep(st: Store, k: Key, max: nat, a: seq<int>, now: int, now': int, w: int, m: nat)
    returns (w': int, m': nat)
    requires Windows(st, k, max, a, now, w, m) && now <= now'
    ensures var r := CheckStep(st, k, max, now');
            var a' := if r.1 then a + [now'] else a;
            && Windows(r.0, k, max, a', now', w', m')
            && (r.1 ==> forall i :: 0 <= i <= |a| - 2 * max ==> i < |a| ==> a[i] < now' - WINDOW)
  {
    if Live(st, k, now') {
      SameWindow(st, k, max, a, now, now', w, m);
      w' := w;
      m' := if st[k].value + 1 <= max then m + 1 else m;
    } else {
      NextWindow(st, k, max, a, now, now', w, m);
      w' := now';
      m' := if max >= 1 then 1 else 0;
    }
  }

  lemma {:induction false} PlayWindows(calls: seq<int>, k: Key, max: nat) returns (w: int, m: nat)
    requires forall i, j :: 0 <= i < j < |calls| ==> calls[i] <= calls[j]
    ensures var (st, a) := Play(calls, k, max);
            && Windows(st, k, max, a, if calls == [] then 0 else Last(calls), w, m)
            && forall i, j :: 0 <= i && i + 2 * max <= j < |a| && i < j ==> a[j] - a[i] > WINDOW
  {
    if calls == [] {
      w, m := 0, 0;
    } else {
      var (st, a) := Play(Front(calls), k, max);
      w, m := PlayWindows(Front(calls), k, max);
      var before := if Front(calls) == [] then Last(calls) else Last(Front(calls));
      w, m := WindowsStep(st, k, max, a, before, Last(calls), w, m);
    }
  }

  lemma FarApart(calls: seq<int>, k: Key, max: nat, i: nat, j: nat)
    requires forall i, j :: 0 <= i < j < |calls| ==> calls[i] <= calls[j]
    requires max > 0 && i + 2 * max <= j < |Play(calls, k, max).1|
    ensures Play(calls, k, max).1[j] - Play(calls, k, max).1[i] > WINDOW
  {
    var w, m := PlayWindows(calls, k, max);
  }

  /** Any stretch of 60 seconds contains at most twice the limit of accepted calls. */
  lemma AtMostTwiceTheLimit(calls: seq<int>, k: Key, max: nat, from: int, lo: nat, hi: nat)
    requires forall i, j :: 0 <= i < j < |calls| ==> calls[i] <= calls[j]
    requires max > 0 && lo <= hi <= |Play(calls, k, max).1|
    requires forall i :: lo <= i < hi ==> from <= Play(calls, k, max).1[i] <= from + WINDOW
    ensures hi - lo <= 2 * max
  {
    if hi - lo > 2 * max { FarApart(calls, k, max, lo, lo + 2 * max); }
  }

  // ---------------------------------------------------------------- every answer

  /** A window: when it started, and how many calls it has seen. */
  datatype Window = Window(start: int, count: nat)

  /** The window of the last call: it starts with the first call after the one before it, and lasts a minute. */
  function WindowOf(calls: seq<int>): Window {
    if calls == [] then Window(0, 0)
    else
      var w, now := WindowOf(Front(calls)), Last(calls);
      if w.count > 0 && now < w.start + 60 * 1000 then Window(w.start, w.count + 1) else Window(now, 1)
  }

  lemma {:induction false} KeyIsWindow(calls: seq<int>, k: Key, max: nat)
    ensures var (st, w) := (Play(calls, k, max).0, WindowOf(calls));
            if calls == [] then k !in st else k in st && st[k] == Entry(w.count, Some(w.start + WINDOW)) && w.count > 0
  {
    if calls != [] { KeyIsWindow(Front(calls), k, max); }
  }

  /** A call is allowed if and only if it is among the first `max` of its window, allowed or not. */
  lemma AllowedExactly(calls: seq<int>, now: int, k: Key, max: nat)
    ensures CheckStep(Play(calls, k, max).0, k, max, now).1 <==> WindowOf(calls + [now]).count <= max
  {
    assert Front(calls + [now]) == calls;
    KeyIsWindow(calls, k, max);
  }

  /** The last calls of a sequence are those of its window. */
  lemma {:induction false} WindowCalls(calls: seq<int>)
    requires forall i, j :: 0 <= i < j < |calls| ==> calls[i] <= calls[j]
    ensures WindowOf(calls).count <= |calls|
    ensures forall i :: |calls| - WindowOf(calls).count <= i < |calls| ==> WindowOf(calls).start <= calls[i]
  {
    if calls != [] { WindowCalls(Front(calls)); }
  }

  /** A caller with fewer than `max` calls in the last minute is never refused. */
  lemma ModerateCallerAllowed(calls: seq<int>, now: int, k: Key, max: nat)
    requires forall i, j :: 0 <= i < j < |calls| ==> calls[i] <= calls[j]
    requires max > 0 && (|calls| < max || now - calls[|calls| - max] >= 60 * 1000)
    ensures CheckStep(Play(calls, k, max).0, k, max, now).1
  {
    AllowedExactly(calls, now, k, max);
    WindowCalls(calls);
    assert Front(calls + [now]) == calls;
  }
}
