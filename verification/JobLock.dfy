/**
 * The distributed lock for background jobs (backend/src/utils/jobLock.ts): any number of
 * replicas, started and stopped at any time, tick with the same interval at their own phase;
 * a tick runs the job only if it wins the lock key. Timers are exact and share one clock.
 */
module JobLock {
  import opened Base
  import opened Arithmetic
  import opened R = Redis

  const MIN_TTL: nat := 5_000

  /** `Math.max(Math.floor(intervalMs * 0.9), 5_000)` */
  function Ttl(interval: nat): nat {
    if interval * 9 / 10 > MIN_TTL then interval * 9 / 10 else MIN_TTL
  }

  /** The state of the connection to Redis when a tick asks for the lock. */
  datatype Link = Up | Absent | Failing

  /** One runExclusive call: the new store, and whether the job ran. */
  function RunExclusiveStep(st: Store, job: nat, ttl: nat, now: int, link: Link): (Store, bool) {
    if link.Up? then SetNx(st, JobKey(job), 1, ttl, now) else (st, true)
  }

  // ---------------------------------------------------------------- replicas and their ticks

  datatype Replica = Replica(start: int, immediate: bool, death: Option<int>)

  datatype Tick = Tick(time: int, replica: nat)

  predicate AliveAt(r: Replica, t: int) {
    r.death.None? || t < r.death.value
  }

  /** setInterval fires every `interval` ms after the start; `immediate` adds a tick at the start. */
  predicate TicksAt(r: Replica, interval: nat, t: int)
    requires interval > 0
  {
    && (if r.immediate then t >= r.start else t >= r.start + interval)
    && (t - r.start) % interval == 0
    && AliveAt(r, t)
  }

  /** `ticks` are all the ticks of all the replicas up to `horizon`, in order of time. */
  ghost predicate Schedule(rs: seq<Replica>, interval: nat, horizon: int, ticks: seq<Tick>)
    requires interval > 0
  {
    && (forall i, j :: 0 <= i < j < |ticks| ==> ticks[i].time <= ticks[j].time)
    && (forall i :: 0 <= i < |ticks| ==>
          ticks[i].replica < |rs| && TicksAt(rs[ticks[i].replica], interval, ticks[i].time))
    && (forall n, t :: 0 <= n < |rs| && t <= horizon && TicksAt(rs[n], interval, t) ==> Tick(t, n) in ticks)
  }

  /** The lock store and the ticks that ran the job, after processing `ticks` with Redis up. */
  function Play(ticks: seq<Tick>, job: nat, ttl: nat): (Store, seq<Tick>) {
    if ticks == [] then (map[], [])
    else
      var p := Play(Front(ticks), job, ttl);
      var r := RunExclusiveStep(p.0, job, ttl, Last(ticks).time, Up);
      (r.0, if r.1 then p.1 + [Last(ticks)] else p.1)
  }

  function Runs(ticks: seq<Tick>, job: nat, ttl: nat): seq<Tick> {
    Play(ticks, job, ttl).1
  }

  // ---------------------------------------------------------------- the lock

  /** The key holds exactly the lock of the last run. */
  lemma {:induction false} LockOfLastRun(ticks: seq<Tick>, job: nat, ttl: nat)
    ensures var (st, runs) := Play(ticks, job, ttl);
            if runs == [] then JobKey(job) !in st
            else JobKey(job) in st && st[JobKey(job)].expires == Some(Last(runs).time + ttl)
  {
    if ticks != [] { LockOfLastRun(Front(ticks), job, ttl); }
  }

  /** Runs of the job are ticks, in order. */
  lemma {:induction false} RunsAreTicks(ticks: seq<Tick>, job: nat, ttl: nat)
    requires forall i, j :: 0 <= i < j < |ticks| ==> ticks[i].time <= ticks[j].time
    ensures forall r :: r in Runs(ticks, job, ttl) ==> r in ticks
  {
    if ticks != [] {
      RunsAreTicks(Front(ticks), job, ttl);
      forall r | r in Runs(ticks, job, ttl) ensures r in ticks {
        if r in Runs(Front(ticks), job, ttl) { assert r in Front(ticks); }
      }
    }
  }

  /** No two runs closer than the time to live, whatever the phases of the replicas. */
  lemma {:induction false} RunsAtLeastTtlApart(ticks: seq<Tick>, job: nat, ttl: nat)
    requires forall i, j :: 0 <= i < j < |ticks| ==> ticks[i].time <= ticks[j].time
    ensures var runs := Runs(ticks, job, ttl);
            forall i, j :: 0 <= i < j < |runs| ==> runs[j].time - runs[i].time >= ttl
  {
    if ticks != [] {
      var before := Runs(Front(ticks), job, ttl);
      RunsAtLeastTtlApart(Front(ticks), job, ttl);
      LockOfLastRun(Front(ticks), job, ttl);
      var runs := Runs(ticks, job, ttl);
      forall i, j | 0 <= i < j < |runs|
        ensures runs[j].time - runs[i].time >= ttl
      {
        if j == |before| && i < |before| - 1 {
          assert before[|before| - 1].time - before[i].time >= ttl;
        }
      }
    }
  }

  lemma {:induction false} RunsGrow(ticks: seq<Tick>, job: nat, ttl: nat, p: nat)
    requires p <= |ticks|
    ensures Runs(ticks[..p], job, ttl) <= Runs(ticks, job, ttl)
    decreases |ticks| - p
  {
    if p < |ticks| {
      RunsGrow(ticks, job, ttl, p + 1);
      assert Front(ticks[..p + 1]) == ticks[..p];
    } else {
      assert ticks[..p] == ticks;
    }
  }

  /** A tick that comes a full time to live after run `i` is or follows a later run. */
  lemma NextRunBy(ticks: seq<Tick>, job: nat, ttl: nat, i: nat, p: nat)
    requires forall i, j :: 0 <= i < j < |ticks| ==> ticks[i].time <= ticks[j].time
    requires i < |Runs(ticks, job, ttl)| && p < |ticks|
    requires ticks[p].time >= Runs(ticks, job, ttl)[i].time + ttl && ttl > 0
    ensures i + 1 < |Runs(ticks, job, ttl)|
    ensures Runs(ticks, job, ttl)[i + 1].time <= ticks[p].time
  {
    var runs := Runs(ticks, job, ttl);
    var upTo := Runs(ticks[..p + 1], job, ttl);
    assert Front(ticks[..p + 1]) == ticks[..p];
    LockOfLastRun(ticks[..p], job, ttl);
    assert upTo != [] && Last(upTo).time > ticks[p].time - ttl;
    RunsGrow(ticks, job, ttl, p + 1);
    var k := |upTo| - 1;
    assert runs[k] == upTo[k];
    RunsAreTicks(ticks[..p + 1], job, ttl);
    assert Last(upTo) in ticks[..p + 1];
    RunsAtLeastTtlApart(ticks, job, ttl);
    assert k > i;
  }

  // ---------------------------------------------------------------- theorems

  /** The lock expires before the holder's next tick exactly for intervals of at least five seconds. */
  lemma TtlFitsInterval(interval: nat)
    ensures Ttl(interval) <= interval <==> interval >= MIN_TTL
  {
  }

  lemma NextTick(start: int, interval: nat, t: int, m: nat)
    requires interval > 0 && (t - start) % interval == 0
    ensures (t + m * interval - start) % interval == 0
  {
    var q := (t - start) / interval;
    assert t + m * interval - start == (q + m) * interval;
    MultipleMod(q + m, interval);
  }

  /**
   * If the replica behind a run is still alive `m` intervals later, `m` intervals covering the time
   * to live, then the next run has happened by then. For intervals of five seconds and more, m = 1.
   */
  lemma NextRunWithWinnerAlive(
    rs: seq<Replica>, interval: nat, horizon: int, ticks: seq<Tick>, job: nat, i: nat, m: nat)
    requires interval > 0 && Schedule(rs, interval, horizon, ticks)
    requires i < |Runs(ticks, job, Ttl(interval))| && m * interval >= Ttl(interval)
    requires var r := Runs(ticks, job, Ttl(interval))[i];
             && r.replica < |rs| && r.time + m * interval <= horizon && AliveAt(rs[r.replica], r.time + m * interval)
    ensures i + 1 < |Runs(ticks, job, Ttl(interval))|
    ensures Runs(ticks, job, Ttl(interval))[i + 1].time <= Runs(ticks, job, Ttl(interval))[i].time + m * interval
  {
    var runs := Runs(ticks, job, Ttl(interval));
    var r := runs[i];
    RunsAreTicks(ticks, job, Ttl(interval));
    assert r in ticks;
    NextTick(rs[r.replica].start, interval, r.time, m);
    var next := Tick(r.time + m * interval, r.replica);
    assert next in ticks;
    var p :| 0 <= p < |ticks| && ticks[p] == next;
    NextRunBy(ticks, job, Ttl(interval), i, p);
  }

  /** Every job in the backend: runs at least `ttl` and at most one interval apart. */
  lemma RunsWithinOneInterval(rs: seq<Replica>, interval: nat, horizon: int, ticks: seq<Tick>, job: nat, i: nat)
    requires interval >= MIN_TTL && Schedule(rs, interval, horizon, ticks)
    requires i < |Runs(ticks, job, Ttl(interval))|
    requires var r := Runs(ticks, job, Ttl(interval))[i];
             && r.replica < |rs| && r.time + interval <= horizon && AliveAt(rs[r.replica], r.time + interval)
    ensures i + 1 < |Runs(ticks, job, Ttl(interval))|
    ensures var runs := Runs(ticks, job, Ttl(interval));
            Ttl(interval) <= runs[i + 1].time - runs[i].time <= interval
  {
    TtlFitsInterval(interval);
    NextRunWithWinnerAlive(rs, interval, horizon, ticks, job, i, 1);
    RunsAtLeastTtlApart(ticks, job, Ttl(interval));
  }

  /** Some tick of a started replica falls into every window as long as the interval. */
  lemma TickInWindow(r: Replica, interval: nat, from: int) returns (t: int)
    requires interval > 0 && from >= r.start + interval
    requires AliveAt(r, from + interval)
    ensures from <= t < from + interval && TicksAt(r, interval, t)
  {
    var q := (from - r.start) / interval;
    if (from - r.start) % interval == 0 {
      t := from;
    } else {
      t := r.start + (q + 1) * interval;
      assert from - r.start == q * interval + (from - r.start) % interval;
      MultipleMod(q + 1, interval);
    }
  }

  /**
   * If the winner dies but another started replica lives on, the next run comes less than
   * `ttl + interval` after the last one, for every interval.
   */
  lemma NextRunWithWinnerDead(
    rs: seq<Replica>, interval: nat, horizon: int, ticks: seq<Tick>, job: nat, i: nat, other: nat)
    requires interval > 0 && Schedule(rs, interval, horizon, ticks)
    requires i < |Runs(ticks, job, Ttl(interval))| && other < |rs|
    requires var until := Runs(ticks, job, Ttl(interval))[i].time + Ttl(interval);
             && rs[other].start + interval <= until && until + interval <= horizon
             && AliveAt(rs[other], until + interval)
    ensures i + 1 < |Runs(ticks, job, Ttl(interval))|
    ensures var runs := Runs(ticks, job, Ttl(interval));
            runs[i + 1].time < runs[i].time + Ttl(interval) + interval
  {
    var until := Runs(ticks, job, Ttl(interval))[i].time + Ttl(interval);
    var t := TickInWindow(rs[other], interval, until);
    assert Tick(t, other) in ticks;
    var p :| 0 <= p < |ticks| && ticks[p] == Tick(t, other);
    NextRunBy(ticks, job, Ttl(interval), i, p);
  }

  /** Below five seconds the bound is never met: any two runs are more than one interval apart. */
  lemma ShortIntervalsSkip(rs: seq<Replica>, interval: nat, horizon: int, ticks: seq<Tick>, job: nat, i: nat, j: nat)
    requires 0 < interval < MIN_TTL && Schedule(rs, interval, horizon, ticks)
    requires i < j < |Runs(ticks, job, Ttl(interval))|
    ensures Runs(ticks, job, Ttl(interval))[j].time - Runs(ticks, job, Ttl(interval))[i].time > interval
  {
    RunsAtLeastTtlApart(ticks, job, Ttl(interval));
  }
}
