/** The fixed-window rate limiter: one bucket per key in a map that is updated in
    place, and one prune timer that all keys share. */
module RateLimit {
  import opened Clock

  datatype Limits = Limits(limit: int, window: int)
  datatype Bucket = Bucket(start: Time, used: int)
  datatype State = State(nextPrune: Time, buckets: map<string, Bucket>)

  /** The bucket that a missing map entry reads as. */
  const NO_BUCKET := Bucket(ZERO_TIME, 0)
  const EMPTY := State(ZERO_TIME, map[])

  predicate Elapsed(l: Limits, b: Bucket, now: Time) {
    now - b.start >= l.window
  }

  function Lookup(buckets: map<string, Bucket>, key: string): Bucket {
    if key in buckets then buckets[key] else NO_BUCKET
  }

  predicate PruneDue(s: State, now: Time) {
    s.buckets != map[] && (s.nextPrune == ZERO_TIME || s.nextPrune <= now)
  }

  function Pruned(l: Limits, s: State, now: Time): State {
    if PruneDue(s, now)
    then State(now + l.window, map k | k in s.buckets && !Elapsed(l, s.buckets[k], now) :: s.buckets[k])
    else s
  }

  /** What one call does to the bucket of its own key, and whether it is allowed. */
  function Charge(l: Limits, b: Bucket, now: Time): (Bucket, bool) {
    if b.start == ZERO_TIME || Elapsed(l, b, now) then (Bucket(now, 1), true)
    else if b.used >= l.limit then (b, false)
    else (Bucket(b.start, b.used + 1), true)
  }

  /** One whole call: prune, then charge the key's bucket. */
  function Allowed(l: Limits, s: State, key: string, now: Time): (State, bool) {
    var p := Pruned(l, s, now);
    var (b, ok) := Charge(l, Lookup(p.buckets, key), now);
    (if ok then State(p.nextPrune, p.buckets[key := b]) else p, ok)
  }

  class Limiter {
    const limits: Limits
    var nextPrune: Time
    var buckets: map<string, Bucket>

    ghost function Snapshot(): State
      reads this
    {
      State(nextPrune, buckets)
    }

    constructor (limit: int, window: int)
      ensures limits == Limits(limit, window) && Snapshot() == EMPTY
    {
      limits := Limits(limit, window);
      nextPrune, buckets := ZERO_TIME, map[];
    }

    /** The clock is read once, under the lock; `now` is that reading. */
    method Allow(key: string, now: Time) returns (ok: bool)
      modifies this
      ensures (Snapshot(), ok) == Allowed(limits, old(Snapshot()), key, now)
    {
      PruneExpired(now);
      var b := NO_BUCKET;
      if key in buckets {
        b := buckets[key];
      }
      if b.start == ZERO_TIME || now - b.start >= limits.window {
        buckets := buckets[key := Bucket(now, 1)];
        return true;
      }
      if b.used >= limits.limit {
        return false;
      }
      buckets := buckets[key := Bucket(b.start, b.used + 1)];
      return true;
    }

    method PruneExpired(now: Time)
      modifies this
      ensures Snapshot() == Pruned(limits, old(Snapshot()), now)
    {
      if buckets == map[] || (nextPrune != ZERO_TIME && now < nextPrune) {
        return;
      }
      ghost var was := buckets;
      var todo := buckets.Keys;
      while todo != {}
        invariant todo <= was.Keys && nextPrune == old(nextPrune)
        invariant buckets == map k | k in was && (k in todo || !Elapsed(limits, was[k], now)) :: was[k]
        decreases todo
      {
        var key :| key in todo;
        if now - buckets[key].start >= limits.window {
          buckets := buckets - {key};
        }
        todo := todo - {key};
      }
      nextPrune := now + limits.window;
    }
  }

  // ----- whole runs

  datatype Call = Call(key: string, at: Time)

  /** The calls of a run, in lock order, under a clock that never goes backwards. */
  ghost predicate Clocked(calls: seq<Call>) {
    && (forall i :: 0 <= i < |calls| ==> ZERO_TIME < calls[i].at)
    && (forall i, j :: 0 <= i <= j < |calls| ==> calls[i].at <= calls[j].at)
  }

  function Run(l: Limits, calls: seq<Call>): (r: (State, seq<bool>))
    ensures |r.1| == |calls|
  {
    if calls == [] then (EMPTY, [])
    else
      var n := |calls| - 1;
      var (s, answers) := Run(l, calls[..n]);
      var (s', ok) := Allowed(l, s, calls[n].key, calls[n].at);
      (s', answers + [ok])
  }

  function Answers(l: Limits, calls: seq<Call>): (r: seq<bool>)
    ensures |r| == |calls|
  {
    Run(l, calls).1
  }

  lemma RunAppend(l: Limits, calls: seq<Call>, c: Call)
    ensures var (s, answers) := Run(l, calls);
            var (s', ok) := Allowed(l, s, c.key, c.at);
            Run(l, calls + [c]) == (s', answers + [ok])
  {
    assert (calls + [c])[..|calls|] == calls;
  }

  /** The reference limiter: one counter, no map, no other keys and no pruning. */
  function SoloRun(l: Limits, times: seq<Time>): (r: (Bucket, seq<bool>))
    ensures |r.1| == |times|
  {
    if times == [] then (NO_BUCKET, [])
    else
      var n := |times| - 1;
      var (b, answers) := SoloRun(l, times[..n]);
      var (b', ok) := Charge(l, b, times[n]);
      (b', answers + [ok])
  }

  /** The times of the calls made for one key. */
  function TimesOf(calls: seq<Call>, key: string): seq<Time> {
    if calls == [] then []
    else
      var n := |calls| - 1;
      TimesOf(calls[..n], key) + if calls[n].key == key then [calls[n].at] else []
  }

  /** The answers given to the calls made for one key. */
  function AnswersTo(calls: seq<Call>, answers: seq<bool>, key: string): seq<bool>
    requires |calls| == |answers|
  {
    if calls == [] then []
    else
      var n := |calls| - 1;
      AnswersTo(calls[..n], answers[..n], key) + if calls[n].key == key then [answers[n]] else []
  }

  /** Every key's map entry agrees with its reference counter, except that an entry
      whose window is over may have been pruned. */
  ghost predicate Tracks(l: Limits, s: State, key: string, solo: Bucket, now: Time) {
    if key in s.buckets then s.buckets[key] == solo
    else solo.start == ZERO_TIME || Elapsed(l, solo, now)
  }

  /** Pruning first never changes what a call does to its own bucket. */
  lemma ChargeAfterPrune(l: Limits, s: State, key: string, solo: Bucket, now: Time)
    requires Tracks(l, s, key, solo, now)
    ensures Charge(l, Lookup(Pruned(l, s, now).buckets, key), now) == Charge(l, solo, now)
  {
  }

  lemma {:induction false} RunTracksSolo(l: Limits, calls: seq<Call>, key: string, now: Time)
    requires Clocked(calls)
    requires forall i :: 0 <= i < |calls| ==> calls[i].at <= now
    ensures Tracks(l, Run(l, calls).0, key, SoloRun(l, TimesOf(calls, key)).0, now)
    ensures AnswersTo(calls, Answers(l, calls), key) == SoloRun(l, TimesOf(calls, key)).1
  {
    if calls != [] {
      var n := |calls| - 1;
      RunTracksSolo(l, calls[..n], key, calls[n].at);
      assert Answers(l, calls)[..n] == Answers(l, calls[..n]);
      var ts := TimesOf(calls, key);
      if calls[n].key == key {
        assert ts[..|ts| - 1] == TimesOf(calls[..n], key);
        ChargeAfterPrune(l, Run(l, calls[..n]).0, key, SoloRun(l, TimesOf(calls[..n], key)).0, calls[n].at);
      } else {
        assert ts == TimesOf(calls[..n], key);
      }
    }
  }

  /** Pruning and the traffic of other keys are invisible: in any interleaving, a key
      gets exactly the answers the reference counter gives to that key's calls alone. */
  lemma NonInterference(l: Limits, calls: seq<Call>, key: string)
    requires Clocked(calls)
    ensures AnswersTo(calls, Answers(l, calls), key) == SoloRun(l, TimesOf(calls, key)).1
  {
    RunTracksSolo(l, calls, key, if calls == [] then ZERO_TIME else calls[|calls| - 1].at);
  }

  // ----- how much is allowed

  /** The number of allowed calls for `key` at times in the interval [lo, hi). */
  function AllowedIn(calls: seq<Call>, answers: seq<bool>, key: string, lo: Time, hi: Time): nat
    requires |calls| == |answers|
  {
    if calls == [] then 0
    else
      var n := |calls| - 1;
      AllowedIn(calls[..n], answers[..n], key, lo, hi)
      + if calls[n].key == key && answers[n] && lo <= calls[n].at < hi then 1 else 0
  }

  function SoloAllowedIn(times: seq<Time>, answers: seq<bool>, lo: Time, hi: Time): nat
    requires |times| == |answers|
  {
    if times == [] then 0
    else
      var n := |times| - 1;
      SoloAllowedIn(times[..n], answers[..n], lo, hi) + if answers[n] && lo <= times[n] < hi then 1 else 0
  }

  lemma {:induction false} ProjectionLengths(calls: seq<Call>, answers: seq<bool>, key: string)
    requires |calls| == |answers|
    ensures |AnswersTo(calls, answers, key)| == |TimesOf(calls, key)|
  {
    if calls != [] {
      var n := |calls| - 1;
      ProjectionLengths(calls[..n], answers[..n], key);
    }
  }

  lemma {:induction false} AllowedInIsSolo(calls: seq<Call>, answers: seq<bool>, key: string, lo: Time, hi: Time)
    requires |calls| == |answers|
    ensures |AnswersTo(calls, answers, key)| == |TimesOf(calls, key)|
    ensures AllowedIn(calls, answers, key, lo, hi) ==
            SoloAllowedIn(TimesOf(calls, key), AnswersTo(calls, answers, key), lo, hi)
  {
    ProjectionLengths(calls, answers, key);
    if calls != [] {
      var n := |calls| - 1;
      AllowedInIsSolo(calls[..n], answers[..n], key, lo, hi);
      var ts, bs := TimesOf(calls, key), AnswersTo(calls, answers, key);
      var ts', bs' := TimesOf(calls[..n], key), AnswersTo(calls[..n], answers[..n], key);
      if calls[n].key == key {
        assert ts[..|ts| - 1] == ts' && bs[..|bs| - 1] == bs';
        assert ts[|ts| - 1] == calls[n].at && bs[|bs| - 1] == answers[n];
      } else {
        assert ts == ts' && bs == bs';
      }
    }
  }

  /** The calls a window can admit: its first call is never refused. */
  function Quota(l: Limits): int {
    if l.limit > 1 then l.limit else 1
  }

  ghost predicate Increasing(times: seq<Time>) {
    && (forall i :: 0 <= i < |times| ==> ZERO_TIME < times[i])
    && (forall i, j :: 0 <= i <= j < |times| ==> times[i] <= times[j])
  }

  lemma {:induction false} TimesIncrease(calls: seq<Call>, key: string, now: Time)
    requires Clocked(calls) && forall i :: 0 <= i < |calls| ==> calls[i].at <= now
    ensures Increasing(TimesOf(calls, key))
    ensures forall t :: t in TimesOf(calls, key) ==> t <= now
  {
    if calls != [] {
      var n := |calls| - 1;
      TimesIncrease(calls[..n], key, calls[n].at);
      var ts := TimesOf(calls[..n], key);
      forall i | 0 <= i < |ts| ensures ts[i] <= calls[n].at { assert ts[i] in ts; }
      var all := TimesOf(calls, key);
      assert forall i :: 0 <= i < |ts| ==> all[i] == ts[i];
      assert |all| > |ts| ==> all[|ts|] == calls[n].at;
    }
  }

  /** n times x, by repeated addition. */
  function Scale(n: nat, x: int): int {
    if n == 0 then 0 else Scale(n - 1, x) + x
  }

  lemma OneMore(n: int, x: int)
    ensures (n + 1) * x == n * x + x
  {
  }

  lemma {:induction false} ScaleIsProduct(n: nat, x: int)
    ensures Scale(n, x) == n * x
  {
    if n > 0 {
      ScaleIsProduct(n - 1, x);
      OneMore(n - 1, x);
    }
  }

  lemma {:induction false} ScaleGrows(m: nat, n: nat, x: int)
    requires m <= n && x >= 0
    ensures 0 <= Scale(m, x) <= Scale(n, x)
  {
    if m < n {
      ScaleGrows(m, n - 1, x);
    } else if n > 0 {
      ScaleGrows(m - 1, n - 1, x);
    }
  }

  /** The allowed calls an interval starting at `lo` has seen when the window open now
      is at least the (m+1)-th to open since: what was left of the window open at `lo`,
      m full quotas, and the calls of the current window. */
  ghost predicate AfterWindows(l: Limits, b: Bucket, count: int, lo: Time, m: nat) {
    lo + Scale(m, l.window) <= b.start && count <= Quota(l) - 1 + Scale(m, Quota(l)) + b.used
  }

  ghost predicate WithinBudget(l: Limits, b: Bucket, count: int, lo: Time, n: nat, last: Time) {
    var hi := lo + Scale(n, l.window);
    && 1 <= b.used <= Quota(l) && ZERO_TIME < b.start <= last
    && (last < lo ==> count == 0)
    && (b.start < lo ==> count <= b.used - 1)
    && (lo <= b.start < hi ==> exists m: nat :: AfterWindows(l, b, count, lo, m))
    && (hi <= b.start ==> count <= Scale(n + 1, Quota(l)) - 1)
  }

  lemma AfterWindowsInside(l: Limits, b: Bucket, count: int, lo: Time, m: nat, n: nat)
    requires l.window > 0 && AfterWindows(l, b, count, lo, m) && b.used <= Quota(l)
    requires b.start < lo + Scale(n, l.window)
    ensures count <= Scale(n + 1, Quota(l)) - 1
  {
    if m >= n {
      ScaleGrows(n, m, l.window);
      assert false;
    }
    ScaleGrows(m + 1, n, Quota(l));
  }

  lemma BudgetMeans(l: Limits, b: Bucket, count: int, lo: Time, n: nat, last: Time)
    requires l.window > 0 && WithinBudget(l, b, count, lo, n, last)
    ensures count <= Scale(n + 1, Quota(l)) - 1
  {
    ScaleGrows(0, n, Quota(l));
    if lo <= b.start < lo + Scale(n, l.window) {
      var m: nat :| AfterWindows(l, b, count, lo, m);
      AfterWindowsInside(l, b, count, lo, m, n);
    }
  }

  lemma ChargeWithinBudget(l: Limits, b: Bucket, count: int, last: Time, now: Time, lo: Time, n: nat)
    requires l.window > 0 && ZERO_TIME < now && last <= now
    requires WithinBudget(l, b, count, lo, n, last)
    ensures var (b', ok) := Charge(l, b, now);
            var hit := ok && lo <= now < lo + Scale(n, l.window);
            WithinBudget(l, b', count + if hit then 1 else 0, lo, n, now)
  {
    var hi := lo + Scale(n, l.window);
    BudgetMeans(l, b, count, lo, n, last);
    var (b', ok) := Charge(l, b, now);
    var count' := count + if ok && lo <= now < hi then 1 else 0;
    if lo <= b.start < hi {
      var m: nat :| AfterWindows(l, b, count, lo, m);
      if ok && b' == Bucket(now, 1) && now < hi {
        assert AfterWindows(l, b', count', lo, m + 1);
      } else if b'.start == b.start {
        assert AfterWindows(l, b', count', lo, m);
      }
    } else if b.start < lo <= b'.start < hi {
      assert AfterWindows(l, b', count', lo, 0);
    }
  }

  lemma {:induction false} SoloWithinBudget(l: Limits, times: seq<Time>, lo: Time, n: nat)
    requires l.window > 0 && Increasing(times) && times != []
    ensures var (b, answers) := SoloRun(l, times);
            WithinBudget(l, b, SoloAllowedIn(times, answers, lo, lo + Scale(n, l.window)), lo, n, times[|times| - 1])
  {
    var k := |times| - 1;
    var hi := lo + Scale(n, l.window);
    var (b, answers) := SoloRun(l, times[..k]);
    assert SoloRun(l, times).1[..k] == answers;
    if k == 0 {
      assert times[..0] == [];
      ScaleGrows(0, n, Quota(l));
      var first := Bucket(times[0], 1);
      assert SoloRun(l, times).0 == first;
      assert lo <= times[0] < hi ==> AfterWindows(l, first, 1, lo, 0);
    } else {
      SoloWithinBudget(l, times[..k], lo, n);
      ChargeWithinBudget(l, b, SoloAllowedIn(times[..k], answers, lo, hi), times[k - 1], times[k], lo, n);
    }
  }

  /** The sliding bound. However the calls of all keys interleave, any half-open
      interval of n windows admits fewer than n + 1 quotas for one key. */
  lemma SlidingBound(l: Limits, calls: seq<Call>, key: string, lo: Time, n: nat)
    requires l.window > 0 && n >= 1 && Clocked(calls)
    ensures AllowedIn(calls, Answers(l, calls), key, lo, lo + n * l.window) <= (n + 1) * Quota(l) - 1
  {
    ScaleIsProduct(n, l.window);
    ScaleIsProduct(n + 1, Quota(l));
    NonInterference(l, calls, key);
    TimesIncrease(calls, key, if calls == [] then ZERO_TIME else calls[|calls| - 1].at);
    AllowedInIsSolo(calls, Answers(l, calls), key, lo, lo + Scale(n, l.window));
    ScaleGrows(1, n + 1, Quota(l));
    var times := TimesOf(calls, key);
    if times != [] {
      var (b, answers) := SoloRun(l, times);
      SoloWithinBudget(l, times, lo, n);
      BudgetMeans(l, b, SoloAllowedIn(times, answers, lo, lo + Scale(n, l.window)), lo, n, times[|times| - 1]);
    }
  }

  // ----- the bound is met

  function Repeat(t: Time, n: nat): seq<Time> {
    seq(n, _ => t)
  }

  /** The busiest times of one key: a window opened just before `lo` and filled at `lo`, and
      then every later window filled at the instant it opens. */
  function BusyTimes(l: Limits, lo: Time, windows: nat): seq<Time> {
    if windows == 0 then [lo - 1] + Repeat(lo, Quota(l) - 1)
    else BusyTimes(l, lo, windows - 1) + Repeat(lo + Scale(windows, l.window) - 1, Quota(l))
  }

  /** Calls at these times leave the bucket `b`, and `count` of those in [lo, hi) are allowed. */
  ghost predicate Reaches(l: Limits, times: seq<Time>, lo: Time, hi: Time, b: Bucket, count: int) {
    SoloRun(l, times).0 == b && SoloAllowedIn(times, SoloRun(l, times).1, lo, hi) == count
  }

  lemma SoloAppend(l: Limits, times: seq<Time>, t: Time, lo: Time, hi: Time, b: Bucket, count: int)
    requires Reaches(l, times, lo, hi, b, count) && Charge(l, b, t).1
    ensures Reaches(l, times + [t], lo, hi, Charge(l, b, t).0, count + if lo <= t < hi then 1 else 0)
  {
    var answers := SoloRun(l, times).1;
    assert (times + [t])[..|times|] == times && (answers + [true])[..|times|] == answers;
  }

  lemma RepeatFirst(times: seq<Time>, t: Time, n: nat)
    requires n >= 1
    ensures times + Repeat(t, n) == times + [t] + Repeat(t, n - 1)
  {
  }

  lemma RepeatLast(times: seq<Time>, t: Time, n: nat)
    requires n >= 1
    ensures times + Repeat(t, n) == times + Repeat(t, n - 1) + [t]
  {
  }

  /** Filling an open window: every call is allowed while the quota lasts. */
  lemma {:induction false} SoloFill(l: Limits, times: seq<Time>, t: Time, n: nat, lo: Time, hi: Time, b: Bucket, count: int)
    requires Reaches(l, times, lo, hi, b, count)
    requires b.start != ZERO_TIME && !Elapsed(l, b, t) && 1 <= b.used && b.used + n <= Quota(l)
    ensures Reaches(l, times + Repeat(t, n), lo, hi, Bucket(b.start, b.used + n), count + if lo <= t < hi then n else 0)
  {
    if n == 0 {
      assert times + Repeat(t, n) == times;
    } else {
      var counted := count + if lo <= t < hi then n - 1 else 0;
      SoloFill(l, times, t, n - 1, lo, hi, b, count);
      SoloAppend(l, times + Repeat(t, n - 1), t, lo, hi, Bucket(b.start, b.used + n - 1), counted);
      RepeatLast(times, t, n);
    }
  }

  /** Opening a window and filling it at once. */
  lemma {:induction false} SoloOpenAndFill(
      l: Limits, times: seq<Time>, t: Time, n: nat, lo: Time, hi: Time, b: Bucket, count: int)
    requires Reaches(l, times, lo, hi, b, count)
    requires l.window > 0 && t != ZERO_TIME && 1 <= n <= Quota(l) && (b.start == ZERO_TIME || Elapsed(l, b, t))
    ensures Reaches(l, times + Repeat(t, n), lo, hi, Bucket(t, n), count + if lo <= t < hi then n else 0)
  {
    SoloAppend(l, times, t, lo, hi, b, count);
    SoloFill(l, times + [t], t, n - 1, lo, hi, Bucket(t, 1), count + if lo <= t < hi then 1 else 0);
    RepeatFirst(times, t, n);
  }

  lemma {:induction false} BusyTimesIncrease(l: Limits, lo: Time, windows: nat)
    requires l.window >= 2 && lo >= 2
    ensures Increasing(BusyTimes(l, lo, windows))
    ensures forall t :: t in BusyTimes(l, lo, windows) ==> t < lo + Scale(windows + 1, l.window) - 1
  {
    if windows > 0 {
      BusyTimesIncrease(l, lo, windows - 1);
      ScaleGrows(0, windows, l.window);
      IncreasingAppend(BusyTimes(l, lo, windows - 1), lo + Scale(windows, l.window) - 1, Quota(l));
    }
  }

  lemma IncreasingAppend(times: seq<Time>, t: Time, n: nat)
    requires Increasing(times) && ZERO_TIME < t && forall x :: x in times ==> x < t
    ensures Increasing(times + Repeat(t, n))
    ensures forall x :: x in times + Repeat(t, n) ==> x <= t
  {
    var all := times + Repeat(t, n);
    forall i | 0 <= i < |times| ensures all[i] < t {
      assert times[i] in times;
    }
  }

  lemma FirstWindowFilled(l: Limits, lo: Time, hi: Time)
    requires l.window >= 2 && lo >= 2 && lo < hi
    ensures Reaches(l, [lo - 1] + Repeat(lo, Quota(l) - 1), lo, hi, Bucket(lo - 1, Quota(l)), Quota(l) - 1)
  {
    assert Reaches(l, [], lo, hi, NO_BUCKET, 0);
    SoloAppend(l, [], lo - 1, lo, hi, NO_BUCKET, 0);
    assert [] + [lo - 1] == [lo - 1];
    SoloFill(l, [lo - 1], lo, Quota(l) - 1, lo, hi, Bucket(lo - 1, 1), 0);
  }

  lemma {:induction false} NextWindowFilled(l: Limits, times: seq<Time>, open: Time, lo: Time, hi: Time, windows: nat)
    requires l.window >= 2 && lo >= 2 && lo <= open + l.window < hi && open > 0
    requires Reaches(l, times, lo, hi, Bucket(open, Quota(l)), Scale(windows, Quota(l)) - 1)
    ensures Reaches(l, times + Repeat(open + l.window, Quota(l)), lo, hi,
                    Bucket(open + l.window, Quota(l)), Scale(windows + 1, Quota(l)) - 1)
  {
    SoloOpenAndFill(l, times, open + l.window, Quota(l), lo, hi,
                    Bucket(open, Quota(l)), Scale(windows, Quota(l)) - 1);
  }

  /** Filled so, the first window and the next `windows` ones admit all but one call of
      their quotas from `lo` on. */
  lemma {:induction false} BusyTimesAllowed(l: Limits, lo: Time, windows: nat, hi: Time)
    requires l.window >= 2 && lo >= 2 && lo < hi && lo + Scale(windows, l.window) - 1 < hi
    ensures Reaches(l, BusyTimes(l, lo, windows), lo, hi,
                    Bucket(lo + Scale(windows, l.window) - 1, Quota(l)), Scale(windows + 1, Quota(l)) - 1)
  {
    if windows == 0 {
      FirstWindowFilled(l, lo, hi);
      assert Scale(1, Quota(l)) == Quota(l);
    } else {
      ScaleGrows(0, windows - 1, l.window);
      BusyTimesAllowed(l, lo, windows - 1, hi);
      NextWindowFilled(l, BusyTimes(l, lo, windows - 1), lo + Scale(windows - 1, l.window) - 1, lo, hi, windows);
    }
  }

  function CallsFor(key: string, times: seq<Time>): (calls: seq<Call>)
    ensures |calls| == |times| && forall i :: 0 <= i < |times| ==> calls[i] == Call(key, times[i])
  {
    seq(|times|, i requires 0 <= i < |times| => Call(key, times[i]))
  }

  lemma {:induction false} TimesOfCallsFor(key: string, times: seq<Time>)
    ensures TimesOf(CallsFor(key, times), key) == times
  {
    if times != [] {
      var n := |times| - 1;
      assert CallsFor(key, times)[..n] == CallsFor(key, times[..n]);
      TimesOfCallsFor(key, times[..n]);
    }
  }

  /** A run of one key's calls admits what the reference counter admits. */
  lemma {:induction false} OneKeyAllowed(l: Limits, key: string, times: seq<Time>, lo: Time, hi: Time, count: int)
    requires Increasing(times) && SoloAllowedIn(times, SoloRun(l, times).1, lo, hi) == count
    ensures Clocked(CallsFor(key, times))
    ensures AllowedIn(CallsFor(key, times), Answers(l, CallsFor(key, times)), key, lo, hi) == count
  {
    var calls := CallsFor(key, times);
    TimesOfCallsFor(key, times);
    NonInterference(l, calls, key);
    AllowedInIsSolo(calls, Answers(l, calls), key, lo, hi);
  }

  /** The bound is met, for every limit, every window longer than one instant, every
      number of windows and every interval: some run admits exactly n + 1 quotas less
      one. */
  lemma {:induction false} SlidingBoundIsTight(l: Limits, key: string, lo: Time, n: nat) returns (calls: seq<Call>)
    requires l.window >= 2 && n >= 1 && lo >= 2
    ensures Clocked(calls)
    ensures AllowedIn(calls, Answers(l, calls), key, lo, lo + n * l.window) == (n + 1) * Quota(l) - 1
  {
    ScaleIsProduct(n, l.window);
    ScaleIsProduct(n + 1, Quota(l));
    ScaleGrows(1, n, l.window);
    var times, hi := BusyTimes(l, lo, n), lo + Scale(n, l.window);
    calls := CallsFor(key, times);
    BusyTimesIncrease(l, lo, n);
    BusyTimesAllowed(l, lo, n, hi);
    OneKeyAllowed(l, key, times, lo, hi, (n + 1) * Quota(l) - 1);
  }

  lemma {:induction false} SoloWiden(times: seq<Time>, answers: seq<bool>, lo: Time, lo': Time, hi: Time)
    requires |times| == |answers| && lo' <= lo
    ensures SoloAllowedIn(times, answers, lo, hi) <= SoloAllowedIn(times, answers, lo', hi)
  {
    if times != [] {
      var k := |times| - 1;
      SoloWiden(times[..k], answers[..k], lo, lo', hi);
    }
  }

  lemma {:induction false} SoloExtend(times: seq<Time>, answers: seq<bool>, lo: Time, hi: Time, hi': Time)
    requires |times| == |answers| && hi <= hi'
    ensures SoloAllowedIn(times, answers, lo, hi) <= SoloAllowedIn(times, answers, lo, hi')
  {
    if times != [] {
      var k := |times| - 1;
      SoloExtend(times[..k], answers[..k], lo, hi, hi');
    }
  }

  /** A bucket never counts a call that was not allowed since the bucket opened. */
  lemma {:induction false} SoloUsedWasAllowed(l: Limits, times: seq<Time>, now: Time)
    requires Increasing(times) && forall t :: t in times ==> t <= now
    ensures var (b, answers) := SoloRun(l, times);
            b.used <= SoloAllowedIn(times, answers, b.start, now + 1) && (times != [] ==> b.start <= now)
  {
    if times != [] {
      var k := |times| - 1;
      SoloUsedWasAllowed(l, times[..k], times[k]);
      assert times[k] in times;
      var (b, answers) := SoloRun(l, times[..k]);
      assert SoloRun(l, times).1[..k] == answers;
      SoloExtend(times[..k], answers, b.start, times[k] + 1, now + 1);
    }
  }

  /** A call is refused only when the window just before it already admitted `limit`
      calls for the same key. */
  lemma {:induction false} DenialNeedsFullWindow(l: Limits, calls: seq<Call>, key: string, now: Time)
    requires Clocked(calls) && ZERO_TIME < now && forall i :: 0 <= i < |calls| ==> calls[i].at <= now
    requires !Answers(l, calls + [Call(key, now)])[|calls|]
    ensures AllowedIn(calls, Answers(l, calls), key, now - l.window + 1, now + 1) >= l.limit
  {
    var times, answers, lo := TimesOf(calls, key), Answers(l, calls), now - l.window + 1;
    assert SoloAllowedIn(times, SoloRun(l, times).1, lo, now + 1) >= l.limit by {
      DenialIsSolo(l, calls, key, now);
      TimesIncrease(calls, key, now);
      SoloFullWindow(l, times, now);
    }
    assert AnswersTo(calls, answers, key) == SoloRun(l, times).1 by {
      RunTracksSolo(l, calls, key, now);
    }
    AllowedInIsSolo(calls, answers, key, lo, now + 1);
  }

  lemma SoloFullWindow(l: Limits, times: seq<Time>, now: Time)
    requires Increasing(times) && forall t :: t in times ==> t <= now
    requires var b := SoloRun(l, times).0; b.used >= l.limit && now - l.window < b.start
    ensures SoloAllowedIn(times, SoloRun(l, times).1, now - l.window + 1, now + 1) >= l.limit
  {
    var (b, answers) := SoloRun(l, times);
    SoloUsedWasAllowed(l, times, now);
    SoloWiden(times, answers, b.start, now - l.window + 1, now + 1);
  }

  lemma DenialIsSolo(l: Limits, calls: seq<Call>, key: string, now: Time)
    requires Clocked(calls) && forall i :: 0 <= i < |calls| ==> calls[i].at <= now
    requires !Answers(l, calls + [Call(key, now)])[|calls|]
    ensures AnswersTo(calls, Answers(l, calls), key) == SoloRun(l, TimesOf(calls, key)).1
    ensures var b := SoloRun(l, TimesOf(calls, key)).0;
            b.used >= l.limit && now - l.window < b.start
  {
    RunAppend(l, calls, Call(key, now));
    RunTracksSolo(l, calls, key, now);
    ChargeAfterPrune(l, Run(l, calls).0, key, SoloRun(l, TimesOf(calls, key)).0, now);
  }

  // ----- garbage

  ghost predicate Tidy(l: Limits, s: State, now: Time) {
    && (s.nextPrune == ZERO_TIME ==> forall k :: k in s.buckets ==> s.buckets[k].start == now)
    && (s.nextPrune != ZERO_TIME ==> s.nextPrune - l.window <= now)
    && (s.nextPrune != ZERO_TIME ==> forall k :: k in s.buckets ==> s.nextPrune - 2 * l.window < s.buckets[k].start)
  }

  lemma {:induction false} RunStaysTidy(l: Limits, calls: seq<Call>)
    requires l.window > 0 && calls != [] && Clocked(calls)
    ensures Tidy(l, Run(l, calls).0, calls[|calls| - 1].at)
    ensures Run(l, calls).0.nextPrune == ZERO_TIME ==> Run(l, calls).0.buckets != map[]
    ensures forall k :: k in Run(l, calls).0.buckets ==>
              calls[|calls| - 1].at - Run(l, calls).0.buckets[k].start < 2 * l.window
  {
    var n := |calls| - 1;
    if n > 0 {
      RunStaysTidy(l, calls[..n]);
    }
  }

  /** Lazy pruning bounds the garbage: after any call every bucket left in the map is
      younger than two windows. */
  lemma BucketsAreYoung(l: Limits, calls: seq<Call>, key: string)
    requires l.window > 0 && calls != [] && Clocked(calls)
    requires key in Run(l, calls).0.buckets
    ensures calls[|calls| - 1].at - Run(l, calls).0.buckets[key].start < 2 * l.window
  {
    RunStaysTidy(l, calls);
  }

  // ----- bucket keys

  /** The actions the request handlers pass to the limiter. */
  const ACTIONS: set<string> := {
    "login-options", "login-verify", "register-options", "register-verify", "signup-options", "signup-verify"
  }

  function BucketKey(action: string, ip: string): string {
    action + ":" + ip
  }

  /** Two requests share a bucket only when both their action and their client address
      agree, whatever the address text is. */
  lemma BucketKeysAreDistinct(a1: string, ip1: string, a2: string, ip2: string)
    requires a1 in ACTIONS && a2 in ACTIONS
    ensures BucketKey(a1, ip1) == BucketKey(a2, ip2) <==> a1 == a2 && ip1 == ip2
  {
    if BucketKey(a1, ip1) == BucketKey(a2, ip2) {
      var k := BucketKey(a1, ip1);
      assert k[|a1|] == ':' && k[|a2|] == ':';
      assert forall i :: 0 <= i < |a1| ==> k[i] == a1[i];
      assert forall i :: 0 <= i < |a2| ==> k[i] == a2[i];
      assert |a1| == |a2|;
      assert k[..|a1|] == a1 && k[..|a2|] == a2;
      assert k[|a1| + 1..] == ip1 && k[|a2| + 1..] == ip2;
    }
  }
}
