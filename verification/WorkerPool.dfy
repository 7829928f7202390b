/** The latency probe's worker pool: unbuffered jobs, a samples channel with room for one
    sample per request, and a main goroutine that sends, waits, closes and drains. */
module WorkerPool {
  import opened Sequences
  import opened Wrappers

  datatype Sample = Sample(status: nat, duration: int, error: Option<string>)

  datatype Worker = Idle | Probing | Holding(sample: Sample) | Exited

  /** The main goroutine: sending jobs; waiting for the workers, jobs closed; about to
      close samples; draining them; done. */
  datatype Phase = Sending | Waiting | Closing | Draining | Done

  datatype State = State(
    requests: nat, toSend: nat, workers: seq<Worker>, phase: Phase, buffer: seq<Sample>, drained: seq<Sample>)

  datatype Step =
    | Deliver(w: nat)
    | Probe(w: nat, sample: Sample)
    | Put(w: nat)
    | CloseJobs
    | Leave(w: nat)
    | AllLeft
    | CloseSamples
    | Drain
    | Finish

  predicate AllExited(ws: seq<Worker>) {
    forall i :: 0 <= i < |ws| ==> ws[i] == Exited
  }

  predicate Enabled(s: State, step: Step) {
    match step
    case Deliver(w) => w < |s.workers| && s.workers[w] == Idle && s.phase == Sending && s.toSend > 0
    case Probe(w, _) => w < |s.workers| && s.workers[w] == Probing
    case Put(w) => w < |s.workers| && s.workers[w].Holding? && CanPut(s)
    case CloseJobs => s.phase == Sending && s.toSend == 0
    case Leave(w) => w < |s.workers| && s.workers[w] == Idle && s.phase != Sending
    case AllLeft => s.phase == Waiting && AllExited(s.workers)
    case CloseSamples => s.phase == Closing
    case Drain => s.phase == Draining && s.buffer != []
    case Finish => s.phase == Draining && s.buffer == []
  }

  /** A send on samples neither blocks nor follows the close. */
  predicate CanPut(s: State) {
    |s.buffer| < s.requests && s.phase != Draining && s.phase != Done
  }

  function Next(s: State, step: Step): State
    requires Enabled(s, step)
  {
    match step
    case Deliver(w) => s.(toSend := s.toSend - 1, workers := s.workers[w := Probing])
    case Probe(w, x) => s.(workers := s.workers[w := Holding(x)])
    case Put(w) => s.(buffer := s.buffer + [s.workers[w].sample], workers := s.workers[w := Idle])
    case CloseJobs => s.(phase := Waiting)
    case Leave(w) => s.(workers := s.workers[w := Exited])
    case AllLeft => s.(phase := Closing)
    case CloseSamples => s.(phase := Draining)
    case Drain => s.(buffer := s.buffer[1..], drained := s.drained + [s.buffer[0]])
    case Finish => s.(phase := Done)
  }

  predicate Initial(s: State, requests: nat, concurrency: nat) {
    && s == State(requests, requests, s.workers, Sending, [], [])
    && |s.workers| == concurrency && forall i :: 0 <= i < concurrency ==> s.workers[i] == Idle
  }

  ghost predicate Follows(s: State, s': State) {
    exists step :: Enabled(s, step) && s' == Next(s, step)
  }

  ghost predicate Behavior(states: seq<State>, requests: nat, concurrency: nat) {
    && |states| > 0 && Initial(states[0], requests, concurrency)
    && forall i :: 0 <= i < |states| - 1 ==> Follows(states[i], states[i + 1])
  }

  // ----- counting over the workers

  function Busy(w: Worker): nat { if w.Probing? || w.Holding? then 1 else 0 }

  /** The steps a worker's place stands for, in the measure. */
  function Weight(w: Worker): nat {
    match w
    case Exited => 0
    case Idle => 1
    case Holding(_) => 3
    case Probing => 4
  }

  function InFlight(ws: seq<Worker>): nat {
    if ws == [] then 0 else Busy(ws[0]) + InFlight(ws[1..])
  }

  function TotalWeight(ws: seq<Worker>): nat {
    if ws == [] then 0 else Weight(ws[0]) + TotalWeight(ws[1..])
  }

  lemma {:induction false} UpdateCounts(ws: seq<Worker>, i: nat, w: Worker)
    requires i < |ws|
    ensures InFlight(ws[i := w]) + Busy(ws[i]) == InFlight(ws) + Busy(w)
    ensures TotalWeight(ws[i := w]) + Weight(ws[i]) == TotalWeight(ws) + Weight(w)
  {
    if i == 0 {
      assert ws[0 := w][1..] == ws[1..];
    } else {
      assert ws[i := w][1..] == ws[1..][i - 1 := w];
      UpdateCounts(ws[1..], i - 1, w);
    }
  }

  lemma {:induction false} BusyIsCounted(ws: seq<Worker>, i: nat)
    requires i < |ws| && Busy(ws[i]) == 1
    ensures InFlight(ws) >= 1
  {
    if i > 0 { BusyIsCounted(ws[1..], i - 1); }
  }

  lemma {:induction false} ExitedAreFree(ws: seq<Worker>)
    requires AllExited(ws)
    ensures InFlight(ws) == 0
  {
    if ws != [] { ExitedAreFree(ws[1..]); }
  }

  lemma {:induction false} IdleAreFree(ws: seq<Worker>)
    requires forall i :: 0 <= i < |ws| ==> ws[i] == Idle
    ensures InFlight(ws) == 0 && TotalWeight(ws) == |ws|
  {
    if ws != [] { IdleAreFree(ws[1..]); }
  }

  // ----- the invariant

  ghost predicate Inv(s: State, requests: nat, concurrency: nat) {
    && s.requests == requests && |s.workers| == concurrency
    && s.toSend + InFlight(s.workers) + |s.buffer| + |s.drained| == requests
    && (s.phase != Sending ==> s.toSend == 0)
    && (s.phase == Closing || s.phase == Draining || s.phase == Done ==> AllExited(s.workers))
    && (s.drained != [] ==> s.phase == Draining || s.phase == Done)
    && (s.phase == Sending ==> forall i :: 0 <= i < concurrency ==> !s.workers[i].Exited?)
    && (s.phase == Done ==> s.buffer == [])
  }

  function PhaseRank(p: Phase): nat {
    match p
    case Sending => 4
    case Waiting => 3
    case Closing => 2
    case Draining => 1
    case Done => 0
  }

  function Measure(s: State): nat {
    5 * s.toSend + TotalWeight(s.workers) + |s.buffer| + PhaseRank(s.phase)
  }

  lemma {:induction false} NextKeepsInv(s: State, step: Step, requests: nat, concurrency: nat)
    requires Inv(s, requests, concurrency) && Enabled(s, step)
    ensures Inv(Next(s, step), requests, concurrency)
    ensures Measure(Next(s, step)) < Measure(s)
  {
    match step
    case Deliver(w) => UpdateCounts(s.workers, w, Probing);
    case Probe(w, x) => UpdateCounts(s.workers, w, Holding(x));
    case Put(w) => UpdateCounts(s.workers, w, Idle);
    case Leave(w) => UpdateCounts(s.workers, w, Exited);
    case _ =>
  }

  lemma {:induction false} FollowsKeepsInv(s: State, s': State, requests: nat, concurrency: nat)
    requires Inv(s, requests, concurrency) && Follows(s, s')
    ensures Inv(s', requests, concurrency) && Measure(s') < Measure(s)
  {
    var step :| Enabled(s, step) && s' == Next(s, step);
    NextKeepsInv(s, step, requests, concurrency);
  }

  lemma {:induction false} BehaviorKeepsInv(states: seq<State>, requests: nat, concurrency: nat, k: nat)
    requires Behavior(states, requests, concurrency) && k < |states|
    ensures Inv(states[k], requests, concurrency)
    ensures Measure(states[k]) + k <= 5 * requests + concurrency + 4
  {
    if k == 0 {
      IdleAreFree(states[0].workers);
    } else {
      BehaviorKeepsInv(states, requests, concurrency, k - 1);
      assert Follows(states[k - 1], states[k]);
      FollowsKeepsInv(states[k - 1], states[k], requests, concurrency);
    }
  }

  // ----- main results

  /** Conservation: in every schedule, at every moment, the jobs sent are the jobs in flight
      and the samples made. */
  lemma {:induction false} JobsAreConserved(states: seq<State>, requests: nat, concurrency: nat, k: nat)
    requires Behavior(states, requests, concurrency) && k < |states|
    ensures var s := states[k];
            requests - s.toSend == InFlight(s.workers) + |s.buffer| + |s.drained|
  {
    BehaviorKeepsInv(states, requests, concurrency, k);
  }

  /** A worker that holds a sample can send it at once: the channel has room and is open. */
  lemma {:induction false} SendsNeverBlock(states: seq<State>, requests: nat, concurrency: nat, k: nat, w: nat)
    requires Behavior(states, requests, concurrency) && k < |states|
    requires w < |states[k].workers| && states[k].workers[w].Holding?
    ensures Enabled(states[k], Put(w))
  {
    BehaviorKeepsInv(states, requests, concurrency, k);
    var s := states[k];
    BusyIsCounted(s.workers, w);
    if AllExited(s.workers) {
      assert false;
    }
  }

  lemma {:induction false} InvMakesProgress(s: State, requests: nat, concurrency: nat)
    requires Inv(s, requests, concurrency) && concurrency >= 1 && s.phase != Done
    ensures exists step :: Enabled(s, step)
  {
    if i :| 0 <= i < |s.workers| && s.workers[i] == Probing {
      assert Enabled(s, Probe(i, Sample(0, 0, None)));
    } else if i :| 0 <= i < |s.workers| && s.workers[i].Holding? {
      BusyIsCounted(s.workers, i);
      assert Enabled(s, Put(i));
    } else if s.phase == Sending {
      if s.toSend == 0 {
        assert Enabled(s, CloseJobs);
      } else {
        assert s.workers[0] == Idle;
        assert Enabled(s, Deliver(0));
      }
    } else if i :| 0 <= i < |s.workers| && s.workers[i] == Idle {
      assert Enabled(s, Leave(i));
    } else {
      assert AllExited(s.workers);
      assert Enabled(s, if s.phase == Waiting then AllLeft else if s.phase == Closing then CloseSamples
                        else if s.buffer == [] then Finish else Drain);
    }
  }

  /** The pool neither deadlocks nor runs forever: every schedule is bounded, and one that
      cannot go on has drained exactly one sample per request. */
  lemma {:induction false} PoolCompletes(states: seq<State>, requests: nat, concurrency: nat)
    requires Behavior(states, requests, concurrency) && concurrency >= 1
    ensures |states| <= 5 * requests + concurrency + 5
    ensures var last := states[|states| - 1];
            && ((exists step :: Enabled(last, step)) || last.phase == Done)
            && (last.phase == Done ==> |last.drained| == requests && AllExited(last.workers))
  {
    var n := |states| - 1;
    BehaviorKeepsInv(states, requests, concurrency, n);
    if states[n].phase == Done {
      ExitedAreFree(states[n].workers);
    } else {
      InvMakesProgress(states[n], requests, concurrency);
    }
  }

  // ----- tallies

  datatype Tally = Tally(
    statusCounts: map<nat, nat>, durations: seq<int>, errors: nat, errorCounts: map<string, nat>)

  function Bumped<K>(m: map<K, nat>, k: K): map<K, nat> {
    m[k := if k in m then m[k] + 1 else 1]
  }

  function TallyOf(xs: seq<Sample>): Tally {
    if xs == [] then Tally(map[], [], 0, map[])
    else
      var t, x := TallyOf(xs[..|xs| - 1]), xs[|xs| - 1];
      Tally(
        if x.status != 0 then Bumped(t.statusCounts, x.status) else t.statusCounts,
        if x.duration > 0 then t.durations + [x.duration] else t.durations,
        if x.error.Some? then t.errors + 1 else t.errors,
        if x.error.Some? then Bumped(t.errorCounts, x.error.value) else t.errorCounts)
  }

  method Summed(samples: seq<Sample>) returns (t: Tally)
    ensures t == TallyOf(samples)
  {
    var statusCounts: map<nat, nat>, errorCounts: map<string, nat> := map[], map[];
    var durations: seq<int>, errors := [], 0;
    for i := 0 to |samples|
      invariant Tally(statusCounts, durations, errors, errorCounts) == TallyOf(samples[..i])
    {
      assert samples[..i + 1][..i] == samples[..i];
      var got := samples[i];
      if got.status != 0 {
        statusCounts := statusCounts[got.status := (if got.status in statusCounts then statusCounts[got.status] else 0) + 1];
      }
      if got.duration > 0 {
        durations := durations + [got.duration];
      }
      if got.error.Some? {
        errors := errors + 1;
        var text := got.error.value;
        errorCounts := errorCounts[text := (if text in errorCounts then errorCounts[text] else 0) + 1];
      }
    }
    assert samples[..|samples|] == samples;
    return Tally(statusCounts, durations, errors, errorCounts);
  }

  ghost function Total<K>(m: map<K, nat>): nat
    decreases |m|
  {
    if m == map[] then 0
    else
      var k :| k in m;
      m[k] + Total(m - {k})
  }

  lemma {:induction false} TotalSplit<K>(m: map<K, nat>, k: K)
    requires k in m
    ensures Total(m) == m[k] + Total(m - {k})
    decreases |m|
  {
    var x :| x in m && Total(m) == m[x] + Total(m - {x});
    if x != k {
      TotalSplit(m - {x}, k);
      TotalSplit(m - {k}, x);
      assert m - {x} - {k} == m - {k} - {x};
    }
  }

  lemma {:induction false} TotalBumped<K>(m: map<K, nat>, k: K)
    ensures Total(Bumped(m, k)) == Total(m) + 1
  {
    var b := Bumped(m, k);
    TotalSplit(b, k);
    if k in m {
      TotalSplit(m, k);
      assert b - {k} == m - {k};
    } else {
      assert b - {k} == m;
    }
  }

  function WithoutStatus(xs: seq<Sample>): nat {
    if xs == [] then 0 else WithoutStatus(xs[..|xs| - 1]) + if xs[|xs| - 1].status == 0 then 1 else 0
  }

  function StatusCount(xs: seq<Sample>, status: nat): nat {
    if xs == [] then 0
    else StatusCount(xs[..|xs| - 1], status) + if xs[|xs| - 1].status == status then 1 else 0
  }

  function ErrorsIn(xs: seq<Sample>): nat {
    if xs == [] then 0 else ErrorsIn(xs[..|xs| - 1]) + if xs[|xs| - 1].error.Some? then 1 else 0
  }

  function ErrorCount(xs: seq<Sample>, text: string): nat {
    if xs == [] then 0
    else ErrorCount(xs[..|xs| - 1], text) + if xs[|xs| - 1].error == Some(text) then 1 else 0
  }

  predicate Timed(x: Sample) { x.duration > 0 }
  function DurationOf(x: Sample): int { x.duration }

  /** The durations of the samples that took time, in order. */
  ghost predicate DurationsKept(xs: seq<Sample>, out: seq<int>) {
    Filtered(xs, Timed, DurationOf, out)
  }

  lemma NoDurations()
    ensures DurationsKept([], [])
  {
    FilteredNothing(Timed, DurationOf);
  }

  lemma DurationStep(xs: seq<Sample>, before: seq<int>, out: seq<int>)
    requires xs != [] && DurationsKept(xs[..|xs| - 1], before)
    requires out == if xs[|xs| - 1].duration > 0 then before + [xs[|xs| - 1].duration] else before
    ensures DurationsKept(xs, out)
  {
    InitLast(xs);
    FilteredAppend(xs[..|xs| - 1], Timed, DurationOf, before, xs[|xs| - 1]);
  }

  lemma {:induction false} TallyDurations(xs: seq<Sample>, out: seq<int>)
    requires out == TallyOf(xs).durations
    ensures DurationsKept(xs, out)
  {
    if xs == [] {
      NoDurations();
    } else {
      var before := TallyOf(xs[..|xs| - 1]).durations;
      TallyDurations(xs[..|xs| - 1], before);
      DurationStep(xs, before, out);
    }
  }

  /** The tallies add up: the errors are the samples with an error, each in its own error
      count; every sample is in one status count or came without a status, and each status
      count is that status's own. */
  lemma {:induction false} TallyAddsUp(xs: seq<Sample>, status: nat, text: string)
    ensures var t := TallyOf(xs);
            && t.errors == ErrorsIn(xs) && Total(t.errorCounts) == t.errors <= |xs|
            && (if text in t.errorCounts then t.errorCounts[text] else 0) == ErrorCount(xs, text)
            && Total(t.statusCounts) + WithoutStatus(xs) == |xs|
            && (status != 0 ==>
                  (if status in t.statusCounts then t.statusCounts[status] else 0) == StatusCount(xs, status))
  {
    if xs != [] {
      var n := |xs| - 1;
      TallyAddsUp(xs[..n], status, text);
      var t := TallyOf(xs[..n]);
      TotalBumped(t.statusCounts, xs[n].status);
      if xs[n].error.Some? {
        TotalBumped(t.errorCounts, xs[n].error.value);
      }
    }
  }

  /** What a finished pool reports accounts for every request, whatever the schedule. */
  lemma {:induction false} ReportAccountsForRequests(states: seq<State>, requests: nat, concurrency: nat)
    requires Behavior(states, requests, concurrency) && concurrency >= 1
    requires states[|states| - 1].phase == Done
    ensures var xs := states[|states| - 1].drained;
            var t := TallyOf(xs);
            && Total(t.errorCounts) == t.errors == ErrorsIn(xs)
            && Total(t.statusCounts) + WithoutStatus(xs) == requests
  {
    PoolCompletes(states, requests, concurrency);
    TallyAddsUp(states[|states| - 1].drained, 0, "");
  }
}
