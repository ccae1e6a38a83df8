/** The bucket-by-bucket read of internal/bpf/poll.go while the kernel counts on. */
module Snapshot {
  import opened Bpf
  import opened Latency
  import opened LatencyPairing
  import opened Totals

  ghost predicate AtMost(h: seq<nat>, h': seq<nat>) {
    |h| == |h'| && forall b :: 0 <= b < |h| ==> h[b] <= h'[b]
  }

  /** The histogram the engine holds after the first n actions of a schedule. */
  function Histogram(cfg: Config, s: State, schedule: seq<Action>, n: nat): seq<nat>
    requires n <= |schedule|
  {
    Run(cfg, s, schedule[..n]).histogram
  }

  lemma NextCountsUp(cfg: Config, s: State, a: Action)
    ensures AtMost(s.histogram, Next(cfg, s, a).histogram)
  {
    if !a.Step? { assert Next(cfg, s, a).histogram == s.histogram; }
  }

  lemma {:induction false} RunCountsUp(cfg: Config, s: State, schedule: seq<Action>)
    ensures AtMost(s.histogram, Run(cfg, s, schedule).histogram)
    decreases schedule
  {
    if schedule != [] {
      NextCountsUp(cfg, s, schedule[0]);
      RunCountsUp(cfg, Next(cfg, s, schedule[0]), schedule[1..]);
    }
  }

  lemma HistogramGrows(cfg: Config, s: State, schedule: seq<Action>, m: nat, n: nat)
    requires m <= n <= |schedule|
    ensures AtMost(Histogram(cfg, s, schedule, m), Histogram(cfg, s, schedule, n))
  {
    assert schedule[..n] == schedule[..m] + schedule[m..n];
    RunConcat(cfg, s, schedule[..m], schedule[m..n]);
    RunCountsUp(cfg, Run(cfg, s, schedule[..m]), schedule[m..n]);
  }

  /** The 32 lookups of one tick: lookup i happens after `at[i]` actions of the
      kernel's schedule. The array is handed on by value. */
  method PollHistogram(cfg: Config, s: State, schedule: seq<Action>, at: seq<nat>) returns (snapshot: seq<nat>)
    requires |s.histogram| == MAX_BUCKETS && |at| == MAX_BUCKETS
    requires forall i, j :: 0 <= i <= j < |at| ==> at[i] <= at[j]
    requires at[MAX_BUCKETS - 1] <= |schedule|
    ensures Reads(cfg, s, schedule, at, snapshot)
  {
    var buckets := new nat[MAX_BUCKETS](_ => 0);
    for i := 0 to MAX_BUCKETS
      invariant forall k :: 0 <= k < i ==>
        |Histogram(cfg, s, schedule, at[k])| == MAX_BUCKETS && buckets[k] == Histogram(cfg, s, schedule, at[k])[k]
    {
      HistogramGrows(cfg, s, schedule, 0, at[i]);
      assert schedule[..0] == [];
      var h := Histogram(cfg, s, schedule, at[i]);
      if i < |h| { buckets[i] := h[i]; }  // a failed lookup would leave 0
    }
    snapshot := buckets[..];
  }

  /** `snapshot[k]` is bucket k as it stood at the k-th lookup. */
  ghost predicate Reads(cfg: Config, s: State, schedule: seq<Action>, at: seq<nat>, snapshot: seq<nat>) {
    && |snapshot| == |at| == MAX_BUCKETS
    && (forall i, j :: 0 <= i <= j < |at| ==> at[i] <= at[j])
    && at[MAX_BUCKETS - 1] <= |schedule|
    && forall k :: 0 <= k < MAX_BUCKETS ==>
         |Histogram(cfg, s, schedule, at[k])| == MAX_BUCKETS && snapshot[k] == Histogram(cfg, s, schedule, at[k])[k]
  }

  /** A snapshot lies between the histogram at its first lookup and the histogram at
      its last, bucket by bucket and in total. */
  lemma Sandwich(cfg: Config, s: State, schedule: seq<Action>, at: seq<nat>, snapshot: seq<nat>)
    requires Reads(cfg, s, schedule, at, snapshot)
    ensures var before, after := Histogram(cfg, s, schedule, at[0]), Histogram(cfg, s, schedule, at[MAX_BUCKETS - 1]);
      && AtMost(before, snapshot) && AtMost(snapshot, after)
      && Sum(before) <= Sum(snapshot) <= Sum(after)
  {
    var last := MAX_BUCKETS - 1;
    var before, after := Histogram(cfg, s, schedule, at[0]), Histogram(cfg, s, schedule, at[last]);
    forall k | 0 <= k < MAX_BUCKETS ensures before[k] <= snapshot[k] <= after[k] {
      HistogramGrows(cfg, s, schedule, at[0], at[k]);
      HistogramGrows(cfg, s, schedule, at[k], at[last]);
    }
    SumAtMost(before, snapshot);
    SumAtMost(snapshot, after);
  }

  /** A later snapshot never shows less, bucket by bucket and in total. */
  lemma SnapshotsGrow(cfg: Config, s: State, schedule: seq<Action>,
                      at: seq<nat>, first: seq<nat>, at': seq<nat>, second: seq<nat>)
    requires Reads(cfg, s, schedule, at, first) && Reads(cfg, s, schedule, at', second)
    requires at[MAX_BUCKETS - 1] <= at'[0]
    ensures AtMost(first, second) && Sum(first) <= Sum(second)
  {
    forall k | 0 <= k < MAX_BUCKETS ensures first[k] <= second[k] {
      HistogramGrows(cfg, s, schedule, at[k], at'[k]);
    }
    SumAtMost(first, second);
  }
}
