/** Where every admitted enter of the latency engine is, in every reachable state. */
module LatencyConservation {
  import opened Bpf
  import opened Latency
  import opened LatencyPairing
  import opened Totals
  import Pool

  function InEnter(): Thread -> bool { (th: Thread) => th.pc.Entering() }
  function InAdd(): Thread -> bool { (th: Thread) => th.pc.Deleted() }

  /** How many samples fell into bucket b. */
  function Tally(samples: seq<Sample>, b: nat): nat {
    if samples == [] then 0
    else Tally(samples[..|samples| - 1], b) + if samples[|samples| - 1].bucket == b then 1 else 0
  }

  /** Admitted enters that are not settled, in the map, overwritten or refused. */
  function Unsettled(s: State): int {
    s.admitted - s.overwritten - s.refused - |s.entryTimes.index| - |s.samples|
  }

  function InHand(th: Thread): int {
    (if th.pc.Entering() then 1 else 0) + (if th.pc.Deleted() then 1 else 0)
  }

  ghost predicate Books(s: State) {
    && Unsettled(s) == Pool.Count(s.threads, InEnter()) + Pool.Count(s.threads, InAdd())
    && HistogramOk(s)
  }

  ghost predicate HistogramOk(s: State) {
    && (forall b :: 0 <= b < |s.histogram| ==> s.histogram[b] == Tally(s.samples, b))
    && Sum(s.histogram) == |s.samples|
  }

  /** Thread t moved to `th`, and the counters moved with it. */
  lemma Settle(s: State, s': State, t: nat, th: Thread)
    requires Books(s) && HistogramOk(s') && t in s.threads && s'.threads == s.threads[t := th]
    requires Unsettled(s') == Unsettled(s) + InHand(th) - InHand(s.threads[t])
    ensures Books(s')
  {
    Pool.Moved(s.threads, t, th, InEnter());
    Pool.Moved(s.threads, t, th, InAdd());
  }

  lemma QuietSettles(s: State, t: nat, pc: Pc, call: Call)
    requires t in s.threads && s.threads[t].calls != [] && Books(s)
    requires InHand(s.threads[t]) == InHand(s.threads[t].(pc := pc))
    ensures Books(Now(s, t, pc, call))
  {
    Settle(s, Now(s, t, pc, call), t, Now(s, t, pc, call).threads[t]);
  }

  lemma StoreSettles(cfg: Config, s: State, t: nat)
    requires Shared(s) && t in s.threads && Own(cfg, s, t) && s.threads[t].pc.EnterUpdate? && Books(s)
    ensures Books(Helper(s, t))
  {
    var s' := Helper(s, t);
    if s.entryTimes.Accepts(t, MAX_ENTRIES) {
      assert s'.entryTimes.index.Keys == s.entryTimes.index.Keys + {t};
    }
    Settle(s, s', t, s'.threads[t]);
  }

  lemma DeleteSettles(cfg: Config, s: State, t: nat)
    requires Shared(s) && t in s.threads && Own(cfg, s, t) && s.threads[t].pc.ExitDelete? && Books(s)
    ensures Books(Helper(s, t))
  {
    Settle(s, Helper(s, t), t, Helper(s, t).threads[t]);
  }

  lemma HelperSettles(cfg: Config, s: State, t: nat)
    requires Shared(s) && t in s.threads && Own(cfg, s, t) && Books(s)
    ensures Books(Helper(s, t))
  {
    var pc := s.threads[t].pc;
    if pc.EnterUpdate? { StoreSettles(cfg, s, t); }
    else if pc.ExitDelete? { DeleteSettles(cfg, s, t); }
    else if pc.ExitAdd? { AddSettles(cfg, s, t); }
    else if Helper(s, t) != s {
      var th := Helper(s, t).threads[t];
      QuietSettles(s, t, th.pc, th.calls[|th.calls| - 1]);
    }
  }

  lemma AddSettles(cfg: Config, s: State, t: nat)
    requires Shared(s) && t in s.threads && Own(cfg, s, t) && s.threads[t].pc.ExitAdd? && Books(s)
    ensures Books(Helper(s, t))
  {
    var s' := Helper(s, t);
    var bucket := s.threads[t].pc.bucket;
    assert bucket < |s.histogram|;
    SumBump(s.histogram, bucket);
    assert s'.samples[..|s.samples|] == s.samples;
    Settle(s, s', t, s'.threads[t]);
  }

  lemma CallSettles(cfg: Config, s: State, a: Action)
    requires (a.SysEnter? || a.SysExit?) && a.tid in s.threads && Books(s)
    ensures Books(Next(cfg, s, a))
  {
    var s' := Next(cfg, s, a);
    if s' != s { Settle(s, s', a.tid, s'.threads[a.tid]); }
  }

  lemma NextSettles(cfg: Config, s: State, a: Action)
    requires Inv(cfg, s) && Books(s)
    ensures Books(Next(cfg, s, a))
  {
    if (a.SysEnter? || a.SysExit? || a.Step?) && a.tid in s.threads {
      OwnOf(cfg, s, a.tid);
      ThreadSettles(cfg, s, a);
    } else {
      NobodyMoves(cfg, s, a);
      SameBooks(s, Next(cfg, s, a));
    }
  }

  lemma ThreadSettles(cfg: Config, s: State, a: Action)
    requires (a.SysEnter? || a.SysExit? || a.Step?) && a.tid in s.threads
    requires Shared(s) && Own(cfg, s, a.tid) && Books(s)
    ensures Books(Next(cfg, s, a))
  {
    if a.Step? { HelperSettles(cfg, s, a.tid); } else { CallSettles(cfg, s, a); }
  }

  lemma SameBooks(s: State, s': State)
    requires Books(s) && s'.threads == s.threads && s'.entryTimes == s.entryTimes
    requires s'.samples == s.samples && s'.histogram == s.histogram
    requires s'.admitted == s.admitted && s'.overwritten == s.overwritten && s'.refused == s.refused
    ensures Books(s')
  {
  }

  lemma {:induction false} RunSettles(cfg: Config, s: State, schedule: seq<Action>)
    requires Inv(cfg, s) && Books(s)
    ensures Inv(cfg, Run(cfg, s, schedule)) && Books(Run(cfg, s, schedule))
    decreases schedule
  {
    if schedule == [] {
    } else {
      NextKeeps(cfg, s, schedule[0]);
      NextSettles(cfg, s, schedule[0]);
      RunSettles(cfg, Next(cfg, s, schedule[0]), schedule[1..]);
    }
  }

  lemma LoadedBooks(pids: map<nat, nat>)
    ensures Books(Loaded(pids))
  {
    var s := Loaded(pids);
    Pool.Nobody(s.threads, InEnter());
    Pool.Nobody(s.threads, InAdd());
    SumZeros(Loaded(pids).histogram);
  }

  /** In every reachable state: each admitted enter is in the histogram, in the map,
      overwritten, refused, still in handle_enter, or in handle_exit between the
      delete and the add. Each bucket holds the samples of its range, and no
      thread is ever in the fallback that initialises a missing bucket. */
  lemma Conservation(cfg: Config, pids: map<nat, nat>, schedule: seq<Action>)
    ensures var s := Run(cfg, Loaded(pids), schedule);
      && s.admitted == Sum(s.histogram) + |s.entryTimes.index| + s.overwritten + s.refused
                       + Pool.Count(s.threads, InEnter()) + Pool.Count(s.threads, InAdd())
      && |s.histogram| == MAX_BUCKETS
      && (forall b :: 0 <= b < MAX_BUCKETS ==> s.histogram[b] == Tally(s.samples, b))
      && |s.entryTimes.index| <= MAX_ENTRIES
      && (forall t :: t in s.threads ==> !s.threads[t].pc.ExitInit?)
  {
    LoadedInv(cfg, pids);
    LoadedBooks(pids);
    RunSettles(cfg, Loaded(pids), schedule);
    var s := Run(cfg, Loaded(pids), schedule);
    forall t | t in s.threads ensures !s.threads[t].pc.ExitInit? {
      assert Own(cfg, s, t);
    }
  }
}
