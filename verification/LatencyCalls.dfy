/** Whose system calls the latency engine measures, and what one of them does to the
    histogram when nobody interferes. */
module LatencyCalls {
  import opened Bpf
  import opened Latency
  import opened LatencyPairing
  import opened LatencyResults
  import opened LatencyClock
  import LatencyCapacity
  import Log2

  /** The state after the first n actions of a schedule. */
  function At(cfg: Config, pids: map<nat, nat>, schedule: seq<Action>, n: nat): State
    requires n <= |schedule|
  {
    Run(cfg, Loaded(pids), schedule[..n])
  }

  lemma AtStart(cfg: Config, pids: map<nat, nat>, schedule: seq<Action>)
    ensures At(cfg, pids, schedule, 0) == Loaded(pids)
  {
    assert schedule[..0] == [];
  }

  lemma AtEnd(cfg: Config, pids: map<nat, nat>, schedule: seq<Action>)
    ensures At(cfg, pids, schedule, |schedule|) == Run(cfg, Loaded(pids), schedule)
  {
    assert schedule[..|schedule|] == schedule;
  }

  lemma AtNext(cfg: Config, pids: map<nat, nat>, schedule: seq<Action>, n: nat)
    requires n < |schedule|
    ensures At(cfg, pids, schedule, n + 1) == Next(cfg, At(cfg, pids, schedule, n), schedule[n])
  {
    assert schedule[..n + 1] == schedule[..n] + [schedule[n]];
    RunConcat(cfg, Loaded(pids), schedule[..n], [schedule[n]]);
    assert Run(cfg, At(cfg, pids, schedule, n), [schedule[n]]) == Next(cfg, At(cfg, pids, schedule, n), schedule[n]);
  }

  lemma AtLater(cfg: Config, pids: map<nat, nat>, schedule: seq<Action>, m: nat, n: nat)
    requires m <= n <= |schedule|
    ensures Later(cfg, Loaded(pids), At(cfg, pids, schedule, m))
    ensures Later(cfg, At(cfg, pids, schedule, m), At(cfg, pids, schedule, n))
  {
    assert schedule[..n] == schedule[..m] + schedule[m..n];
    RunConcat(cfg, Loaded(pids), schedule[..m], schedule[m..n]);
  }

  lemma AtTells(cfg: Config, pids: map<nat, nat>, schedule: seq<Action>, n: nat, t: nat)
    requires n < |schedule| && t in pids
    ensures var s := At(cfg, pids, schedule, n);
      t in s.threads && Evolves(cfg, s, schedule[n], At(cfg, pids, schedule, n + 1), t)
  {
    Reached(cfg, pids, schedule[..n]);
    LoadedThreads(cfg, pids, schedule[..n]);
    NextTells(cfg, At(cfg, pids, schedule, n), schedule[n], t);
    AtNext(cfg, pids, schedule, n);
  }

  lemma AtThread(cfg: Config, pids: map<nat, nat>, schedule: seq<Action>, n: nat, t: nat)
    requires n <= |schedule|
    ensures t in At(cfg, pids, schedule, n).threads <==> t in pids
    ensures t in pids ==> At(cfg, pids, schedule, n).threads[t].pid == pids[t]
  {
    LoadedThreads(cfg, pids, schedule[..n]);
  }

  // ---- every call comes from the schedule ----

  lemma {:induction false} BeganBy(cfg: Config, pids: map<nat, nat>, schedule: seq<Action>, n: nat, t: nat, i: nat)
    returns (j: nat)
    requires n <= |schedule| && t in pids
    requires t in At(cfg, pids, schedule, n).threads && i < |At(cfg, pids, schedule, n).threads[t].calls|
    ensures j < n && t in At(cfg, pids, schedule, j).threads
    ensures |At(cfg, pids, schedule, j).threads[t].calls| == i
    ensures Begins(At(cfg, pids, schedule, j), schedule[j], t, At(cfg, pids, schedule, n).threads[t].calls[i].nr)
  {
    AtStart(cfg, pids, schedule);
    assert n > 0;
    AtTells(cfg, pids, schedule, n - 1, t);
    if i < |At(cfg, pids, schedule, n - 1).threads[t].calls| {
      j := BeganBy(cfg, pids, schedule, n - 1, t, i);
    } else {
      j := n - 1;
    }
  }

  /** Each call of a thread is one of its system calls of the schedule, with that call's
      number: it began with the action at some position j, when the thread had i calls. */
  lemma CallsBegan(cfg: Config, pids: map<nat, nat>, schedule: seq<Action>, t: nat, i: nat) returns (j: nat)
    requires var s := Run(cfg, Loaded(pids), schedule); t in s.threads && i < |s.threads[t].calls|
    ensures j < |schedule| && t in At(cfg, pids, schedule, j).threads
    ensures |At(cfg, pids, schedule, j).threads[t].calls| == i
    ensures Begins(At(cfg, pids, schedule, j), schedule[j], t, Run(cfg, Loaded(pids), schedule).threads[t].calls[i].nr)
  {
    LoadedThreads(cfg, pids, schedule);
    AtEnd(cfg, pids, schedule);
    j := BeganBy(cfg, pids, schedule, |schedule|, t, i);
  }

  /** And each system call the schedule makes of an idle thread is a call of that thread,
      for good. */
  lemma EntriesAreCalls(cfg: Config, pids: map<nat, nat>, schedule: seq<Action>, t: nat, j: nat, nr: nat)
    requires j < |schedule| && Begins(At(cfg, pids, schedule, j), schedule[j], t, nr)
    ensures var s := Run(cfg, Loaded(pids), schedule); var i := |At(cfg, pids, schedule, j).threads[t].calls|;
      t in s.threads && i < |s.threads[t].calls| && s.threads[t].calls[i].nr == nr
  {
    AtThread(cfg, pids, schedule, j, t);
    AtTells(cfg, pids, schedule, j, t);
    var s0, s1 := At(cfg, pids, schedule, j), At(cfg, pids, schedule, j + 1);
    AtLater(cfg, pids, schedule, j + 1, |schedule|);
    AtEnd(cfg, pids, schedule);
    ReachedSound(cfg, pids, s1, t);
    LaterKept(cfg, s1, Run(cfg, Loaded(pids), schedule), t, |s0.threads[t].calls|);
  }

  // ---- the process filter ----

  /** No sample is of a thread of another process. */
  lemma OnlyTheTarget(cfg: Config, pids: map<nat, nat>, schedule: seq<Action>, k: nat)
    requires k < |Run(cfg, Loaded(pids), schedule).samples|
    ensures var x := Run(cfg, Loaded(pids), schedule).samples[k];
      x.tid in pids && (cfg.targetPid == 0 || pids[x.tid] == cfg.targetPid)
  {
    var s := Run(cfg, Loaded(pids), schedule);
    LoadedThreads(cfg, pids, schedule);
    ReachedSample(cfg, pids, schedule, k);
    ReachedOwn(cfg, pids, schedule, s.samples[k].tid);
  }

  lemma ReachedOwn(cfg: Config, pids: map<nat, nat>, schedule: seq<Action>, t: nat)
    requires t in Run(cfg, Loaded(pids), schedule).threads
    ensures Own(cfg, Run(cfg, Loaded(pids), schedule), t)
  {
    Reached(cfg, pids, schedule);
    OwnOf(cfg, Run(cfg, Loaded(pids), schedule), t);
  }

  // ---- one call that nobody disturbs ----

  lemma RunThree(cfg: Config, s: State, a: Action, b: Action, c: Action)
    ensures Run(cfg, s, [a, b, c]) == Next(cfg, Next(cfg, Next(cfg, s, a), b), c)
  {
    RunCons(cfg, s, a, [b, c]);
    RunCons(cfg, Next(cfg, s, a), b, [c]);
    RunOne(cfg, Next(cfg, Next(cfg, s, a), b), c);
    assert [a] + [b, c] == [a, b, c] && [b] + [c] == [b, c];
  }

  lemma RunFive(cfg: Config, s: State, a: seq<Action>, b: seq<Action>, c: seq<Action>, d: seq<Action>, e: seq<Action>)
    ensures Run(cfg, s, a + b + c + d + e) == Run(cfg, Run(cfg, Run(cfg, Run(cfg, Run(cfg, s, a), b), c), d), e)
  {
    RunConcat(cfg, s, a, b);
    RunConcat(cfg, s, a + b, c);
    RunConcat(cfg, s, a + b + c, d);
    RunConcat(cfg, s, a + b + c + d, e);
  }

  lemma RunOne(cfg: Config, s: State, a: Action)
    ensures Run(cfg, s, [a]) == Next(cfg, s, a)
  {
  }

  /** t makes its call, the engine sees it come, d nanoseconds pass, the engine sees it go. */
  function OneCall(t: nat, nr: nat, d: nat): seq<Action> {
    [SysEnter(t, nr), Step(t), Step(t)] + [Tick(d)] + [SysExit(t)]
    + [Step(t), Step(t), Step(t)] + [Step(t), Step(t), Step(t)]
  }

  /** Everything but t's own calls is the same in s'. */
  ghost predicate SameBut(s: State, s': State, t: nat) {
    && t in s.threads && t in s'.threads && s'.threads[t].calls != [] && s'.threads[t].pid == s.threads[t].pid
    && s'.entryTimes == s.entryTimes && s'.origin == s.origin && s'.histogram == s.histogram
    && s'.clock == s.clock && s'.enterOn == s.enterOn && s'.exitOn == s.exitOn
  }

  lemma EnterPart(cfg: Config, s: State, t: nat)
    requires t in s.threads && s.threads[t].pc.Idle? && s.enterOn && cfg.targetSyscall < TWO32
    requires (cfg.targetPid == 0 || s.threads[t].pid == cfg.targetPid) && s.entryTimes.Accepts(t, MAX_ENTRIES)
    ensures var s' := Run(cfg, s, [SysEnter(t, cfg.targetSyscall), Step(t), Step(t)]);
      && SameBut(s.(entryTimes := s'.entryTimes, origin := s'.origin), s', t) && s'.threads[t].pc.InCall?
      && s'.entryTimes.index == s.entryTimes.index[t := |s.entryTimes.cells|]
      && s'.entryTimes.cells == s.entryTimes.cells + [s.clock] && |s'.origin| == |s.origin| + 1
  {
    var s1 := EnterCall(cfg, s, t, cfg.targetSyscall);
    RunThree(cfg, s, SysEnter(t, cfg.targetSyscall), Step(t), Step(t));
    assert Next(cfg, s, SysEnter(t, cfg.targetSyscall)) == s1;
    var s2 := Now(s1, t, EnterUpdate(s1.clock), Current(s1, t).(entered := Some(s1.clock)));
    assert Next(cfg, s1, Step(t)) == s2;
    assert Next(cfg, s2, Step(t)) == StoreEntry(s2, t, s1.clock);
  }

  lemma ReturnPart(cfg: Config, s: State, t: nat)
    requires t in s.threads && s.threads[t].pc.InCall? && s.threads[t].calls != [] && s.exitOn
    requires cfg.targetPid == 0 || s.threads[t].pid == cfg.targetPid
    ensures var s' := Run(cfg, s, [SysExit(t)]); SameBut(s, s', t) && s'.threads[t].pc.ExitLookup?
  {
    RunOne(cfg, s, SysExit(t));
  }

  lemma MeasurePart(cfg: Config, s: State, t: nat, cell: nat)
    requires t in s.threads && s.threads[t].pc.ExitLookup? && s.threads[t].calls != []
    requires s.entryTimes.Lookup(t) == Some(cell) && cell < |s.entryTimes.cells|
    requires s.entryTimes.cells[cell] <= s.clock < TWO64
    ensures var s' := Run(cfg, s, [Step(t), Step(t), Step(t)]);
      SameBut(s, s', t) && s'.threads[t].pc == ExitDelete(cell, s.clock, s.clock - s.entryTimes.cells[cell])
  {
    var d := s.clock - s.entryTimes.cells[cell];
    assert d % TWO64 == d;
    RunThree(cfg, s, Step(t), Step(t), Step(t));
    var s1 := Now(s, t, ExitClock(cell), Current(s, t));
    assert Next(cfg, s, Step(t)) == s1;
    var s2 := Now(s1, t, ExitRead(cell, s.clock), Current(s1, t).(exited := Some(s.clock)));
    assert Next(cfg, s1, Step(t)) == s2;
    assert Next(cfg, s2, Step(t)) == Now(s2, t, ExitDelete(cell, s.clock, d), Current(s2, t));
  }

  /** s' has one more in the bucket of d than s, no timestamp of t, and t idle. */
  ghost predicate CountsOne(s: State, s': State, t: nat, d: nat) {
    && |s.histogram| == MAX_BUCKETS
    && s'.histogram == s.histogram[Log2.Bucket(d) := s.histogram[Log2.Bucket(d)] + 1]
    && s'.clock == s.clock && t in s'.threads && s'.threads[t].pc.Idle?
    && s'.entryTimes.index == s.entryTimes.index - {t}
  }

  lemma CountPart(cfg: Config, s: State, t: nat, cell: nat, now: nat, d: nat)
    requires t in s.threads && s.threads[t].pc == ExitDelete(cell, now, d) && s.threads[t].calls != []
    requires cell < |s.entryTimes.cells| == |s.origin| && |s.histogram| == MAX_BUCKETS
    ensures CountsOne(s, Run(cfg, s, [Step(t), Step(t), Step(t)]), t, d)
  {
    RunThree(cfg, s, Step(t), Step(t), Step(t));
    DeletePart(cfg, s, t, cell, now, d);
    BucketPart(cfg, Next(cfg, s, Step(t)), t, cell, now, d);
  }

  lemma DeletePart(cfg: Config, s: State, t: nat, cell: nat, now: nat, d: nat)
    requires t in s.threads && s.threads[t].pc == ExitDelete(cell, now, d) && s.threads[t].calls != []
    requires cell < |s.entryTimes.cells| == |s.origin|
    ensures var s' := Next(cfg, s, Step(t));
      && t in s'.threads && s'.threads[t].pc == ExitBucket(cell, now, d) && s'.threads[t].calls != []
      && s'.entryTimes.index == s.entryTimes.index - {t} && s'.entryTimes.cells == s.entryTimes.cells
      && s'.origin == s.origin && s'.histogram == s.histogram && s'.clock == s.clock
  {
  }

  lemma BucketPart(cfg: Config, s: State, t: nat, cell: nat, now: nat, d: nat)
    requires t in s.threads && s.threads[t].pc == ExitBucket(cell, now, d) && s.threads[t].calls != []
    requires cell < |s.entryTimes.cells| == |s.origin| && |s.histogram| == MAX_BUCKETS
    ensures var s' := Next(cfg, Next(cfg, s, Step(t)), Step(t));
      && s'.clock == s.clock && t in s'.threads && s'.threads[t].pc.Idle?
      && s'.entryTimes.index == s.entryTimes.index
      && s'.histogram == s.histogram[Log2.Bucket(d) := s.histogram[Log2.Bucket(d)] + 1]
  {
    var s1 := Now(s, t, ExitAdd(cell, now, Log2.Bucket(d)), Current(s, t));
    assert Next(cfg, s, Step(t)) == s1;
    assert Next(cfg, s1, Step(t)) == AddSample(s1, t, cell, now, Log2.Bucket(d));
  }

  /** A target call of an idle thread of the target process that takes d nanoseconds raises
      the bucket of d by one, and nothing else, whatever happened before, as long as the
      map knows the thread or has room. */
  lemma UndisturbedCall(cfg: Config, pids: map<nat, nat>, before: seq<Action>, t: nat, d: nat)
    requires cfg.targetSyscall < TWO32 && t in pids && (cfg.targetPid == 0 || pids[t] == cfg.targetPid)
    requires var s := Run(cfg, Loaded(pids), before);
      && s.enterOn && s.exitOn && t in s.threads && s.threads[t].pc.Idle? && s.clock + d < TWO64
      && (t in s.entryTimes.index || |s.entryTimes.index| < MAX_ENTRIES)
    ensures var s := Run(cfg, Loaded(pids), before); var s' := Run(cfg, s, OneCall(t, cfg.targetSyscall, d));
      && |s.histogram| == MAX_BUCKETS
      && s'.histogram == s.histogram[Log2.Bucket(d) := s.histogram[Log2.Bucket(d)] + 1]
      && s'.clock == s.clock + d && t in s'.threads && s'.threads[t].pc.Idle?
      && s'.entryTimes.index == s.entryTimes.index - {t}
  {
    var s := Run(cfg, Loaded(pids), before);
    LoadedThreads(cfg, pids, before);
    ReachedCells(cfg, pids, before);
    CallCounts(cfg, s, t, d);
  }

  lemma ReachedCells(cfg: Config, pids: map<nat, nat>, before: seq<Action>)
    ensures var s := Run(cfg, Loaded(pids), before);
      |s.origin| == |s.entryTimes.cells| && s.clock < TWO64 && |s.histogram| == MAX_BUCKETS
  {
    Reached(cfg, pids, before);
  }

  lemma CallCounts(cfg: Config, s: State, t: nat, d: nat)
    requires cfg.targetSyscall < TWO32 && t in s.threads && (cfg.targetPid == 0 || s.threads[t].pid == cfg.targetPid)
    requires s.enterOn && s.exitOn && s.threads[t].pc.Idle? && s.clock + d < TWO64
    requires s.entryTimes.Accepts(t, MAX_ENTRIES) && |s.histogram| == MAX_BUCKETS
    requires |s.origin| == |s.entryTimes.cells|
    ensures CountsOne(s.(clock := s.clock + d), Run(cfg, s, OneCall(t, cfg.targetSyscall, d)), t, d)
  {
    var enter, helpers := [SysEnter(t, cfg.targetSyscall), Step(t), Step(t)], [Step(t), Step(t), Step(t)];
    RunFive(cfg, s, enter, [Tick(d)], [SysExit(t)], helpers, helpers);
    EnterPart(cfg, s, t);
    var s1 := Run(cfg, s, enter);
    TickPart(cfg, s1, d);
    ExitPart(cfg, Run(cfg, s1, [Tick(d)]), t, |s.entryTimes.cells|, d);
    EnteredCounts(s, s1, Run(cfg, s, OneCall(t, cfg.targetSyscall, d)), t, d);
  }

  lemma EnteredCounts(s: State, s1: State, s': State, t: nat, d: nat)
    requires s1.histogram == s.histogram && s1.clock == s.clock
    requires s1.entryTimes.index - {t} == s.entryTimes.index - {t}
    requires CountsOne(s1.(clock := s1.clock + d), s', t, d)
    ensures CountsOne(s.(clock := s.clock + d), s', t, d)
  {
  }

  lemma TickPart(cfg: Config, s: State, d: nat)
    requires s.clock + d < TWO64
    ensures Run(cfg, s, [Tick(d)]) == s.(clock := s.clock + d)
  {
    RunOne(cfg, s, Tick(d));
  }

  lemma ExitPart(cfg: Config, s: State, t: nat, cell: nat, d: nat)
    requires t in s.threads && s.threads[t].pc.InCall? && s.threads[t].calls != [] && s.exitOn
    requires cfg.targetPid == 0 || s.threads[t].pid == cfg.targetPid
    requires s.entryTimes.Lookup(t) == Some(cell) && cell < |s.entryTimes.cells| == |s.origin|
    requires s.entryTimes.cells[cell] + d == s.clock < TWO64 && |s.histogram| == MAX_BUCKETS
    ensures var helpers := [Step(t), Step(t), Step(t)];
      CountsOne(s, Run(cfg, Run(cfg, Run(cfg, s, [SysExit(t)]), helpers), helpers), t, d)
  {
    var helpers := [Step(t), Step(t), Step(t)];
    var s1 := Run(cfg, s, [SysExit(t)]);
    var s2 := Run(cfg, s1, helpers);
    ReturnPart(cfg, s, t);
    MeasurePart(cfg, s1, t, cell);
    CountPart(cfg, s2, t, cell, s.clock, d);
    CountsAlike(s1, s2, Run(cfg, s2, helpers), t, d);
    CountsAlike(s, s1, Run(cfg, s2, helpers), t, d);
  }

  lemma CountsAlike(s: State, s1: State, s': State, t: nat, d: nat)
    requires SameBut(s, s1, t) && CountsOne(s1, s', t, d)
    ensures CountsOne(s, s', t, d)
  {
  }
}
