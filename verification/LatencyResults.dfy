/** What the latency engine guarantees about pairing, over every run. */
module LatencyResults {
  import opened Bpf
  import opened Latency
  import opened LatencyPairing
  import Log2

  ghost predicate Exact(x: Sample) { x.entryCall == x.exitCall }

  /** Every increment is the bucket of the time between one handle_enter of a target
      call and one handle_exit of the same thread. It pairs two different calls
      exactly when the syscall that returned was not the target (the check
      handle_exit leaves out), and then it is the first exit of that thread that
      was ever handled. */
  lemma EverySample(cfg: Config, pids: map<nat, nat>, schedule: seq<Action>, k: nat)
    requires k < |Run(cfg, Loaded(pids), schedule).samples|
    ensures var s := Run(cfg, Loaded(pids), schedule); var x := s.samples[k];
      && x.tid in s.threads
      && var cs := s.threads[x.tid].calls;
      && x.entryCall <= x.exitCall < |cs|
      && cs[x.entryCall].nr == cfg.targetSyscall && cs[x.entryCall].entered == Some(x.start)
      && cs[x.exitCall].exited == Some(x.end)
      && x.start <= x.end && x.bucket == Log2.Bucket(x.end - x.start)
      && (Exact(x) <==> cs[x.exitCall].nr == cfg.targetSyscall)
      && (!Exact(x) ==> forall i :: 0 <= i < x.exitCall ==> !cs[i].hooked)
  {
    ReachedSample(cfg, pids, schedule, k);
  }

  /** At most one mis-paired sample per thread, and everything after it is exact. */
  lemma OneMispairingPerThread(cfg: Config, pids: map<nat, nat>, schedule: seq<Action>, j: nat, k: nat)
    requires var s := Run(cfg, Loaded(pids), schedule);
      && j < |s.samples| && k < |s.samples| && j != k
      && s.samples[j].tid == s.samples[k].tid && !Exact(s.samples[j])
    ensures var s := Run(cfg, Loaded(pids), schedule);
      Exact(s.samples[k]) && s.samples[j].exitCall < s.samples[k].exitCall
  {
    ReachedSample(cfg, pids, schedule, j);
    ReachedSample(cfg, pids, schedule, k);
  }

  ghost predicate Finished(s: State, t: nat, i: nat)
    requires t in s.threads
  {
    i < |s.threads[t].calls| && (i < |s.threads[t].calls| - 1 || s.threads[t].pc.Idle?)
  }

  /** The one sample of call i of thread t, with that call's own two times. */
  ghost predicate CountedOnce(s: State, t: nat, i: nat)
    requires t in s.threads && i < |s.threads[t].calls|
  {
    var c := s.threads[t].calls[i];
    && c.counted.Some? && c.counted.value < |s.samples| && c.entered.Some? && c.exited.Some?
    && c.entered.value <= c.exited.value
    && s.samples[c.counted.value]
       == Sample(t, i, i, c.entered.value, c.exited.value, Log2.Bucket(c.exited.value - c.entered.value))
    && forall k :: 0 <= k < |s.samples| && s.samples[k].tid == t && s.samples[k].exitCall == i ==>
         k == c.counted.value
  }

  lemma SampleOfCall(cfg: Config, s: State, t: nat, i: nat, k: nat)
    requires t in s.threads && i < |s.threads[t].calls| && k < |s.samples| && SampleOk(cfg, s, k)
    requires s.samples[k].tid == t && s.samples[k].exitCall == i
    ensures s.threads[t].calls[i].counted == Some(k)
  {
  }

  lemma CallOfSample(s: State, t: nat, i: nat)
    requires t in s.threads && Owed(s, t) && Finished(s, t, i)
    requires s.threads[t].calls[i].insert.Stored? && s.threads[t].calls[i].hooked
    ensures var c := s.threads[t].calls[i];
      && c.counted.Some? && c.counted.value < |s.samples|
      && s.samples[c.counted.value].tid == t && s.samples[c.counted.value].exitCall == i
  {
  }

  lemma StoredIsTarget(cfg: Config, s: State, t: nat, i: nat)
    requires t in s.threads && Hooks(cfg, s, t) && i < |s.threads[t].calls| && !s.threads[t].calls[i].insert.Untried?
    ensures s.threads[t].calls[i].nr == cfg.targetSyscall && s.threads[t].calls[i].entered.Some?
  {
  }

  lemma OwnSample(cfg: Config, s: State, t: nat, i: nat)
    requires Inv(cfg, s) && t in s.threads && Finished(s, t, i)
    requires s.threads[t].calls[i].insert.Stored? && s.threads[t].calls[i].hooked
    ensures CountedOnce(s, t, i)
  {
    OwnOf(cfg, s, t);
    CallOfSample(s, t, i);
    StoredIsTarget(cfg, s, t, i);
    OwnTimes(cfg, s, t, i);
    forall k | 0 <= k < |s.samples| && s.samples[k].tid == t && s.samples[k].exitCall == i
      ensures k == s.threads[t].calls[i].counted.value
    {
      SampleOfCall(cfg, s, t, i, k);
    }
  }

  /** The sample a target call's exit added has that call's own two times. */
  lemma OwnTimes(cfg: Config, s: State, t: nat, i: nat)
    requires t in s.threads && i < |s.threads[t].calls|
    requires var c := s.threads[t].calls[i];
      && c.nr == cfg.targetSyscall && c.counted.Some? && c.counted.value < |s.samples|
      && SampleOk(cfg, s, c.counted.value)
      && s.samples[c.counted.value].tid == t && s.samples[c.counted.value].exitCall == i
    ensures var c := s.threads[t].calls[i];
      && c.entered.Some? && c.exited.Some? && c.entered.value <= c.exited.value
      && s.samples[c.counted.value]
         == Sample(t, i, i, c.entered.value, c.exited.value, Log2.Bucket(c.exited.value - c.entered.value))
  {
  }

  /** No sample took its timestamp from call i of thread t or was added by its exit. */
  ghost predicate InNoSample(s: State, t: nat, i: nat) {
    forall k :: 0 <= k < |s.samples| && s.samples[k].tid == t ==>
      s.samples[k].entryCall != i && s.samples[k].exitCall != i
  }

  lemma RefusedInNoSample(cfg: Config, s: State, t: nat, i: nat)
    requires Inv(cfg, s) && t in s.threads && i < |s.threads[t].calls| && s.threads[t].calls[i].insert.Refused?
    ensures InNoSample(s, t, i)
  {
    OwnOf(cfg, s, t);
    StoredIsTarget(cfg, s, t, i);
    forall k | 0 <= k < |s.samples| && s.samples[k].tid == t
      ensures s.samples[k].entryCall != i && s.samples[k].exitCall != i
    {
      assert SampleOk(cfg, s, k);
    }
  }

  lemma InvCountsOnce(cfg: Config, s: State, t: nat, i: nat)
    requires Inv(cfg, s) && t in s.threads && Finished(s, t, i)
    ensures var c := s.threads[t].calls[i];
      && (CountedOnce(s, t, i) <==> c.insert.Stored? && c.hooked)
      && (c.insert.Refused? ==> InNoSample(s, t, i))
  {
    var c := s.threads[t].calls[i];
    if c.insert.Stored? && c.hooked { OwnSample(cfg, s, t, i); }
    if c.insert.Refused? { RefusedInNoSample(cfg, s, t, i); }
    if CountedOnce(s, t, i) { assert SampleOk(cfg, s, c.counted.value); }
  }

  /** A finished call is counted exactly once, by a sample of its own two times, if and
      only if its timestamp was stored and handle_exit saw it return; a call whose
      insert was refused is in no sample at all. */
  lemma CountedExactlyOnce(cfg: Config, pids: map<nat, nat>, schedule: seq<Action>, t: nat, i: nat)
    requires var s := Run(cfg, Loaded(pids), schedule); t in s.threads && Finished(s, t, i)
    ensures var s := Run(cfg, Loaded(pids), schedule); var c := s.threads[t].calls[i];
      && (CountedOnce(s, t, i) <==> c.insert.Stored? && c.hooked)
      && (c.insert.Refused? ==> InNoSample(s, t, i))
  {
    Reached(cfg, pids, schedule);
    InvCountsOnce(cfg, Run(cfg, Loaded(pids), schedule), t, i);
  }

  /** From call n0 on, both handlers see every target call of thread t. */
  ghost predicate Watched(cfg: Config, s: State, t: nat, n0: nat) {
    && s.enterOn && s.exitOn && t in s.threads && Admits(cfg, s.threads[t].pid)
    && var th := s.threads[t]; var cs := th.calls;
    && forall i :: n0 <= i < |cs| ==>
         && (cs[i].nr == cfg.targetSyscall && !(i == |cs| - 1 && th.pc.EnterClock?) ==> cs[i].entered.Some?)
         && (i < |cs| - 1 || th.pc.Idle? || th.pc.Exiting() ==> cs[i].hooked)
  }

  lemma WatchedOther(cfg: Config, s: State, s': State, u: nat, t: nat, n0: nat)
    requires Watched(cfg, s, t, n0) && OnlyMoved(s, s', u) && u != t
    ensures Watched(cfg, s', t, n0)
  {
  }

  lemma WatchedCall(cfg: Config, s: State, a: Action, n0: nat)
    requires (a.SysEnter? || a.SysExit?) && Watched(cfg, s, a.tid, n0)
    ensures Watched(cfg, Next(cfg, s, a), a.tid, n0)
  {
  }

  lemma WatchedHelper(cfg: Config, s: State, t: nat, n0: nat)
    requires Watched(cfg, s, t, n0)
    ensures Watched(cfg, Helper(s, t), t, n0)
  {
    if s.threads[t].pc.Entering() { WatchedEntering(cfg, s, t, n0); } else { WatchedExiting(cfg, s, t, n0); }
  }

  lemma WatchedEntering(cfg: Config, s: State, t: nat, n0: nat)
    requires Watched(cfg, s, t, n0) && s.threads[t].pc.Entering()
    ensures Watched(cfg, Helper(s, t), t, n0)
  {
  }

  lemma WatchedExiting(cfg: Config, s: State, t: nat, n0: nat)
    requires Watched(cfg, s, t, n0) && !s.threads[t].pc.Entering()
    ensures Watched(cfg, Helper(s, t), t, n0)
  {
  }

  lemma WatchedNext(cfg: Config, s: State, a: Action, t: nat, n0: nat)
    requires Inv(cfg, s) && Watched(cfg, s, t, n0)
    ensures Watched(cfg, Next(cfg, s, a), t, n0)
  {
    if (a.SysEnter? || a.SysExit? || a.Step?) && a.tid in s.threads {
      if a.tid != t {
        NextOnlyMoves(cfg, s, a);
        WatchedOther(cfg, s, Next(cfg, s, a), a.tid, t, n0);
      } else {
        WatchedOwn(cfg, s, a, n0);
      }
    } else {
      NobodyMoves(cfg, s, a);
      WatchedStill(cfg, s, Next(cfg, s, a), t, n0);
    }
  }

  lemma WatchedOwn(cfg: Config, s: State, a: Action, n0: nat)
    requires (a.SysEnter? || a.SysExit? || a.Step?) && Watched(cfg, s, a.tid, n0)
    ensures Watched(cfg, Next(cfg, s, a), a.tid, n0)
  {
    if a.Step? { WatchedHelper(cfg, s, a.tid, n0); } else { WatchedCall(cfg, s, a, n0); }
  }

  lemma WatchedStill(cfg: Config, s: State, s': State, t: nat, n0: nat)
    requires Watched(cfg, s, t, n0) && s'.threads == s.threads && s'.enterOn && s'.exitOn
    ensures Watched(cfg, s', t, n0)
  {
  }

  lemma {:induction false} WatchedRun(cfg: Config, s: State, rest: seq<Action>, t: nat, n0: nat)
    requires Inv(cfg, s) && Watched(cfg, s, t, n0)
    ensures Watched(cfg, Run(cfg, s, rest), t, n0) && Inv(cfg, Run(cfg, s, rest))
    decreases rest
  {
    if rest == [] {
    } else {
      NextKeeps(cfg, s, rest[0]);
      WatchedNext(cfg, s, rest[0], t, n0);
      WatchedRun(cfg, Next(cfg, s, rest[0]), rest[1..], t, n0);
    }
  }

  lemma WatchedCalls(cfg: Config, s: State, t: nat, n0: nat, i: nat)
    requires Inv(cfg, s) && Watched(cfg, s, t, n0) && n0 <= i && Finished(s, t, i)
    requires s.threads[t].calls[i].nr == cfg.targetSyscall
    ensures s.threads[t].calls[i].hooked && !s.threads[t].calls[i].insert.Untried?
  {
    OwnOf(cfg, s, t);
  }

  /** Once both programs are attached, a target call an admitted thread then begins and
      finishes is counted exactly once if and only if its insert was not refused, and
      a refused one is in no sample. */
  lemma NothingMissed(cfg: Config, pids: map<nat, nat>, before: seq<Action>, rest: seq<Action>, t: nat, i: nat)
    requires var s0 := Run(cfg, Loaded(pids), before);
      && s0.enterOn && s0.exitOn && t in s0.threads
      && (cfg.targetPid == 0 || s0.threads[t].pid == cfg.targetPid)
      && |s0.threads[t].calls| <= i
    requires var s := Run(cfg, Run(cfg, Loaded(pids), before), rest);
      t in s.threads && Finished(s, t, i) && s.threads[t].calls[i].nr == cfg.targetSyscall
    ensures var s := Run(cfg, Run(cfg, Loaded(pids), before), rest);
      && (CountedOnce(s, t, i) <==> !s.threads[t].calls[i].insert.Refused?)
      && (s.threads[t].calls[i].insert.Refused? ==> InNoSample(s, t, i))
  {
    Reached(cfg, pids, before);
    var s0 := Run(cfg, Loaded(pids), before);
    WatchedRun(cfg, s0, rest, t, |s0.threads[t].calls|);
    var s := Run(cfg, s0, rest);
    WatchedCalls(cfg, s, t, |s0.threads[t].calls|, i);
    InvCountsOnce(cfg, s, t, i);
  }

  // ---- attaching sys_exit after sys_enter ----

  /** A timestamp no exit will be matched with: its call returned unseen. */
  ghost predicate Stale(s: State, t: nat) {
    && t in s.threads && t in s.entryTimes.index && s.entryTimes.index[t] < |s.origin|
    && var th := s.threads[t];
    && (th.pc.Idle? || (th.pc.InCall? && s.origin[s.entryTimes.index[t]] != |th.calls| - 1))
  }

  ghost predicate AllExact(s: State) {
    forall k :: 0 <= k < |s.samples| ==> Exact(s.samples[k])
  }

  /** With both programs attached: every timestamp is the current call's own. */
  ghost predicate CleanThread(s: State, t: nat)
    requires t in s.threads
  {
    var th := s.threads[t];
    && (t in s.entryTimes.index ==>
          && s.entryTimes.index[t] < |s.origin| && !th.pc.Idle?
          && (s.origin[s.entryTimes.index[t]] == |th.calls| - 1 || th.pc.Entering()))
    && (th.pc.Deleted() ==> th.pc.cell < |s.origin| && s.origin[th.pc.cell] == |th.calls| - 1)
  }

  ghost predicate Clean(s: State) {
    && s.exitOn && AllExact(s)
    && forall t :: t in s.threads ==> CleanThread(s, t)
  }

  lemma CleanCall(cfg: Config, s: State, a: Action)
    requires Shared(s) && s.exitOn && (a.SysEnter? || a.SysExit?)
    requires a.tid in s.threads && Own(cfg, s, a.tid) && CleanThread(s, a.tid)
    ensures var s' := Next(cfg, s, a); a.tid in s'.threads && CleanThread(s', a.tid) && s'.samples == s.samples
  {
  }

  lemma CleanEntering(cfg: Config, s: State, t: nat)
    requires Shared(s) && t in s.threads && Own(cfg, s, t) && CleanThread(s, t) && s.threads[t].pc.Entering()
    ensures t in Helper(s, t).threads && CleanThread(Helper(s, t), t)
  {
  }

  lemma CleanHelper(cfg: Config, s: State, t: nat)
    requires Shared(s) && t in s.threads && Own(cfg, s, t) && CleanThread(s, t)
    ensures t in Helper(s, t).threads && CleanThread(Helper(s, t), t)
  {
    if s.threads[t].pc.Entering() { CleanEntering(cfg, s, t); }
  }

  lemma CleanAdded(cfg: Config, s: State, t: nat, k: nat)
    requires t in s.threads && CleanThread(s, t) && AllExact(s) && k < |Helper(s, t).samples|
    ensures Exact(Helper(s, t).samples[k])
  {
  }

  lemma CleanOther(s: State, s': State, t: nat, u: nat)
    requires OnlyMoved(s, s', t) && u != t && u in s.threads && CleanThread(s, u)
    ensures CleanThread(s', u)
  {
    assert s'.entryTimes.Lookup(u) == s.entryTimes.Lookup(u);
  }

  lemma CleanMove(cfg: Config, s: State, a: Action)
    requires Inv(cfg, s) && Clean(s) && (a.SysEnter? || a.SysExit? || a.Step?) && a.tid in s.threads
    ensures Clean(Next(cfg, s, a))
  {
    NextOnlyMoves(cfg, s, a);
    OwnOf(cfg, s, a.tid);
    assert CleanThread(s, a.tid);
    CleanOwn(cfg, s, a);
    CleanSpreads(s, Next(cfg, s, a), a.tid);
  }

  lemma CleanOwn(cfg: Config, s: State, a: Action)
    requires (a.SysEnter? || a.SysExit? || a.Step?) && a.tid in s.threads
    requires Shared(s) && s.exitOn && Own(cfg, s, a.tid) && CleanThread(s, a.tid) && AllExact(s)
    ensures var s' := Next(cfg, s, a); a.tid in s'.threads && CleanThread(s', a.tid) && AllExact(s')
  {
    if a.Step? { CleanStep(cfg, s, a.tid); } else { CleanCall(cfg, s, a); }
  }

  lemma CleanStep(cfg: Config, s: State, t: nat)
    requires Shared(s) && t in s.threads && Own(cfg, s, t) && CleanThread(s, t) && AllExact(s)
    ensures t in Helper(s, t).threads && CleanThread(Helper(s, t), t) && AllExact(Helper(s, t))
  {
    CleanHelper(cfg, s, t);
    forall k | 0 <= k < |Helper(s, t).samples| ensures Exact(Helper(s, t).samples[k]) {
      CleanAdded(cfg, s, t, k);
    }
  }

  lemma CleanSpreads(s: State, s': State, t: nat)
    requires Clean(s) && OnlyMoved(s, s', t) && t in s'.threads && CleanThread(s', t) && AllExact(s')
    ensures Clean(s')
  {
    forall u | u in s'.threads ensures CleanThread(s', u) {
      if u != t { CleanOther(s, s', t, u); }
    }
  }

  lemma CleanKeeps(cfg: Config, s: State, a: Action)
    requires Inv(cfg, s) && Clean(s)
    ensures Clean(Next(cfg, s, a))
  {
    if (a.SysEnter? || a.SysExit? || a.Step?) && a.tid in s.threads {
      CleanMove(cfg, s, a);
    } else {
      NobodyMoves(cfg, s, a);
      CleanStill(s, Next(cfg, s, a));
    }
  }

  lemma CleanStill(s: State, s': State)
    requires Clean(s) && s'.exitOn && s'.threads == s.threads && s'.samples == s.samples
    requires s'.entryTimes == s.entryTimes && s'.origin == s.origin
    ensures Clean(s')
  {
    forall u | u in s'.threads ensures CleanThread(s', u) {
      assert CleanThread(s, u);
    }
  }

  lemma {:induction false} CleanRun(cfg: Config, s: State, rest: seq<Action>)
    requires Inv(cfg, s) && Clean(s)
    ensures AllExact(Run(cfg, s, rest))
    decreases rest
  {
    if rest == [] {
    } else {
      NextKeeps(cfg, s, rest[0]);
      CleanKeeps(cfg, s, rest[0]);
      CleanRun(cfg, Next(cfg, s, rest[0]), rest[1..]);
    }
  }

  /** How many helper calls separate an exit that has its timestamp from its add. */
  function Rank(pc: Pc): nat {
    match pc
    case ExitLookup => 6 case ExitClock(_) => 5 case ExitRead(_, _) => 4
    case ExitDelete(_, _, _) => 3 case ExitBucket(_, _, _) => 2 case ExitAdd(_, _, _) => 1
    case _ => 0
  }

  /** Thread t is in handle_exit, going to use cell `cell` for its call number i. */
  ghost predicate Ready(s: State, t: nat, cell: nat, i: nat) {
    && t in s.threads && |s.threads[t].calls| == i + 1 && Rank(s.threads[t].pc) > 0
    && cell < |s.origin| == |s.entryTimes.cells| && |s.histogram| == MAX_BUCKETS
    && (if s.threads[t].pc.ExitLookup? then s.entryTimes.Lookup(t) == Some(cell) else s.threads[t].pc.cell == cell)
    && (s.threads[t].pc.ExitAdd? ==> s.threads[t].pc.bucket < MAX_BUCKETS)
  }

  lemma ReadyReads(s: State, t: nat, cell: nat, i: nat)
    requires Ready(s, t, cell, i) && Rank(s.threads[t].pc) > 3
    ensures var s' := Helper(s, t);
      Ready(s', t, cell, i) && Rank(s'.threads[t].pc) == Rank(s.threads[t].pc) - 1 && s'.origin == s.origin
  {
  }

  lemma ReadyStep(s: State, t: nat, cell: nat, i: nat)
    requires Ready(s, t, cell, i) && Rank(s.threads[t].pc) > 1
    ensures var s' := Helper(s, t);
      Ready(s', t, cell, i) && Rank(s'.threads[t].pc) == Rank(s.threads[t].pc) - 1 && s'.origin == s.origin
  {
    if Rank(s.threads[t].pc) > 3 { ReadyReads(s, t, cell, i); } else { ReadyEnds(s, t, cell, i); }
  }

  lemma ReadyEnds(s: State, t: nat, cell: nat, i: nat)
    requires Ready(s, t, cell, i) && (s.threads[t].pc.ExitDelete? || s.threads[t].pc.ExitBucket?)
    ensures var s' := Helper(s, t);
      Ready(s', t, cell, i) && Rank(s'.threads[t].pc) == Rank(s.threads[t].pc) - 1 && s'.origin == s.origin
  {
  }

  /** The last sample of r joins these two calls. */
  ghost predicate EndsWith(r: State, entryCall: nat, exitCall: nat) {
    && r.samples != []
    && r.samples[|r.samples| - 1].entryCall == entryCall && r.samples[|r.samples| - 1].exitCall == exitCall
  }

  lemma ReadyLast(s: State, t: nat, cell: nat, i: nat)
    requires Ready(s, t, cell, i) && Rank(s.threads[t].pc) == 1
    ensures EndsWith(Helper(s, t), s.origin[cell], i)
  {
  }

  /** Some continuation ends with a sample joining these two calls. */
  ghost predicate Leads(cfg: Config, s: State, entryCall: nat, exitCall: nat) {
    exists rest :: EndsWith(Run(cfg, s, rest), entryCall, exitCall)
  }

  lemma LeadsBack(cfg: Config, s: State, a: Action, entryCall: nat, exitCall: nat)
    requires Leads(cfg, Next(cfg, s, a), entryCall, exitCall)
    ensures Leads(cfg, s, entryCall, exitCall)
  {
    var rest :| EndsWith(Run(cfg, Next(cfg, s, a), rest), entryCall, exitCall);
    RunCons(cfg, s, a, rest);
  }

  lemma LeadsNow(cfg: Config, s: State, entryCall: nat, exitCall: nat)
    requires EndsWith(s, entryCall, exitCall)
    ensures Leads(cfg, s, entryCall, exitCall)
  {
    assert Run(cfg, s, []) == s;
  }

  lemma {:induction false} Drain(cfg: Config, s: State, t: nat, cell: nat, i: nat)
    requires Ready(s, t, cell, i)
    ensures Leads(cfg, s, s.origin[cell], i)
    decreases Rank(s.threads[t].pc)
  {
    if Rank(s.threads[t].pc) > 1 {
      ReadyStep(s, t, cell, i);
      Drain(cfg, Helper(s, t), t, cell, i);
    } else {
      ReadyLast(s, t, cell, i);
      LeadsNow(cfg, Helper(s, t), s.origin[cell], i);
    }
    LeadsBack(cfg, s, Step(t), s.origin[cell], i);
  }

  /** Back in user code with a timestamp left: a call of another number changes
      neither the timestamp nor its origin. */
  lemma StaleEnters(cfg: Config, s: State, t: nat, other: nat)
    requires Shared(s) && t in s.threads && Own(cfg, s, t)
    requires Stale(s, t) && s.threads[t].pc.Idle? && other < TWO32 && other != cfg.targetSyscall
    ensures var s' := Next(cfg, s, SysEnter(t, other));
      s'.exitOn == s.exitOn && Stale(s', t) && s'.threads[t].pc.InCall? && AttachedFor(cfg, s', t)
  {
  }

  /** handle_exit will run for t, on well-formed maps. */
  ghost predicate AttachedFor(cfg: Config, s: State, t: nat)
    requires t in s.threads
  {
    && Admits(cfg, s.threads[t].pid) && |s.origin| == |s.entryTimes.cells| && |s.histogram| == MAX_BUCKETS
    && s.threads[t].calls != []
  }

  lemma StaleLeaves(cfg: Config, s: State, t: nat)
    requires s.exitOn && Stale(s, t) && s.threads[t].pc.InCall? && AttachedFor(cfg, s, t)
    ensures Leads(cfg, s, s.origin[s.entryTimes.index[t]], |s.threads[t].calls| - 1)
  {
    var cell, i := s.entryTimes.index[t], |s.threads[t].calls| - 1;
    var s' := Next(cfg, s, SysExit(t));
    assert Ready(s', t, cell, i);
    Drain(cfg, s', t, cell, i);
    LeadsBack(cfg, s, SysExit(t), s.origin[cell], i);
  }

  lemma LeadsAstray(cfg: Config, s: State, entryCall: nat, exitCall: nat) returns (rest: seq<Action>)
    requires Leads(cfg, s, entryCall, exitCall) && entryCall != exitCall
    ensures !AllExact(Run(cfg, s, rest))
  {
    rest :| EndsWith(Run(cfg, s, rest), entryCall, exitCall);
    var r := Run(cfg, s, rest);
    assert !Exact(r.samples[|r.samples| - 1]);
  }

  /** A stale timestamp gets mis-paired as soon as its thread makes another call. */
  lemma StaleMispairs(cfg: Config, s: State, t: nat) returns (rest: seq<Action>)
    requires Shared(s) && t in s.threads && Own(cfg, s, t) && s.exitOn && Stale(s, t)
    ensures !AllExact(Run(cfg, s, rest))
  {
    if s.threads[t].pc.Idle? {
      var enter := SysEnter(t, if cfg.targetSyscall == 0 then 1 else 0);
      StaleEnters(cfg, s, t, enter.id);
      var s1 := Next(cfg, s, enter);
      var i, j := s1.origin[s1.entryTimes.index[t]], |s1.threads[t].calls| - 1;
      StaleLeaves(cfg, s1, t);
      LeadsBack(cfg, s, enter, i, j);
      rest := LeadsAstray(cfg, s, i, j);
    } else {
      StaleLeaves(cfg, s, t);
      rest := LeadsAstray(cfg, s, s.origin[s.entryTimes.index[t]], |s.threads[t].calls| - 1);
    }
  }

  lemma SampledMeansAttached(cfg: Config, s: State, k: nat)
    requires Inv(cfg, s) && k < |s.samples|
    ensures s.exitOn
  {
    assert SampleOk(cfg, s, k) && Own(cfg, s, s.samples[k].tid);
  }

  lemma AttachCleanThread(cfg: Config, s: State, t: nat)
    requires Shared(s) && t in s.threads && Own(cfg, s, t) && !s.exitOn && !Stale(s, t)
    ensures CleanThread(s, t)
  {
  }

  lemma AttachClean(cfg: Config, s: State)
    requires Inv(cfg, s) && s.enterOn && !s.exitOn
    requires forall t :: t in s.threads ==> !Stale(s, t)
    ensures Clean(Next(cfg, s, AttachExit))
  {
    var s' := Next(cfg, s, AttachExit);
    if s.samples != [] { SampledMeansAttached(cfg, s, 0); }
    forall u | u in s'.threads ensures CleanThread(s', u) {
      AttachCleanThread(cfg, s, u);
    }
  }

  /** Attaching sys_exit second is harmless in every continuation if and only if,
      at that moment, no timestamp is left over from a call that already returned. */
  lemma AttachOrder(cfg: Config, pids: map<nat, nat>, before: seq<Action>)
    requires var s := Run(cfg, Loaded(pids), before); s.enterOn && !s.exitOn
    ensures var s := Run(cfg, Loaded(pids), before);
      (forall t :: t in s.threads ==> !Stale(s, t)) <==>
      (forall rest :: AllExact(Run(cfg, Next(cfg, s, AttachExit), rest)))
  {
    Reached(cfg, pids, before);
    var s := Run(cfg, Loaded(pids), before);
    var s' := Next(cfg, s, AttachExit);
    NextKeeps(cfg, s, AttachExit);
    if forall t :: t in s.threads ==> !Stale(s, t) {
      AttachClean(cfg, s);
      forall rest ensures AllExact(Run(cfg, s', rest)) {
        CleanRun(cfg, s', rest);
      }
    } else {
      var t :| t in s.threads && Stale(s, t);
      assert Stale(s', t);
      OwnOf(cfg, s', t);
      var rest := StaleMispairs(cfg, s', t);
    }
  }

  /** Some continuation leaves thread t a stale timestamp before sys_exit is attached. */
  ghost predicate CanGoStale(cfg: Config, s: State, t: nat) {
    exists rest :: var r := Run(cfg, s, rest); r.enterOn && !r.exitOn && Stale(r, t)
  }

  lemma StaleBack(cfg: Config, s: State, a: Action, t: nat)
    requires CanGoStale(cfg, Next(cfg, s, a), t)
    ensures CanGoStale(cfg, s, t)
  {
    var rest :| var r := Run(cfg, Next(cfg, s, a), rest); r.enterOn && !r.exitOn && Stale(r, t);
    RunCons(cfg, s, a, rest);
  }

  /** A read that entered, stored and returned while sys_exit was not attached. */
  lemma ReturnedUnseen(cfg: Config, s: State, t: nat)
    requires t in s.threads && s.threads[t].pc.EnterUpdate? && |s.threads[t].calls| == 1
    requires s.enterOn && !s.exitOn && s.entryTimes == EMPTY_MAP && s.origin == []
    ensures CanGoStale(cfg, s, t)
  {
    var s1 := Helper(s, t);
    var s2 := LeaveCall(cfg, s1, t);
    assert Stale(s2, t) && s2 == Run(cfg, s2, []);
    StaleBack(cfg, s1, SysExit(t), t);
    StaleBack(cfg, s, Step(t), t);
  }

  /** It does happen. */
  lemma StaleIsReachable()
    ensures CanGoStale(Config(0, 63), Loaded(map[1 := 7]), 1)
  {
    var cfg := Config(0, 63);
    var s0 := Loaded(map[1 := 7]);
    var s1 := s0.(enterOn := true);
    var s2 := EnterCall(cfg, s1, 1, 63);
    ReturnedUnseen(cfg, Helper(s2, 1), 1);
    StaleBack(cfg, s2, Step(1), 1);
    StaleBack(cfg, s1, SysEnter(1, 63), 1);
    StaleBack(cfg, s0, AttachEnter, 1);
  }
}
