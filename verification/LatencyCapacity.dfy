/** When the timestamp map of the latency engine refuses an insert: exactly when more
    threads pass the filter than it has room for. */
module LatencyCapacity {
  import opened Bpf
  import opened Latency
  import opened LatencyPairing
  import opened LatencyResults
  import Pool

  /** The threads handle_enter does not filter out. */
  function Watchable(cfg: Config, pids: map<nat, nat>): set<nat> {
    set t | t in pids && (cfg.targetPid == 0 || pids[t] == cfg.targetPid)
  }

  ghost predicate NoneRefused(th: Thread) {
    forall i :: 0 <= i < |th.calls| ==> !th.calls[i].insert.Refused?
  }

  ghost predicate NobodyRefused(s: State) {
    forall t :: t in s.threads ==> NoneRefused(s.threads[t])
  }

  /** The threads are the loaded ones, each in its process. */
  ghost predicate Roster(pids: map<nat, nat>, s: State) {
    s.threads.Keys == pids.Keys && forall t :: t in pids ==> s.threads[t].pid == pids[t]
  }

  // ---- enough room: nothing is refused ----

  lemma KeysWatchable(cfg: Config, pids: map<nat, nat>, s: State)
    requires Inv(cfg, s) && Roster(pids, s)
    ensures s.entryTimes.index.Keys <= Watchable(cfg, pids)
  {
    forall t | t in s.entryTimes.index ensures t in Watchable(cfg, pids) {
      OwnOf(cfg, s, t);
    }
  }

  lemma Accepted(cfg: Config, pids: map<nat, nat>, s: State, t: nat)
    requires Inv(cfg, s) && Roster(pids, s) && |Watchable(cfg, pids)| <= MAX_ENTRIES
    requires t in s.threads && s.threads[t].pc.Entering()
    ensures s.entryTimes.Accepts(t, MAX_ENTRIES)
  {
    OwnOf(cfg, s, t);
    KeysWatchable(cfg, pids, s);
    if t !in s.entryTimes.index { Pool.Smaller(s.entryTimes.index.Keys, Watchable(cfg, pids), t); }
  }

  lemma StoreRefusesNothing(s: State, t: nat, ts: nat)
    requires t in s.threads && NoneRefused(s.threads[t]) && s.threads[t].calls != []
    requires s.entryTimes.Accepts(t, MAX_ENTRIES)
    ensures t in StoreEntry(s, t, ts).threads && NoneRefused(StoreEntry(s, t, ts).threads[t])
  {
  }

  /** No insert is decided between th and th'. */
  ghost predicate SameInserts(th: Thread, th': Thread) {
    |th'.calls| == |th.calls| && forall i :: 0 <= i < |th.calls| ==> th'.calls[i].insert == th.calls[i].insert
  }

  /** Only the update in handle_enter decides what becomes of an insert. */
  lemma OthersDecideNothing(s: State, t: nat)
    requires t in s.threads && !s.threads[t].pc.EnterUpdate?
    ensures t in Helper(s, t).threads && SameInserts(s.threads[t], Helper(s, t).threads[t])
  {
    if s.threads[t].pc.Deleted() { EndsDecideNothing(s, t); }
    else if s.threads[t].pc.Exiting() { ExitsDecideNothing(s, t); }
  }

  lemma ExitsDecideNothing(s: State, t: nat)
    requires t in s.threads && s.threads[t].pc.Exiting() && !s.threads[t].pc.Deleted()
    ensures t in Helper(s, t).threads && SameInserts(s.threads[t], Helper(s, t).threads[t])
  {
  }

  lemma EndsDecideNothing(s: State, t: nat)
    requires t in s.threads && s.threads[t].pc.Deleted()
    ensures t in Helper(s, t).threads && SameInserts(s.threads[t], Helper(s, t).threads[t])
  {
  }

  lemma HelperRefusesNothing(s: State, t: nat)
    requires t in s.threads && NoneRefused(s.threads[t])
    requires s.threads[t].pc.EnterUpdate? ==> s.entryTimes.Accepts(t, MAX_ENTRIES)
    ensures t in Helper(s, t).threads && NoneRefused(Helper(s, t).threads[t])
  {
    if s.threads[t].pc.EnterUpdate? {
      if s.threads[t].calls != [] { StoreRefusesNothing(s, t, s.threads[t].pc.ts); }
    } else {
      OthersDecideNothing(s, t);
    }
  }

  lemma CallRefusesNothing(cfg: Config, s: State, a: Action)
    requires (a.SysEnter? || a.SysExit?) && a.tid in s.threads && NoneRefused(s.threads[a.tid])
    ensures a.tid in Next(cfg, s, a).threads && NoneRefused(Next(cfg, s, a).threads[a.tid])
  {
  }

  lemma NextRefusesNothing(cfg: Config, pids: map<nat, nat>, s: State, a: Action)
    requires Inv(cfg, s) && Roster(pids, s) && |Watchable(cfg, pids)| <= MAX_ENTRIES && NobodyRefused(s)
    ensures Roster(pids, Next(cfg, s, a)) && NobodyRefused(Next(cfg, s, a))
  {
    var s' := Next(cfg, s, a);
    if (a.SysEnter? || a.SysExit? || a.Step?) && a.tid in s.threads {
      ThreadAlone(cfg, s, a);
      if s.threads[a.tid].pc.EnterUpdate? { Accepted(cfg, pids, s, a.tid); }
      assert NoneRefused(s.threads[a.tid]);
      ThreadRefusesNothing(cfg, s, a);
      Spread(pids, s, s', a.tid);
    } else {
      NobodyMoves(cfg, s, a);
      SameThreads(pids, s, s');
    }
  }

  lemma SameThreads(pids: map<nat, nat>, s: State, s': State)
    requires Roster(pids, s) && NobodyRefused(s) && s'.threads == s.threads
    ensures Roster(pids, s') && NobodyRefused(s')
  {
  }

  lemma Spread(pids: map<nat, nat>, s: State, s': State, t: nat)
    requires Roster(pids, s) && NobodyRefused(s) && Alone(s, s', t) && NoneRefused(s'.threads[t])
    ensures Roster(pids, s') && NobodyRefused(s')
  {
  }

  /** From s to s' only thread t moved, and it stayed in its process. */
  ghost predicate Alone(s: State, s': State, t: nat) {
    && t in s.threads && s'.threads.Keys == s.threads.Keys && s'.threads[t].pid == s.threads[t].pid
    && forall u :: u in s.threads && u != t ==> s'.threads[u] == s.threads[u]
  }

  /** A thread's step leaves the other threads, and its own process, as they are. */
  lemma ThreadAlone(cfg: Config, s: State, a: Action)
    requires Inv(cfg, s) && (a.SysEnter? || a.SysExit? || a.Step?) && a.tid in s.threads
    ensures Alone(s, Next(cfg, s, a), a.tid)
  {
    NextOnlyMoves(cfg, s, a);
  }

  lemma ThreadRefusesNothing(cfg: Config, s: State, a: Action)
    requires (a.SysEnter? || a.SysExit? || a.Step?) && a.tid in s.threads && NoneRefused(s.threads[a.tid])
    requires s.threads[a.tid].pc.EnterUpdate? ==> s.entryTimes.Accepts(a.tid, MAX_ENTRIES)
    ensures a.tid in Next(cfg, s, a).threads && NoneRefused(Next(cfg, s, a).threads[a.tid])
  {
    if a.Step? {
      HelperRefusesNothing(s, a.tid);
    } else {
      CallRefusesNothing(cfg, s, a);
    }
  }

  lemma {:induction false} RunRefusesNothing(cfg: Config, pids: map<nat, nat>, s: State, rest: seq<Action>)
    requires Inv(cfg, s) && Roster(pids, s) && |Watchable(cfg, pids)| <= MAX_ENTRIES && NobodyRefused(s)
    ensures NobodyRefused(Run(cfg, s, rest))
    decreases rest
  {
    if rest == [] {
    } else {
      NextKeeps(cfg, s, rest[0]);
      NextRefusesNothing(cfg, pids, s, rest[0]);
      RunRefusesNothing(cfg, pids, Next(cfg, s, rest[0]), rest[1..]);
    }
  }

  // ---- not enough room: some run refuses an insert ----

  ghost predicate CanRefuse(cfg: Config, s: State) {
    exists rest :: !NobodyRefused(Run(cfg, s, rest))
  }

  lemma RefuseBack(cfg: Config, s: State, a: Action)
    requires CanRefuse(cfg, Next(cfg, s, a))
    ensures CanRefuse(cfg, s)
  {
    var rest :| !NobodyRefused(Run(cfg, Next(cfg, s, a), rest));
    RunCons(cfg, s, a, rest);
  }

  /** A set of idle threads that could each store a timestamp. */
  ghost predicate Eager(cfg: Config, s: State, ts: set<nat>) {
    && s.enterOn && cfg.targetSyscall < TWO32
    && forall t :: t in ts ==>
         t in s.threads && s.threads[t].pc.Idle? && Admits(cfg, s.threads[t].pid) && t !in s.entryTimes.index
  }

  /** One of them makes a target call and runs handle_enter. */
  function Entered(cfg: Config, s: State, t: nat): State
    requires t in s.threads
  {
    var s1 := EnterCall(cfg, s, t, cfg.targetSyscall);
    var s2 := Helper(s1, t);
    if t in s2.threads then Helper(s2, t) else s2
  }

  lemma EntersAndStores(cfg: Config, s: State, t: nat, ts: set<nat>)
    requires Eager(cfg, s, ts) && t in ts && |s.entryTimes.index| < MAX_ENTRIES
    ensures var s' := Entered(cfg, s, t);
      Eager(cfg, s', ts - {t}) && |s'.entryTimes.index| == |s.entryTimes.index| + 1
  {
    var s' := Entered(cfg, s, t);
    assert s'.entryTimes.index.Keys == s.entryTimes.index.Keys + {t};
  }

  lemma EntersAndIsRefused(cfg: Config, s: State, t: nat, ts: set<nat>)
    requires Eager(cfg, s, ts) && t in ts && |s.entryTimes.index| >= MAX_ENTRIES
    ensures !NobodyRefused(Entered(cfg, s, t))
  {
    var s' := Entered(cfg, s, t);
    assert s'.threads[t].calls[|s.threads[t].calls|].insert.Refused?;
    assert !NoneRefused(s'.threads[t]);
  }

  lemma EnteredBack(cfg: Config, s: State, t: nat, ts: set<nat>)
    requires Eager(cfg, s, ts) && t in ts && CanRefuse(cfg, Entered(cfg, s, t))
    ensures CanRefuse(cfg, s)
  {
    var s1 := EnterCall(cfg, s, t, cfg.targetSyscall);
    var s2 := Helper(s1, t);
    RefuseBack(cfg, s2, Step(t));
    RefuseBack(cfg, s1, Step(t));
    RefuseBack(cfg, s, SysEnter(t, cfg.targetSyscall));
  }

  lemma {:induction false} FillUp(cfg: Config, s: State, ts: set<nat>)
    requires Eager(cfg, s, ts) && |s.entryTimes.index| <= MAX_ENTRIES < |s.entryTimes.index| + |ts|
    ensures CanRefuse(cfg, s)
    decreases ts
  {
    var t :| t in ts;
    if |s.entryTimes.index| < MAX_ENTRIES {
      EntersAndStores(cfg, s, t, ts);
      FillUp(cfg, Entered(cfg, s, t), ts - {t});
    } else {
      EntersAndIsRefused(cfg, s, t, ts);
      assert Run(cfg, Entered(cfg, s, t), []) == Entered(cfg, s, t);
    }
    EnteredBack(cfg, s, t, ts);
  }

  lemma TooMany(cfg: Config, pids: map<nat, nat>)
    requires cfg.targetSyscall < TWO32 && |Watchable(cfg, pids)| > MAX_ENTRIES
    ensures CanRefuse(cfg, Loaded(pids))
  {
    var s := Loaded(pids).(enterOn := true);
    assert Eager(cfg, s, Watchable(cfg, pids));
    FillUp(cfg, s, Watchable(cfg, pids));
    RefuseBack(cfg, Loaded(pids), AttachEnter);
  }

  // ---- the results ----

  /** No run of the engine ever refuses an insert if and only if at most 10240 threads
      pass the filter. */
  lemma RefusesIff(cfg: Config, pids: map<nat, nat>)
    requires cfg.targetSyscall < TWO32
    ensures |Watchable(cfg, pids)| <= MAX_ENTRIES <==> !CanRefuse(cfg, Loaded(pids))
  {
    var s := Loaded(pids);
    if |Watchable(cfg, pids)| <= MAX_ENTRIES {
      LoadedInv(cfg, pids);
      if CanRefuse(cfg, s) {
        var schedule :| !NobodyRefused(Run(cfg, s, schedule));
        RunRefusesNothing(cfg, pids, s, schedule);
      }
    } else {
      TooMany(cfg, pids);
    }
  }

  /** With room for every watched thread nothing is missed: once both programs are
      attached, every target call an admitted thread begins and finishes is counted
      exactly once, with its own two times. */
  lemma NothingMissedWithRoom(cfg: Config, pids: map<nat, nat>, before: seq<Action>, rest: seq<Action>,
                              t: nat, i: nat)
    requires |Watchable(cfg, pids)| <= MAX_ENTRIES
    requires var s0 := Run(cfg, Loaded(pids), before);
      && s0.enterOn && s0.exitOn && t in s0.threads
      && (cfg.targetPid == 0 || s0.threads[t].pid == cfg.targetPid)
      && |s0.threads[t].calls| <= i
    requires var s := Run(cfg, Run(cfg, Loaded(pids), before), rest);
      t in s.threads && Finished(s, t, i) && s.threads[t].calls[i].nr == cfg.targetSyscall
    ensures CountedOnce(Run(cfg, Run(cfg, Loaded(pids), before), rest), t, i)
  {
    NothingMissed(cfg, pids, before, rest, t, i);
    LoadedInv(cfg, pids);
    RunRefusesNothing(cfg, pids, Loaded(pids), before + rest);
    RunConcat(cfg, Loaded(pids), before, rest);
    var s := Run(cfg, Run(cfg, Loaded(pids), before), rest);
    assert NoneRefused(s.threads[t]);
  }
}
