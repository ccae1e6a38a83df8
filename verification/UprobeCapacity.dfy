/** When the timestamp map of the paired uprobe refuses an insert: exactly when more
    threads pass the filter than it has room for. */
module UprobeCapacity {
  import opened Bpf
  import opened Wire
  import opened Uprobe
  import opened UprobePairing
  import opened UprobeResults
  import Pool

  /** The threads handle_uprobe_pair_entry does not filter out. */
  function Watchable(cfg: Config, pids: map<nat, nat>): set<nat> {
    set t | t in pids && (cfg.targetPid == 0 || pids[t] == cfg.targetPid)
  }

  ghost predicate NoneRefused(th: Thread) {
    forall c :: 0 <= c < |th.calls| ==> !th.calls[c].insert.Refused?
  }

  ghost predicate NobodyRefused(s: State) {
    forall t :: t in s.threads ==> NoneRefused(s.threads[t])
  }

  /** The threads are the loaded ones, each in its process, and only they have keys. */
  ghost predicate Roster(pids: map<nat, nat>, s: State) {
    && s.threads.Keys == pids.Keys && (forall t :: t in pids ==> s.threads[t].pid == pids[t])
    && s.entryTs.index.Keys <= pids.Keys
  }

  /** Every thread that gets to store a timestamp has room for it. */
  predicate Roomy(cfg: Config, pids: map<nat, nat>) {
    cfg.kind.EntryExit? ==> |Watchable(cfg, pids)| <= MAX_ENTRIES
  }

  // ---- enough room: nothing is refused ----

  lemma KeysWatchable(cfg: Config, pids: map<nat, nat>, s: State)
    requires Inv(cfg, s) && Roster(pids, s)
    ensures s.entryTs.index.Keys <= Watchable(cfg, pids)
  {
    forall t | t in s.entryTs.index ensures t in Watchable(cfg, pids) {
      ThreadReady(cfg, s, t);
    }
  }

  lemma Accepted(cfg: Config, pids: map<nat, nat>, s: State, t: nat)
    requires Inv(cfg, s) && Roster(pids, s) && Roomy(cfg, pids)
    requires t in s.threads && s.threads[t].pc.Entering()
    ensures s.entryTs.Accepts(t, MAX_ENTRIES)
  {
    ThreadReady(cfg, s, t);
    KeysWatchable(cfg, pids, s);
    if t !in s.entryTs.index { Pool.Smaller(s.entryTs.index.Keys, Watchable(cfg, pids), t); }
  }

  /** The inserts of a thread's first n calls, and whatever is called later, are untouched. */
  ghost predicate SameInserts(th: Thread, th': Thread) {
    && |th.calls| <= |th'.calls|
    && (forall c :: 0 <= c < |th.calls| ==> th'.calls[c].insert == th.calls[c].insert)
    && (forall c :: |th.calls| <= c < |th'.calls| ==> th'.calls[c].insert.Untried?)
  }

  lemma CallDecidesNothing(cfg: Config, s: State, a: Action)
    requires (a.FnEnter? || a.FnExit?) && a.tid in s.threads
    ensures a.tid in Next(cfg, s, a).threads && SameInserts(s.threads[a.tid], Next(cfg, s, a).threads[a.tid])
  {
  }

  lemma MatchingDecidesNothing(cfg: Config, s: State, a: Action)
    requires a.Step? && a.tid in s.threads
    requires !s.threads[a.tid].pc.Emitting() && !s.threads[a.tid].pc.PairUpdate?
    ensures a.tid in Next(cfg, s, a).threads && SameInserts(s.threads[a.tid], Next(cfg, s, a).threads[a.tid])
  {
  }

  lemma EmittingDecidesNothing(cfg: Config, s: State, a: Action)
    requires a.Step? && a.tid in s.threads && s.threads[a.tid].pc.Emitting()
    ensures a.tid in Next(cfg, s, a).threads && SameInserts(s.threads[a.tid], Next(cfg, s, a).threads[a.tid])
  {
  }

  lemma StoreRefusesNothing(cfg: Config, s: State, a: Action)
    requires a.Step? && a.tid in s.threads && s.threads[a.tid].pc.PairUpdate?
    requires NoneRefused(s.threads[a.tid]) && s.entryTs.Accepts(a.tid, MAX_ENTRIES)
    ensures a.tid in Next(cfg, s, a).threads && NoneRefused(Next(cfg, s, a).threads[a.tid])
  {
  }

  lemma ThreadRefusesNothing(cfg: Config, s: State, a: Action)
    requires (a.FnEnter? || a.FnExit? || a.Step?) && a.tid in s.threads && NoneRefused(s.threads[a.tid])
    requires s.threads[a.tid].pc.PairUpdate? ==> s.entryTs.Accepts(a.tid, MAX_ENTRIES)
    ensures a.tid in Next(cfg, s, a).threads && NoneRefused(Next(cfg, s, a).threads[a.tid])
  {
    if !a.Step? { CallDecidesNothing(cfg, s, a); }
    else if s.threads[a.tid].pc.PairUpdate? { StoreRefusesNothing(cfg, s, a); }
    else if s.threads[a.tid].pc.Emitting() { EmittingDecidesNothing(cfg, s, a); }
    else { MatchingDecidesNothing(cfg, s, a); }
  }

  /** Nobody but t gains a key. */
  ghost predicate OneKey(s: State, s': State, t: nat) {
    s'.entryTs.index.Keys <= s.entryTs.index.Keys + {t}
  }

  lemma ThreadKeys(cfg: Config, s: State, a: Action)
    requires Inv(cfg, s) && (a.FnEnter? || a.FnExit? || a.Step?) && a.tid in s.threads
    ensures OneKey(s, Next(cfg, s, a), a.tid)
  {
    ThreadReady(cfg, s, a.tid);
    ThreadMoves(cfg, s, a);
    MovedKeys(cfg, s, Next(cfg, s, a), a.tid);
  }

  lemma MovedKeys(cfg: Config, s: State, s': State, t: nat)
    requires s' == s || OnlyMoved(cfg, s, s', t)
    ensures OneKey(s, s', t)
  {
    if s' != s {
      forall u | u in s'.entryTs.index && u != t ensures u in s.entryTs.index {
        assert s'.entryTs.Lookup(u) == s.entryTs.Lookup(u);
      }
    }
  }

  lemma Spread(pids: map<nat, nat>, s: State, s': State, t: nat)
    requires Roster(pids, s) && NobodyRefused(s) && t in s.threads && OneThread(s, s', t) && OneKey(s, s', t)
    requires NoneRefused(s'.threads[t])
    ensures Roster(pids, s') && NobodyRefused(s')
  {
  }

  lemma SameThreads(pids: map<nat, nat>, s: State, s': State)
    requires Roster(pids, s) && NobodyRefused(s) && s'.threads == s.threads && s'.entryTs == s.entryTs
    ensures Roster(pids, s') && NobodyRefused(s')
  {
  }

  lemma NextRefusesNothing(cfg: Config, pids: map<nat, nat>, s: State, a: Action)
    requires Inv(cfg, s) && Roster(pids, s) && Roomy(cfg, pids) && NobodyRefused(s)
    ensures Roster(pids, Next(cfg, s, a)) && NobodyRefused(Next(cfg, s, a))
  {
    var s' := Next(cfg, s, a);
    if (a.FnEnter? || a.FnExit? || a.Step?) && a.tid in s.threads {
      NextOneThread(cfg, s, a);
      ThreadKeys(cfg, s, a);
      if s.threads[a.tid].pc.PairUpdate? { Accepted(cfg, pids, s, a.tid); }
      assert NoneRefused(s.threads[a.tid]);
      ThreadRefusesNothing(cfg, s, a);
      Spread(pids, s, s', a.tid);
    } else {
      NobodyMoves(cfg, s, a);
      SameThreads(pids, s, s');
    }
  }

  lemma {:induction false} RunRefusesNothing(cfg: Config, pids: map<nat, nat>, s: State, rest: seq<Action>)
    requires Inv(cfg, s) && Roster(pids, s) && Roomy(cfg, pids) && NobodyRefused(s)
    ensures NobodyRefused(Run(cfg, s, rest))
    decreases rest
  {
    if rest == [] {
    } else {
      NextKeeps(cfg, s, rest[0]);
      NextRefusesNothing(cfg, pids, s, rest[0]);
      RunRefusesNothing(cfg, pids, Next(cfg, s, rest[0]), rest[1..]);
    }
  }

  // ---- not enough room: some run refuses an insert ----

  ghost predicate CanRefuse(cfg: Config, s: State) {
    exists rest :: !NobodyRefused(Run(cfg, s, rest))
  }

  lemma RefuseBack(cfg: Config, s: State, a: Action)
    requires CanRefuse(cfg, Next(cfg, s, a))
    ensures CanRefuse(cfg, s)
  {
    var rest :| !NobodyRefused(Run(cfg, Next(cfg, s, a), rest));
    RunCons(cfg, s, a, rest);
  }

  /** A set of threads in user code that could each store a timestamp. */
  ghost predicate Eager(cfg: Config, s: State, ts: set<nat>) {
    && s.entryOn && cfg.kind.EntryExit?
    && forall t :: t in ts ==>
         && t in s.threads && s.threads[t].pc.User? && s.threads[t].stack == []
         && Admits(cfg, s.threads[t].pid) && t !in s.entryTs.index
  }

  function HelperCall(t: nat): Action { Step(t, false, [], []) }

  /** One of them calls the traced function and runs handle_uprobe_pair_entry. */
  function Entered(cfg: Config, s: State, t: nat): State
    requires t in s.threads
  {
    var s1 := Enter(cfg, s, t, 0, 0);
    var s2 := Next(cfg, s1, HelperCall(t));
    Next(cfg, s2, HelperCall(t))
  }

  lemma EntersAndStores(cfg: Config, s: State, t: nat, ts: set<nat>)
    requires Eager(cfg, s, ts) && t in ts && |s.entryTs.index| < MAX_ENTRIES
    ensures var s' := Entered(cfg, s, t);
      Eager(cfg, s', ts - {t}) && |s'.entryTs.index| == |s.entryTs.index| + 1
  {
    var s' := Entered(cfg, s, t);
    assert s'.entryTs.index.Keys == s.entryTs.index.Keys + {t};
  }

  lemma EntersAndIsRefused(cfg: Config, s: State, t: nat, ts: set<nat>)
    requires Eager(cfg, s, ts) && t in ts && |s.entryTs.index| >= MAX_ENTRIES
    ensures !NobodyRefused(Entered(cfg, s, t))
  {
    var s' := Entered(cfg, s, t);
    assert s'.threads[t].calls[|s.threads[t].calls|].insert.Refused?;
    assert !NoneRefused(s'.threads[t]);
  }

  lemma EnteredBack(cfg: Config, s: State, t: nat, ts: set<nat>)
    requires Eager(cfg, s, ts) && t in ts && CanRefuse(cfg, Entered(cfg, s, t))
    ensures CanRefuse(cfg, s)
  {
    var s1 := Enter(cfg, s, t, 0, 0);
    RefuseBack(cfg, Next(cfg, s1, HelperCall(t)), HelperCall(t));
    RefuseBack(cfg, s1, HelperCall(t));
    RefuseBack(cfg, s, FnEnter(t, 0, 0));
  }

  lemma {:induction false} FillUp(cfg: Config, s: State, ts: set<nat>)
    requires Eager(cfg, s, ts) && |s.entryTs.index| <= MAX_ENTRIES < |s.entryTs.index| + |ts|
    ensures CanRefuse(cfg, s)
    decreases ts
  {
    var t :| t in ts;
    if |s.entryTs.index| < MAX_ENTRIES {
      EntersAndStores(cfg, s, t, ts);
      FillUp(cfg, Entered(cfg, s, t), ts - {t});
    } else {
      EntersAndIsRefused(cfg, s, t, ts);
      assert Run(cfg, Entered(cfg, s, t), []) == Entered(cfg, s, t);
    }
    EnteredBack(cfg, s, t, ts);
  }

  lemma TooMany(cfg: Config, pids: map<nat, nat>)
    requires !Roomy(cfg, pids)
    ensures CanRefuse(cfg, Loaded(pids))
  {
    var s := Loaded(pids).(entryOn := true);
    assert Eager(cfg, s, Watchable(cfg, pids));
    FillUp(cfg, s, Watchable(cfg, pids));
    RefuseBack(cfg, Loaded(pids), AttachEntry);
  }

  // ---- the results ----

  /** No run of a uprobe program ever refuses an insert if and only if it is a
      single-ended one or at most 10240 threads pass its filter. */
  lemma RefusesIff(cfg: Config, pids: map<nat, nat>)
    ensures Roomy(cfg, pids) <==> !CanRefuse(cfg, Loaded(pids))
  {
    if Roomy(cfg, pids) {
      LoadedInv(cfg, pids);
      if CanRefuse(cfg, Loaded(pids)) {
        var schedule :| !NobodyRefused(Run(cfg, Loaded(pids), schedule));
        RunRefusesNothing(cfg, pids, Loaded(pids), schedule);
      }
    } else {
      TooMany(cfg, pids);
    }
  }

  /** With room for every watched thread, a finished leaf whose return was caught has
      its one event unless the ring was full. */
  lemma LeavesAreReportedWithRoom(cfg: Config, pids: map<nat, nat>, schedule: seq<Action>, t: nat, c: nat)
    requires Roomy(cfg, pids)
    requires var s := Run(cfg, Loaded(pids), schedule);
      && cfg.kind.EntryExit? && t in s.threads && Finished(s.threads[t], c)
      && s.threads[t].calls[c].hooked && (cfg.targetPid == 0 || s.threads[t].pid == cfg.targetPid)
    ensures var s := Run(cfg, Loaded(pids), schedule); var call := s.threads[t].calls[c];
      if call.inner then NoRecord(s, t, c) else OneRecord(s, t, c) || (call.outcome.Dropped? && NoRecord(s, t, c))
  {
    LeavesAreReported(cfg, pids, schedule, t, c);
    LoadedInv(cfg, pids);
    RunRefusesNothing(cfg, pids, Loaded(pids), schedule);
    var s := Run(cfg, Loaded(pids), schedule);
    assert NoneRefused(s.threads[t]);
  }
}
