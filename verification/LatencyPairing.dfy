/** Which call each latency sample belongs to, over all runs. */
module LatencyPairing {
  import opened Bpf
  import opened Latency
  import Log2

  // ---- what holds of one thread ----

  ghost predicate Hooks(cfg: Config, s: State, t: nat)
    requires t in s.threads
  {
    var th := s.threads[t]; var cs := th.calls; var n := |cs|;
    && (!th.pc.Idle? ==> n > 0)
    && (forall i :: 0 <= i < n && cs[i].hooked ==> s.exitOn && Admits(cfg, th.pid))
    && (forall i, j :: 0 <= i < j < n && cs[i].hooked && (j < n - 1 || th.pc.Idle?) ==> cs[j].hooked)
    && (th.pc.Exiting() ==> cs[n - 1].hooked)
    && (th.pc.Entering() || th.pc.InCall? ==> !cs[n - 1].hooked)
    && (th.pc.Entering() ==>
          s.enterOn && Admits(cfg, th.pid) && cs[n - 1].nr == cfg.targetSyscall && cs[n - 1].insert.Untried?)
    && (th.pc.EnterUpdate? ==> cs[n - 1].entered == Some(th.pc.ts) && th.pc.ts <= s.clock)
    && (!th.pc.Idle? ==> cs[n - 1].counted.None?)
    && (th.pc.EnterClock? ==> cs[n - 1].entered.None?)
    && (forall i :: 0 <= i < n && cs[i].entered.Some? ==>
          cs[i].nr == cfg.targetSyscall && (i < n - 1 || !th.pc.EnterUpdate? ==> !cs[i].insert.Untried?))
    && (forall i :: 0 <= i < n && !cs[i].insert.Untried? ==> cs[i].entered.Some?)
  }

  /** Cell `cell` was allocated by a target call of thread t and holds the time
      that call's handle_enter read. */
  ghost predicate Stamped(cfg: Config, s: State, t: nat, cell: nat)
    requires t in s.threads
  {
    var cs := s.threads[t].calls;
    && cell < |s.entryTimes.cells| == |s.origin| && s.origin[cell] < |cs|
    && cs[s.origin[cell]].nr == cfg.targetSyscall && cs[s.origin[cell]].insert.Stored?
    && cs[s.origin[cell]].entered == Some(s.entryTimes.cells[cell])
    && s.entryTimes.cells[cell] <= s.clock < TWO64
  }

  ghost predicate NoneHookedBefore(cs: seq<Call>, n: int) {
    forall i :: 0 <= i < n && i < |cs| ==> !cs[i].hooked
  }

  /** The timestamp kept for t, if any, is the current call's own, or no exit of t
      has been handled yet and the current call did not store one. */
  ghost predicate Entry(cfg: Config, s: State, t: nat)
    requires t in s.threads
  {
    t in s.entryTimes.index ==>
      var th := s.threads[t]; var cs := th.calls; var cell := s.entryTimes.index[t];
      && Stamped(cfg, s, t, cell) && s.enterOn && Admits(cfg, th.pid)
      && (cs[|cs| - 1].hooked ==> th.pc.ExitLookup? || th.pc.HoldsEntry())
      && (s.origin[cell] != |cs| - 1 ==>
            && NoneHookedBefore(cs, |cs| - 1)
            && (!th.pc.Entering() ==> cs[|cs| - 1].nr != cfg.targetSyscall))
  }

  /** What handle_exit holds in its locals. */
  ghost predicate Locals(cfg: Config, s: State, t: nat)
    requires t in s.threads
  {
    var th := s.threads[t]; var cs := th.calls; var pc := th.pc;
    && !pc.ExitInit?
    && (pc.HoldsEntry() ==> t in s.entryTimes.index && s.entryTimes.index[t] == pc.cell)
    && (pc.Deleted() ==>
          && t !in s.entryTimes.index && cs != [] && Stamped(cfg, s, t, pc.cell)
          && (s.origin[pc.cell] != |cs| - 1 ==>
                NoneHookedBefore(cs, |cs| - 1) && cs[|cs| - 1].nr != cfg.targetSyscall))
    && ((pc.HoldsEntry() && !pc.ExitClock?) || pc.Deleted() ==>
          && cs != [] && cs[|cs| - 1].exited == Some(pc.now)
          && pc.cell < |s.entryTimes.cells| && s.entryTimes.cells[pc.cell] <= pc.now <= s.clock
          && (pc.ExitDelete? || pc.ExitBucket? ==> pc.duration == pc.now - s.entryTimes.cells[pc.cell])
          && (pc.ExitAdd? ==> pc.bucket == Log2.Bucket(pc.now - s.entryTimes.cells[pc.cell])))
  }

  /** A stored timestamp is on its way to a sample as soon as its exit is handled. */
  ghost predicate Owed(s: State, t: nat)
    requires t in s.threads
  {
    var th := s.threads[t]; var cs := th.calls; var n := |cs|;
    && (forall i :: 0 <= i < n && cs[i].insert.Stored? && cs[i].hooked && (i < n - 1 || th.pc.Idle?) ==>
          cs[i].counted.Some?)
    && ((th.pc.InCall? || th.pc.ExitLookup?) && n > 0 && cs[n - 1].insert.Stored? ==>
          && t in s.entryTimes.index && s.entryTimes.index[t] < |s.origin|
          && s.origin[s.entryTimes.index[t]] == n - 1)
    && (forall i :: 0 <= i < n && cs[i].counted.Some? ==>
          && cs[i].counted.value < |s.samples|
          && s.samples[cs[i].counted.value].tid == t
          && s.samples[cs[i].counted.value].exitCall == i)
  }

  ghost predicate Own(cfg: Config, s: State, t: nat)
    requires t in s.threads
  {
    Hooks(cfg, s, t) && Entry(cfg, s, t) && Locals(cfg, s, t) && Owed(s, t)
  }

  /** What is true of sample k. It is a mis-pairing exactly when the syscall that
      returned was not the target, and then no earlier exit of its thread was ever
      handled. */
  ghost predicate SampleOk(cfg: Config, s: State, k: nat)
    requires k < |s.samples|
  {
    var x := s.samples[k];
    && x.tid in s.threads
    && var cs := s.threads[x.tid].calls;
    && x.entryCall <= x.exitCall < |cs|
    && cs[x.entryCall].nr == cfg.targetSyscall && cs[x.entryCall].entered == Some(x.start)
    && cs[x.entryCall].insert.Stored?
    && cs[x.exitCall].hooked && cs[x.exitCall].exited == Some(x.end) && cs[x.exitCall].counted == Some(k)
    && x.start <= x.end && x.bucket == Log2.Bucket(x.end - x.start)
    && (x.entryCall == x.exitCall <==> cs[x.exitCall].nr == cfg.targetSyscall)
    && (x.entryCall != x.exitCall ==> NoneHookedBefore(cs, x.exitCall))
  }

  ghost predicate Shared(s: State) {
    && s.entryTimes.Valid() && |s.entryTimes.cells| == |s.origin| && |s.entryTimes.index| <= MAX_ENTRIES
    && (s.exitOn ==> s.enterOn) && s.clock < TWO64 && |s.histogram| == MAX_BUCKETS
    && (forall t :: t in s.entryTimes.index ==> t in s.threads)
  }

  ghost predicate Inv(cfg: Config, s: State) {
    && Shared(s)
    && (forall t :: t in s.threads ==> Own(cfg, s, t))
    && (forall k :: 0 <= k < |s.samples| ==> SampleOk(cfg, s, k))
  }

  lemma OwnOf(cfg: Config, s: State, t: nat)
    requires Inv(cfg, s) && t in s.threads
    ensures Shared(s) && Own(cfg, s, t)
  {
  }

  lemma SampleOf(cfg: Config, s: State, k: nat)
    requires Inv(cfg, s) && k < |s.samples|
    ensures SampleOk(cfg, s, k)
  {
  }

  // ---- a step of one thread leaves the others alone ----

  /** From s to s', thread t moved: the rest of the state only grew. */
  ghost predicate OnlyMoved(s: State, s': State, t: nat) {
    && s'.threads.Keys == s.threads.Keys
    && (forall u :: u in s.threads && u != t ==> s'.threads[u] == s.threads[u])
    && (forall u :: u != t ==> s'.entryTimes.Lookup(u) == s.entryTimes.Lookup(u))
    && Prefix(s.entryTimes.cells, s'.entryTimes.cells) && Prefix(s.origin, s'.origin)
    && Prefix(s.samples, s'.samples)
    && s.clock <= s'.clock && (s.enterOn ==> s'.enterOn) && (s.exitOn ==> s'.exitOn)
    && (t in s.threads ==> SettledCalls(s.threads[t], s'.threads[t]))
  }

  /** The calls a thread has finished never change again. */
  ghost predicate SettledCalls(th: Thread, th': Thread) {
    && th'.pid == th.pid && |th.calls| <= |th'.calls|
    && forall i :: 0 <= i < |th.calls| && (i < |th.calls| - 1 || th.pc.Idle?) ==> th'.calls[i] == th.calls[i]
  }

  lemma OthersKeep(cfg: Config, s: State, s': State, t: nat, u: nat)
    requires Shared(s) && Shared(s') && OnlyMoved(s, s', t)
    requires u != t && u in s.threads && Own(cfg, s, u)
    ensures Own(cfg, s', u)
  {
    assert s'.entryTimes.Lookup(u) == s.entryTimes.Lookup(u);
    assert u in s'.entryTimes.index <==> u in s.entryTimes.index;
  }

  lemma SamplesKeep(cfg: Config, s: State, s': State, t: nat, k: nat)
    requires OnlyMoved(s, s', t) && k < |s.samples|
    requires SampleOk(cfg, s, k) && Hooks(cfg, s, s.samples[k].tid)
    ensures k < |s'.samples| && SampleOk(cfg, s', k)
  {
    var x := s.samples[k];
    assert s'.samples[k] == x;
    var th, th' := s.threads[x.tid], s'.threads[x.tid];
    assert th.pc.Idle? || x.exitCall < |th.calls| - 1;
    assert forall i :: 0 <= i <= x.exitCall ==> th'.calls[i] == th.calls[i];
  }

  // ---- a step keeps what holds of the thread that takes it ----

  /** Advancing the current call in place disturbs nothing shared. */
  lemma NowMoves(s: State, t: nat, pc: Pc, call: Call)
    requires Shared(s) && t in s.threads && s.threads[t].calls != [] && !s.threads[t].pc.Idle?
    ensures Shared(Now(s, t, pc, call)) && OnlyMoved(s, Now(s, t, pc, call), t)
  {
  }

  lemma EnterCallMoves(cfg: Config, s: State, t: nat, nr: nat)
    requires Shared(s) && t in s.threads && Own(cfg, s, t) && s.threads[t].pc.Idle?
    ensures Shared(EnterCall(cfg, s, t, nr)) && OnlyMoved(s, EnterCall(cfg, s, t, nr), t)
  {
  }

  lemma EnterCallKeeps(cfg: Config, s: State, t: nat, nr: nat)
    requires Shared(s) && t in s.threads && Own(cfg, s, t) && s.threads[t].pc.Idle?
    ensures Own(cfg, EnterCall(cfg, s, t, nr), t)
  {
  }

  lemma LeaveHooked(cfg: Config, s: State, t: nat)
    requires Shared(s) && t in s.threads && Own(cfg, s, t) && s.threads[t].pc.InCall?
    requires s.exitOn && Admits(cfg, s.threads[t].pid)
    ensures Own(cfg, Now(s, t, ExitLookup, Current(s, t).(hooked := true)), t)
  {
  }

  lemma LeaveUnhooked(cfg: Config, s: State, t: nat)
    requires Shared(s) && t in s.threads && Own(cfg, s, t) && s.threads[t].pc.InCall?
    requires !(s.exitOn && Admits(cfg, s.threads[t].pid))
    ensures Own(cfg, Now(s, t, Idle, Current(s, t).(hooked := false)), t)
  {
  }

  lemma EnterClockKeeps(cfg: Config, s: State, t: nat)
    requires Shared(s) && t in s.threads && Own(cfg, s, t) && s.threads[t].pc.EnterClock?
    ensures Own(cfg, Now(s, t, EnterUpdate(s.clock), Current(s, t).(entered := Some(s.clock))), t)
  {
  }

  lemma StoreMoves(cfg: Config, s: State, t: nat)
    requires Shared(s) && t in s.threads && Own(cfg, s, t) && s.threads[t].pc.EnterUpdate?
    ensures Shared(StoreEntry(s, t, s.threads[t].pc.ts)) && OnlyMoved(s, StoreEntry(s, t, s.threads[t].pc.ts), t)
  {
    var ts := s.threads[t].pc.ts;
    if s.entryTimes.Accepts(t, MAX_ENTRIES) {
      AcceptedMoves(s, StoreEntry(s, t, ts), t, ts);
    } else {
      NowMoves(s, t, InCall, Current(s, t).(insert := Refused));
    }
  }

  lemma AcceptedMoves(s: State, s': State, t: nat, ts: nat)
    requires Shared(s) && t in s.threads && s.threads[t].calls != [] && !s.threads[t].pc.Idle?
    requires s.entryTimes.Accepts(t, MAX_ENTRIES) && s' == StoreEntry(s, t, ts)
    ensures Shared(s') && OnlyMoved(s, s', t)
  {
    NowMoves(s, t, InCall, Current(s, t).(insert := Stored));
    var now := Now(s, t, InCall, Current(s, t).(insert := Stored));
    Stamp(now, t, s.entryTimes.Update(t, ts, MAX_ENTRIES), ts, |s.threads[t].calls| - 1, s'.overwritten);
  }

  /** A fresh cell for t changes no other thread's. */
  lemma Stamp(s: State, t: nat, m: HashMap, ts: nat, call: nat, n: nat)
    requires Shared(s) && t in s.threads && m.Valid() && |m.index| <= MAX_ENTRIES
    requires m == HashMap(s.entryTimes.index[t := |s.entryTimes.cells|], s.entryTimes.cells + [ts])
    ensures var s' := s.(entryTimes := m, origin := s.origin + [call], overwritten := n);
      && Shared(s') && (forall u :: u != t ==> s'.entryTimes.Lookup(u) == s.entryTimes.Lookup(u))
      && Prefix(s.entryTimes.cells, s'.entryTimes.cells) && Prefix(s.origin, s'.origin)
  {
  }

  lemma StoreKeeps(cfg: Config, s: State, t: nat)
    requires Shared(s) && t in s.threads && Own(cfg, s, t) && s.threads[t].pc.EnterUpdate?
    ensures Own(cfg, StoreEntry(s, t, s.threads[t].pc.ts), t)
  {
    if s.entryTimes.Accepts(t, MAX_ENTRIES) { StoreAccepted(cfg, s, t); } else { StoreRefused(cfg, s, t); }
  }

  lemma StoreAccepted(cfg: Config, s: State, t: nat)
    requires Shared(s) && t in s.threads && Own(cfg, s, t) && s.threads[t].pc.EnterUpdate?
    requires s.entryTimes.Accepts(t, MAX_ENTRIES)
    ensures Own(cfg, StoreEntry(s, t, s.threads[t].pc.ts), t)
  {
    AcceptedHooks(cfg, s, t);
    AcceptedOwed(cfg, s, t);
    var s' := StoreEntry(s, t, s.threads[t].pc.ts);
    assert s'.entryTimes.index[t] == |s.origin| && s'.origin[|s.origin|] == |s.threads[t].calls| - 1;
    assert Stamped(cfg, s', t, |s.origin|);
  }

  lemma AcceptedHooks(cfg: Config, s: State, t: nat)
    requires t in s.threads && Hooks(cfg, s, t) && s.threads[t].pc.EnterUpdate?
    requires s.entryTimes.Accepts(t, MAX_ENTRIES)
    ensures Hooks(cfg, StoreEntry(s, t, s.threads[t].pc.ts), t)
  {
  }

  lemma AcceptedOwed(cfg: Config, s: State, t: nat)
    requires Shared(s) && t in s.threads && Hooks(cfg, s, t) && Owed(s, t) && s.threads[t].pc.EnterUpdate?
    requires s.entryTimes.Accepts(t, MAX_ENTRIES)
    ensures Owed(StoreEntry(s, t, s.threads[t].pc.ts), t)
  {
  }

  lemma StoreRefused(cfg: Config, s: State, t: nat)
    requires Shared(s) && t in s.threads && Own(cfg, s, t) && s.threads[t].pc.EnterUpdate?
    requires !s.entryTimes.Accepts(t, MAX_ENTRIES)
    ensures Own(cfg, StoreEntry(s, t, s.threads[t].pc.ts), t)
  {
  }

  lemma LookupHit(cfg: Config, s: State, t: nat)
    requires Shared(s) && t in s.threads && Own(cfg, s, t) && s.threads[t].pc.ExitLookup?
    requires t in s.entryTimes.index
    ensures Own(cfg, Now(s, t, ExitClock(s.entryTimes.index[t]), Current(s, t)), t)
  {
  }

  lemma LookupMiss(cfg: Config, s: State, t: nat)
    requires Shared(s) && t in s.threads && Own(cfg, s, t) && s.threads[t].pc.ExitLookup?
    requires t !in s.entryTimes.index
    ensures Own(cfg, Now(s, t, Idle, Current(s, t)), t)
  {
  }

  lemma ExitClockKeeps(cfg: Config, s: State, t: nat)
    requires Shared(s) && t in s.threads && Own(cfg, s, t) && s.threads[t].pc.ExitClock?
    ensures Own(cfg, Now(s, t, ExitRead(s.threads[t].pc.cell, s.clock), Current(s, t).(exited := Some(s.clock))), t)
  {
  }

  lemma ExitReadKeeps(cfg: Config, s: State, t: nat)
    requires Shared(s) && t in s.threads && Own(cfg, s, t) && s.threads[t].pc.ExitRead?
    ensures var pc := s.threads[t].pc;
      && pc.cell < |s.entryTimes.cells|
      && var duration := (pc.now - s.entryTimes.cells[pc.cell]) % TWO64;
      Own(cfg, Now(s, t, ExitDelete(pc.cell, pc.now, duration), Current(s, t)), t)
  {
    var pc := s.threads[t].pc;
    assert (pc.now - s.entryTimes.cells[pc.cell]) % TWO64 == pc.now - s.entryTimes.cells[pc.cell];
  }

  /** The state after the delete of the exit that t is in. */
  function Cleared(s: State, t: nat): State
    requires t in s.threads && s.threads[t].calls != [] && s.threads[t].pc.ExitDelete?
  {
    var pc := s.threads[t].pc;
    DeleteEntry(s, t, pc.cell, pc.now, pc.duration)
  }

  lemma DeleteMoves(cfg: Config, s: State, t: nat)
    requires Shared(s) && t in s.threads && Own(cfg, s, t) && s.threads[t].pc.ExitDelete?
    ensures Shared(Cleared(s, t)) && OnlyMoved(s, Cleared(s, t), t)
  {
  }

  lemma DeleteHooks(cfg: Config, s: State, t: nat)
    requires t in s.threads && Hooks(cfg, s, t) && s.threads[t].pc.ExitDelete?
    ensures Hooks(cfg, Cleared(s, t), t)
  {
  }

  lemma DeleteOwed(cfg: Config, s: State, t: nat)
    requires t in s.threads && Hooks(cfg, s, t) && Owed(s, t) && s.threads[t].pc.ExitDelete?
    ensures Owed(Cleared(s, t), t)
  {
  }

  lemma DeleteLocals(cfg: Config, s: State, t: nat)
    requires Shared(s) && t in s.threads && s.threads[t].pc.ExitDelete?
    requires Hooks(cfg, s, t) && Entry(cfg, s, t) && Locals(cfg, s, t)
    ensures Entry(cfg, Cleared(s, t), t) && Locals(cfg, Cleared(s, t), t)
  {
    assert Stamped(cfg, Cleared(s, t), t, s.threads[t].pc.cell);
  }

  lemma DeleteKeeps(cfg: Config, s: State, t: nat)
    requires Shared(s) && t in s.threads && Own(cfg, s, t) && s.threads[t].pc.ExitDelete?
    ensures Own(cfg, Cleared(s, t), t)
  {
    DeleteHooks(cfg, s, t);
    DeleteOwed(cfg, s, t);
    DeleteLocals(cfg, s, t);
  }

  lemma ExitBucketKeeps(cfg: Config, s: State, t: nat)
    requires Shared(s) && t in s.threads && Own(cfg, s, t) && s.threads[t].pc.ExitBucket?
    ensures var pc := s.threads[t].pc;
      Own(cfg, Now(s, t, ExitAdd(pc.cell, pc.now, Log2.Bucket(pc.duration)), Current(s, t)), t)
  {
  }

  lemma AddMoves(cfg: Config, s: State, t: nat)
    requires Shared(s) && t in s.threads && Own(cfg, s, t) && s.threads[t].pc.ExitAdd?
    ensures Shared(Helper(s, t)) && OnlyMoved(s, Helper(s, t), t)
  {
  }

  lemma AddKeeps(cfg: Config, s: State, t: nat)
    requires Shared(s) && t in s.threads && Own(cfg, s, t) && s.threads[t].pc.ExitAdd?
    ensures Own(cfg, Helper(s, t), t)
  {
  }

  lemma AddedSampleOk(cfg: Config, s: State, t: nat)
    requires Shared(s) && t in s.threads && Own(cfg, s, t) && s.threads[t].pc.ExitAdd?
    ensures |Helper(s, t).samples| == |s.samples| + 1 && SampleOk(cfg, Helper(s, t), |s.samples|)
  {
  }

  // ---- every step keeps the invariant ----

  /** What the moving thread's own step gives. */
  ghost predicate Moves(cfg: Config, s: State, s': State, t: nat)
    requires t in s.threads
  {
    && Shared(s') && OnlyMoved(s, s', t) && Own(cfg, s', t)
    && forall k :: |s.samples| <= k < |s'.samples| ==> SampleOk(cfg, s', k)
  }

  lemma EnterMoves(cfg: Config, s: State, t: nat)
    requires Shared(s) && t in s.threads && Own(cfg, s, t) && s.threads[t].pc.Entering()
    ensures Moves(cfg, s, Helper(s, t), t)
  {
    if s.threads[t].pc.EnterClock? {
      NowMoves(s, t, EnterUpdate(s.clock), Current(s, t).(entered := Some(s.clock)));
      EnterClockKeeps(cfg, s, t);
    } else {
      StoreMoves(cfg, s, t);
      StoreKeeps(cfg, s, t);
    }
  }

  lemma LookupMoves(cfg: Config, s: State, t: nat)
    requires Shared(s) && t in s.threads && Own(cfg, s, t) && s.threads[t].pc.ExitLookup?
    ensures Moves(cfg, s, Helper(s, t), t)
  {
    if t in s.entryTimes.index {
      NowMoves(s, t, ExitClock(s.entryTimes.index[t]), Current(s, t));
      LookupHit(cfg, s, t);
    } else {
      NowMoves(s, t, Idle, Current(s, t));
      LookupMiss(cfg, s, t);
    }
  }

  lemma TimedMoves(cfg: Config, s: State, t: nat)
    requires Shared(s) && t in s.threads && Own(cfg, s, t)
    requires s.threads[t].pc.ExitClock?
    ensures Moves(cfg, s, Helper(s, t), t)
  {
    NowMoves(s, t, ExitRead(s.threads[t].pc.cell, s.clock), Current(s, t).(exited := Some(s.clock)));
    ExitClockKeeps(cfg, s, t);
  }

  lemma ReadMoves(cfg: Config, s: State, t: nat)
    requires Shared(s) && t in s.threads && Own(cfg, s, t)
    requires s.threads[t].pc.ExitRead?
    ensures Moves(cfg, s, Helper(s, t), t)
  {
    var pc := s.threads[t].pc;
    ExitReadKeeps(cfg, s, t);
    var duration := (pc.now - s.entryTimes.cells[pc.cell]) % TWO64;
    SettlesAt(cfg, s, t, ExitDelete(pc.cell, pc.now, duration), Current(s, t));
    ReadStep(s, t);
  }

  lemma ReadStep(s: State, t: nat)
    requires t in s.threads && s.threads[t].calls != [] && s.threads[t].pc.ExitRead?
    requires s.threads[t].pc.cell < |s.entryTimes.cells|
    ensures var pc := s.threads[t].pc; var duration := (pc.now - s.entryTimes.cells[pc.cell]) % TWO64;
      Helper(s, t) == Now(s, t, ExitDelete(pc.cell, pc.now, duration), Current(s, t))
  {
  }

  lemma SettlesAt(cfg: Config, s: State, t: nat, pc: Pc, call: Call)
    requires Shared(s) && t in s.threads && s.threads[t].calls != [] && !s.threads[t].pc.Idle?
    requires Own(cfg, Now(s, t, pc, call), t)
    ensures Moves(cfg, s, Now(s, t, pc, call), t)
  {
    NowMoves(s, t, pc, call);
  }

  lemma DeletedMoves(cfg: Config, s: State, t: nat)
    requires Shared(s) && t in s.threads && Own(cfg, s, t)
    requires s.threads[t].pc.ExitDelete? || s.threads[t].pc.ExitBucket?
    ensures Moves(cfg, s, Helper(s, t), t)
  {
    var pc := s.threads[t].pc;
    if pc.ExitDelete? {
      DeleteMoves(cfg, s, t);
      DeleteKeeps(cfg, s, t);
    } else {
      NowMoves(s, t, ExitAdd(pc.cell, pc.now, Log2.Bucket(pc.duration)), Current(s, t));
      ExitBucketKeeps(cfg, s, t);
    }
  }

  lemma AddSampleMoves(cfg: Config, s: State, t: nat)
    requires Shared(s) && t in s.threads && Own(cfg, s, t) && s.threads[t].pc.ExitAdd?
    ensures Moves(cfg, s, Helper(s, t), t)
  {
    AddMoves(cfg, s, t);
    AddKeeps(cfg, s, t);
    AddedSampleOk(cfg, s, t);
  }

  lemma LeaveMoves(cfg: Config, s: State, t: nat)
    requires Shared(s) && t in s.threads && Own(cfg, s, t) && s.threads[t].pc.InCall?
    ensures Moves(cfg, s, LeaveCall(cfg, s, t), t)
  {
    if s.exitOn && Admits(cfg, s.threads[t].pid) {
      NowMoves(s, t, ExitLookup, Current(s, t).(hooked := true));
      LeaveHooked(cfg, s, t);
    } else {
      NowMoves(s, t, Idle, Current(s, t).(hooked := false));
      LeaveUnhooked(cfg, s, t);
    }
  }

  lemma ThreadMoves(cfg: Config, s: State, a: Action)
    requires Shared(s) && (a.SysEnter? || a.SysExit? || a.Step?)
    requires a.tid in s.threads && Own(cfg, s, a.tid)
    ensures Next(cfg, s, a) == s || Moves(cfg, s, Next(cfg, s, a), a.tid)
  {
    if a.SysEnter? { CallMoves(cfg, s, a); }
    else if a.SysExit? { ReturnMoves(cfg, s, a); }
    else { HelperMoves(cfg, s, a.tid); }
  }

  lemma CallMoves(cfg: Config, s: State, a: Action)
    requires Shared(s) && a.SysEnter? && a.tid in s.threads && Own(cfg, s, a.tid)
    ensures Next(cfg, s, a) == s || Moves(cfg, s, Next(cfg, s, a), a.tid)
  {
    if s.threads[a.tid].pc.Idle? {
      EnterCallMoves(cfg, s, a.tid, a.id % TWO32);
      EnterCallKeeps(cfg, s, a.tid, a.id % TWO32);
    }
  }

  lemma ReturnMoves(cfg: Config, s: State, a: Action)
    requires Shared(s) && a.SysExit? && a.tid in s.threads && Own(cfg, s, a.tid)
    ensures Next(cfg, s, a) == s || Moves(cfg, s, Next(cfg, s, a), a.tid)
  {
    if s.threads[a.tid].pc.InCall? { LeaveMoves(cfg, s, a.tid); }
  }

  lemma HelperMoves(cfg: Config, s: State, t: nat)
    requires Shared(s) && t in s.threads && Own(cfg, s, t)
    ensures Helper(s, t) == s || Moves(cfg, s, Helper(s, t), t)
  {
    var pc := s.threads[t].pc;
    if pc.Entering() { EnterMoves(cfg, s, t); }
    else if pc.ExitLookup? { LookupMoves(cfg, s, t); }
    else if pc.ExitClock? { TimedMoves(cfg, s, t); }
    else if pc.ExitRead? { ReadMoves(cfg, s, t); }
    else if pc.ExitDelete? || pc.ExitBucket? { DeletedMoves(cfg, s, t); }
    else if pc.ExitAdd? { AddSampleMoves(cfg, s, t); }
  }

  /** Whatever thread acts, the rest of the state only grows. */
  lemma NextOnlyMoves(cfg: Config, s: State, a: Action)
    requires Inv(cfg, s) && (a.SysEnter? || a.SysExit? || a.Step?) && a.tid in s.threads
    ensures OnlyMoved(s, Next(cfg, s, a), a.tid)
  {
    OwnOf(cfg, s, a.tid);
    ThreadMoves(cfg, s, a);
    StandingMoves(s, a.tid);
  }

  lemma StandingMoves(s: State, t: nat)
    ensures OnlyMoved(s, s, t)
  {
  }

  /** Time passing, and attaching a program, move nobody. */
  lemma NobodyMoves(cfg: Config, s: State, a: Action)
    requires !((a.SysEnter? || a.SysExit? || a.Step?) && a.tid in s.threads)
    ensures var s' := Next(cfg, s, a);
      && s'.threads == s.threads && s'.entryTimes == s.entryTimes && s'.samples == s.samples
      && s'.origin == s.origin && s'.histogram == s.histogram
      && s'.admitted == s.admitted && s'.overwritten == s.overwritten && s'.refused == s.refused
      && (s.enterOn ==> s'.enterOn) && (s.exitOn && s.enterOn ==> s'.exitOn)
  {
  }

  lemma MovesKeepInv(cfg: Config, s: State, s': State, t: nat)
    requires Inv(cfg, s) && t in s.threads && Moves(cfg, s, s', t)
    ensures Inv(cfg, s')
  {
    forall u | u in s'.threads ensures Own(cfg, s', u) {
      if u != t { OthersKeep(cfg, s, s', t, u); }
    }
    forall k | 0 <= k < |s'.samples| ensures SampleOk(cfg, s', k) {
      if k < |s.samples| {
        assert SampleOk(cfg, s, k) && Own(cfg, s, s.samples[k].tid);
        SamplesKeep(cfg, s, s', t, k);
      }
    }
  }

  /** Attaching a program and the passing of time. */
  lemma EnvironmentKeeps(cfg: Config, s: State, a: Action)
    requires Inv(cfg, s) && (a.AttachEnter? || a.AttachExit? || a.Tick?)
    ensures Inv(cfg, Next(cfg, s, a))
  {
    var s' := Next(cfg, s, a);
    forall u | u in s'.threads ensures Own(cfg, s', u) {
      OthersKeep(cfg, s, s', u + 1, u);
    }
    forall k | 0 <= k < |s'.samples| ensures SampleOk(cfg, s', k) {
      assert SampleOk(cfg, s, k) && Own(cfg, s, s.samples[k].tid);
      SamplesKeep(cfg, s, s', 0, k);
    }
  }

  lemma NextKeeps(cfg: Config, s: State, a: Action)
    requires Inv(cfg, s)
    ensures Inv(cfg, Next(cfg, s, a))
  {
    if a.AttachEnter? || a.AttachExit? || a.Tick? {
      EnvironmentKeeps(cfg, s, a);
    } else if a.tid in s.threads {
      ThreadMoves(cfg, s, a);
      if Next(cfg, s, a) != s { MovesKeepInv(cfg, s, Next(cfg, s, a), a.tid); }
    }
  }

  lemma {:induction false} RunKeeps(cfg: Config, s: State, schedule: seq<Action>)
    requires Inv(cfg, s)
    ensures Inv(cfg, Run(cfg, s, schedule))
    decreases schedule
  {
    if schedule == [] {
    } else {
      NextKeeps(cfg, s, schedule[0]);
      RunKeeps(cfg, Next(cfg, s, schedule[0]), schedule[1..]);
    }
  }

  lemma LoadedInv(cfg: Config, pids: map<nat, nat>)
    ensures Inv(cfg, Loaded(pids))
  {
  }

  lemma Reached(cfg: Config, pids: map<nat, nat>, schedule: seq<Action>)
    ensures Inv(cfg, Run(cfg, Loaded(pids), schedule))
  {
    LoadedInv(cfg, pids);
    RunKeeps(cfg, Loaded(pids), schedule);
  }

  lemma ReachedSample(cfg: Config, pids: map<nat, nat>, schedule: seq<Action>, k: nat)
    requires k < |Run(cfg, Loaded(pids), schedule).samples|
    ensures SampleOk(cfg, Run(cfg, Loaded(pids), schedule), k)
  {
    Reached(cfg, pids, schedule);
    SampleOf(cfg, Run(cfg, Loaded(pids), schedule), k);
  }
}
