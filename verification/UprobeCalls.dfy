/** Where the calls, times and records of uprobe tracing come from: the function calls of
    the schedule, the clock and the processes of its threads. */
module UprobeCalls {
  import opened Bpf
  import opened Wire
  import opened UprobeWire
  import opened Uprobe
  import opened UprobePairing

  // ---- what one action does to one thread ----

  ghost predicate Begins(s: State, a: Action, t: nat) {
    a.FnEnter? && a.tid == t && t in s.threads && s.threads[t].pc.User?
  }

  ghost predicate Returns(s: State, a: Action, t: nat) {
    && a.FnExit? && a.tid == t && t in s.threads && s.threads[t].pc.User?
    && s.threads[t].stack != [] && Top(s.threads[t]) < |s.threads[t].calls|
  }

  /** The call a handler of this thread is at work on, apart from the entry of a pair. */
  function WorkingOn(pc: Pc): Option<nat> {
    if pc.Matching() || pc.Emitting() then Some(pc.call) else None
  }

  /** What action a of thread t does to its calls: a new one only when it begins, a return
      value only when it returns, a time only from the clock. */
  ghost predicate Evolves(cfg: Config, s: State, a: Action, s': State, t: nat)
    requires t in s.threads
  {
    && t in s'.threads && s'.threads[t].pid == s.threads[t].pid
    && var th, th' := s.threads[t], s'.threads[t]; var n := |th.calls|;
    && |th'.calls| == (if Begins(s, a, t) then n + 1 else n)
    && (Begins(s, a, t) ==> NewTells(cfg, s, a, s', t))
    && th'.stack == (if Begins(s, a, t) then th.stack + [n]
                     else if Returns(s, a, t) then th.stack[..|th.stack| - 1] else th.stack)
    && (forall c :: 0 <= c < n ==> OldTells(s, a, t, c, th'.calls[c]))
    && (th'.pc.Entering() ==> Begins(s, a, t) || th.pc.Entering())
    && WorkTells(s, a, t, WorkingOn(th'.pc))
  }

  ghost predicate NewTells(cfg: Config, s: State, a: Action, s': State, t: nat)
    requires Begins(s, a, t) && t in s'.threads && |s'.threads[t].calls| == |s.threads[t].calls| + 1
  {
    var th := s.threads[t];
    var call := s'.threads[t].calls[|th.calls|];
    && call.arg0 == a.arg0 % TWO64 && call.arg1 == a.arg1 % TWO64
    && call.seen == (s.entryOn && (cfg.targetPid == 0 || th.pid == cfg.targetPid)) && call.hooked == s.exitOn
    && !call.inner && call.entered.None? && call.rc.None? && call.exited.None? && call.outcome.Silent?
  }

  ghost predicate OldTells(s: State, a: Action, t: nat, c: nat, call': Call)
    requires t in s.threads && c < |s.threads[t].calls|
  {
    var th := s.threads[t]; var call := th.calls[c];
    && call'.arg0 == call.arg0 && call'.arg1 == call.arg1 && call'.seen == call.seen && call'.hooked == call.hooked
    && call'.rc == (if Returns(s, a, t) && c == Top(th) then Some(a.rc % TWO64) else call.rc)
    && call'.inner == (call.inner || (Begins(s, a, t) && th.stack != [] && c == Top(th)))
    && (call'.entered == call.entered
        || (call'.entered == Some(s.clock) && a.Step? && th.pc.PairClock? && th.stack != [] && c == Top(th)))
    && (call'.exited == call.exited
        || (call'.exited == Some(s.clock) && a.Step? && th.pc.PairNow? && c == th.pc.call))
  }

  ghost predicate WorkTells(s: State, a: Action, t: nat, work: Option<nat>)
    requires t in s.threads
  {
    || work == None || work == WorkingOn(s.threads[t].pc)
    || (Begins(s, a, t) && work == Some(|s.threads[t].calls|))
    || (Returns(s, a, t) && work == Some(Top(s.threads[t])))
  }

  lemma EnterTells(cfg: Config, s: State, a: Action)
    requires a.FnEnter? && a.tid in s.threads
    ensures Evolves(cfg, s, a, Next(cfg, s, a), a.tid)
  {
  }

  lemma ReturnTells(cfg: Config, s: State, a: Action)
    requires a.FnExit? && a.tid in s.threads
    ensures Evolves(cfg, s, a, Next(cfg, s, a), a.tid)
  {
  }

  lemma EnteringTells(cfg: Config, s: State, a: Action)
    requires a.Step? && a.tid in s.threads && s.threads[a.tid].pc.Entering()
    ensures Evolves(cfg, s, a, Next(cfg, s, a), a.tid)
  {
    if s.threads[a.tid].pc.PairUpdate? { StoreTells(cfg, s, a); }
  }

  lemma StoreTells(cfg: Config, s: State, a: Action)
    requires a.Step? && a.tid in s.threads && s.threads[a.tid].pc.PairUpdate?
    ensures Evolves(cfg, s, a, Next(cfg, s, a), a.tid)
  {
    var t, th := a.tid, s.threads[a.tid];
    if th.stack != [] && Top(th) < |th.calls| {
      var c := Top(th);
      var insert := if s.entryTs.Accepts(t, MAX_ENTRIES) then Stored else Refused;
      CallTells(cfg, s, a, Next(cfg, s, a), User, c, th.calls[c].(insert := insert));
    }
  }

  /** A step that changes nothing of its thread but the place and one call. */
  lemma CallTells(cfg: Config, s: State, a: Action, s': State, pc: Pc, c: nat, call': Call)
    requires a.Step? && a.tid in s.threads && c < |s.threads[a.tid].calls|
    requires var th := s.threads[a.tid];
      a.tid in s'.threads && s'.threads[a.tid] == th.(pc := pc, calls := th.calls[c := call'])
    requires OldTells(s, a, a.tid, c, call') && WorkTells(s, a, a.tid, WorkingOn(pc))
    requires pc.Entering() ==> s.threads[a.tid].pc.Entering()
    ensures Evolves(cfg, s, a, s', a.tid)
  {
  }

  lemma MatchingTells(cfg: Config, s: State, a: Action)
    requires a.Step? && a.tid in s.threads && !s.threads[a.tid].pc.Entering() && !s.threads[a.tid].pc.Emitting()
    ensures Evolves(cfg, s, a, Next(cfg, s, a), a.tid)
  {
    var t, th := a.tid, s.threads[a.tid];
    var pc, s' := th.pc, Next(cfg, s, a);
    if pc.PairNow? {
      if pc.call < |th.calls| && pc.cell < |s.entryTs.cells| {
        var latency := (s.clock - s.entryTs.cells[pc.cell]) % TWO64;
        CallTells(cfg, s, a, s', PairDelete(pc.call, pc.rc, latency), pc.call,
                  th.calls[pc.call].(exited := Some(s.clock)));
      }
    } else {
      MovingTells(cfg, s, a);
    }
  }

  lemma MovingTells(cfg: Config, s: State, a: Action)
    requires a.Step? && a.tid in s.threads
    requires var pc := s.threads[a.tid].pc; pc.User? || pc.PairLookup? || pc.PairDelete?
    ensures Evolves(cfg, s, a, Next(cfg, s, a), a.tid)
  {
  }

  lemma EmittingTells(cfg: Config, s: State, a: Action)
    requires a.Step? && a.tid in s.threads && s.threads[a.tid].pc.Emitting()
    ensures Evolves(cfg, s, a, Next(cfg, s, a), a.tid)
  {
    if s.threads[a.tid].pc.InFlight() { InFlightTells(cfg, s, a); }
  }

  lemma InFlightTells(cfg: Config, s: State, a: Action)
    requires a.Step? && a.tid in s.threads && s.threads[a.tid].pc.InFlight()
    ensures Evolves(cfg, s, a, Next(cfg, s, a), a.tid)
  {
  }

  lemma StillTells(cfg: Config, s: State, a: Action, s': State, t: nat)
    requires t in s.threads && t in s'.threads && s'.threads[t] == s.threads[t]
    requires (a.FnEnter? || a.FnExit? || a.Step?) ==> a.tid != t
    ensures Evolves(cfg, s, a, s', t)
  {
  }

  lemma NextTells(cfg: Config, s: State, a: Action, t: nat)
    requires t in s.threads
    ensures Evolves(cfg, s, a, Next(cfg, s, a), t)
  {
    if (a.FnEnter? || a.FnExit? || a.Step?) && a.tid in s.threads {
      if a.tid != t {
        NextOneThread(cfg, s, a);
        StillTells(cfg, s, a, Next(cfg, s, a), t);
      } else if a.FnEnter? { EnterTells(cfg, s, a); }
      else if a.FnExit? { ReturnTells(cfg, s, a); }
      else if s.threads[t].pc.Entering() { EnteringTells(cfg, s, a); }
      else if s.threads[t].pc.Emitting() { EmittingTells(cfg, s, a); }
      else { MatchingTells(cfg, s, a); }
    } else {
      NobodyMoves(cfg, s, a);
      StillTells(cfg, s, a, Next(cfg, s, a), t);
    }
  }

  // ---- moments of a run ----

  /** Some schedule leads from s to s'. */
  ghost predicate Later(cfg: Config, s: State, s': State) {
    exists rest :: Run(cfg, s, rest) == s'
  }

  /** The state after the first n actions of a schedule. */
  function At(cfg: Config, pids: map<nat, nat>, schedule: seq<Action>, n: nat): State
    requires n <= |schedule|
  {
    Run(cfg, Loaded(pids), schedule[..n])
  }

  lemma AtEnds(cfg: Config, pids: map<nat, nat>, schedule: seq<Action>)
    ensures At(cfg, pids, schedule, 0) == Loaded(pids)
    ensures At(cfg, pids, schedule, |schedule|) == Run(cfg, Loaded(pids), schedule)
  {
    assert schedule[..0] == [] && schedule[..|schedule|] == schedule;
  }

  lemma AtNext(cfg: Config, pids: map<nat, nat>, schedule: seq<Action>, n: nat)
    requires n < |schedule|
    ensures At(cfg, pids, schedule, n + 1) == Next(cfg, At(cfg, pids, schedule, n), schedule[n])
  {
    assert schedule[..n + 1] == schedule[..n] + [schedule[n]];
    RunConcat(cfg, Loaded(pids), schedule[..n], [schedule[n]]);
    assert Run(cfg, At(cfg, pids, schedule, n), [schedule[n]]) == Next(cfg, At(cfg, pids, schedule, n), schedule[n]);
  }

  lemma AtLater(cfg: Config, pids: map<nat, nat>, schedule: seq<Action>, m: nat, n: nat)
    requires m <= n <= |schedule|
    ensures Later(cfg, Loaded(pids), At(cfg, pids, schedule, m))
    ensures Later(cfg, At(cfg, pids, schedule, m), At(cfg, pids, schedule, n))
  {
    assert schedule[..n] == schedule[..m] + schedule[m..n];
    RunConcat(cfg, Loaded(pids), schedule[..m], schedule[m..n]);
  }

  // ---- the threads ----

  ghost predicate SamePids(s: State, s': State) {
    s'.threads.Keys == s.threads.Keys && forall t :: t in s.threads ==> s'.threads[t].pid == s.threads[t].pid
  }

  lemma NextPids(cfg: Config, s: State, a: Action)
    ensures SamePids(s, Next(cfg, s, a))
  {
    if (a.FnEnter? || a.FnExit? || a.Step?) && a.tid in s.threads {
      NextOneThread(cfg, s, a);
    } else {
      NobodyMoves(cfg, s, a);
    }
  }

  lemma {:induction false} RunPids(cfg: Config, s: State, schedule: seq<Action>)
    ensures SamePids(s, Run(cfg, s, schedule))
    decreases schedule
  {
    if schedule == [] {
    } else {
      NextPids(cfg, s, schedule[0]);
      RunPids(cfg, Next(cfg, s, schedule[0]), schedule[1..]);
    }
  }

  /** The threads of a run are the loaded ones, each in its process. */
  lemma LoadedThreads(cfg: Config, pids: map<nat, nat>, schedule: seq<Action>)
    ensures Run(cfg, Loaded(pids), schedule).threads.Keys == pids.Keys
    ensures forall t :: t in pids ==> Run(cfg, Loaded(pids), schedule).threads[t].pid == pids[t]
  {
    RunPids(cfg, Loaded(pids), schedule);
    LoadedPids(pids, Run(cfg, Loaded(pids), schedule));
  }

  lemma LoadedPids(pids: map<nat, nat>, s: State)
    requires SamePids(Loaded(pids), s)
    ensures s.threads.Keys == pids.Keys && forall t :: t in pids ==> s.threads[t].pid == pids[t]
  {
  }

  lemma AtThread(cfg: Config, pids: map<nat, nat>, schedule: seq<Action>, n: nat, t: nat)
    requires n <= |schedule|
    ensures t in At(cfg, pids, schedule, n).threads <==> t in pids
    ensures t in pids ==> At(cfg, pids, schedule, n).threads[t].pid == pids[t]
  {
    LoadedThreads(cfg, pids, schedule[..n]);
  }

  lemma AtTells(cfg: Config, pids: map<nat, nat>, schedule: seq<Action>, n: nat, t: nat)
    requires n < |schedule| && t in pids
    ensures var s := At(cfg, pids, schedule, n);
      t in s.threads && Evolves(cfg, s, schedule[n], At(cfg, pids, schedule, n + 1), t)
  {
    AtThread(cfg, pids, schedule, n, t);
    NextTells(cfg, At(cfg, pids, schedule, n), schedule[n], t);
    AtNext(cfg, pids, schedule, n);
  }

  // ---- every call comes from the schedule ----

  /** From s to s' call c keeps what it began with. */
  ghost predicate KeepsOrigin(s: State, s': State, t: nat, c: nat) {
    && t in s.threads && t in s'.threads && c < |s.threads[t].calls| <= |s'.threads[t].calls|
    && var call, call' := s.threads[t].calls[c], s'.threads[t].calls[c];
    && call'.arg0 == call.arg0 && call'.arg1 == call.arg1 && call'.seen == call.seen && call'.hooked == call.hooked
  }

  /** Call c of t in s began with action a in s0: its arguments, and whether the programs
      will see it. */
  ghost predicate BeganWith(cfg: Config, s0: State, a: Action, s: State, t: nat, c: nat) {
    && Begins(s0, a, t) && |s0.threads[t].calls| == c && t in s.threads && c < |s.threads[t].calls|
    && var call := s.threads[t].calls[c];
    && call.arg0 == a.arg0 % TWO64 && call.arg1 == a.arg1 % TWO64
    && call.seen == (s0.entryOn && (cfg.targetPid == 0 || s0.threads[t].pid == cfg.targetPid))
    && call.hooked == s0.exitOn
  }

  lemma TellsOrigin(cfg: Config, s: State, a: Action, s': State, t: nat)
    requires t in s.threads && Evolves(cfg, s, a, s', t)
    ensures forall c :: 0 <= c < |s.threads[t].calls| ==> KeepsOrigin(s, s', t, c)
    ensures Begins(s, a, t) ==> BeganWith(cfg, s, a, s', t, |s.threads[t].calls|)
  {
    var th, th' := s.threads[t], s'.threads[t];
    forall c | 0 <= c < |th.calls| ensures KeepsOrigin(s, s', t, c) {
      assert OldTells(s, a, t, c, th'.calls[c]);
    }
  }

  lemma {:induction false} RunOrigin(cfg: Config, s: State, rest: seq<Action>, t: nat, c: nat)
    requires t in s.threads && c < |s.threads[t].calls|
    ensures KeepsOrigin(s, Run(cfg, s, rest), t, c)
    decreases rest
  {
    if rest == [] {
    } else {
      NextTells(cfg, s, rest[0], t);
      TellsOrigin(cfg, s, rest[0], Next(cfg, s, rest[0]), t);
      assert KeepsOrigin(s, Next(cfg, s, rest[0]), t, c);
      RunOrigin(cfg, Next(cfg, s, rest[0]), rest[1..], t, c);
    }
  }

  lemma {:induction false} BeganBy(cfg: Config, pids: map<nat, nat>, schedule: seq<Action>, n: nat, t: nat, c: nat)
    returns (j: nat)
    requires n <= |schedule| && t in pids
    requires t in At(cfg, pids, schedule, n).threads && c < |At(cfg, pids, schedule, n).threads[t].calls|
    ensures j < n && BeganWith(cfg, At(cfg, pids, schedule, j), schedule[j], At(cfg, pids, schedule, n), t, c)
  {
    AtEnds(cfg, pids, schedule);
    assert n > 0;
    AtTells(cfg, pids, schedule, n - 1, t);
    var s, s' := At(cfg, pids, schedule, n - 1), At(cfg, pids, schedule, n);
    TellsOrigin(cfg, s, schedule[n - 1], s', t);
    if c < |s.threads[t].calls| {
      j := BeganBy(cfg, pids, schedule, n - 1, t, c);
      assert KeepsOrigin(s, s', t, c);
    } else {
      j := n - 1;
    }
  }

  /** Each call of a thread is one of the function calls of the schedule, with that call's
      arguments; it is seen, and its return caught, if the programs are attached then
      and the process is the target's. */
  lemma CallsBegan(cfg: Config, pids: map<nat, nat>, schedule: seq<Action>, t: nat, c: nat) returns (j: nat)
    requires var s := Run(cfg, Loaded(pids), schedule); t in s.threads && c < |s.threads[t].calls|
    ensures j < |schedule|
    ensures BeganWith(cfg, At(cfg, pids, schedule, j), schedule[j], Run(cfg, Loaded(pids), schedule), t, c)
  {
    LoadedThreads(cfg, pids, schedule);
    AtEnds(cfg, pids, schedule);
    j := BeganBy(cfg, pids, schedule, |schedule|, t, c);
  }

  /** And each function call of the schedule is a call of its thread, for good. */
  lemma EntriesAreCalls(cfg: Config, pids: map<nat, nat>, schedule: seq<Action>, t: nat, j: nat)
    requires j < |schedule| && Begins(At(cfg, pids, schedule, j), schedule[j], t)
    ensures var s0 := At(cfg, pids, schedule, j);
      BeganWith(cfg, s0, schedule[j], Run(cfg, Loaded(pids), schedule), t, |s0.threads[t].calls|)
  {
    AtThread(cfg, pids, schedule, j, t);
    AtTells(cfg, pids, schedule, j, t);
    var s0, s1 := At(cfg, pids, schedule, j), At(cfg, pids, schedule, j + 1);
    TellsOrigin(cfg, s0, schedule[j], s1, t);
    assert schedule == schedule[..j + 1] + schedule[j + 1..];
    RunConcat(cfg, Loaded(pids), schedule[..j + 1], schedule[j + 1..]);
    RunOrigin(cfg, s1, schedule[j + 1..], t, |s0.threads[t].calls|);
  }

  // ---- returns, and calls inside calls ----

  /** Call c of t was the innermost when action j of the schedule happened. */
  ghost predicate InnermostAt(cfg: Config, pids: map<nat, nat>, schedule: seq<Action>, j: nat, t: nat, c: nat) {
    && j < |schedule| && var s := At(cfg, pids, schedule, j);
    t in s.threads && s.threads[t].stack != [] && Top(s.threads[t]) == c < |s.threads[t].calls|
  }

  ghost predicate ReturnedAt(cfg: Config, pids: map<nat, nat>, schedule: seq<Action>, j: nat, t: nat, c: nat, rc: nat) {
    && InnermostAt(cfg, pids, schedule, j, t, c)
    && Returns(At(cfg, pids, schedule, j), schedule[j], t) && schedule[j].rc % TWO64 == rc
  }

  /** Another call of t began at j while c was the innermost open one. */
  ghost predicate NestedAt(cfg: Config, pids: map<nat, nat>, schedule: seq<Action>, j: nat, t: nat, c: nat) {
    InnermostAt(cfg, pids, schedule, j, t, c) && Begins(At(cfg, pids, schedule, j), schedule[j], t)
  }

  lemma {:induction false} ReturnedBy(cfg: Config, pids: map<nat, nat>, schedule: seq<Action>, n: nat, t: nat, c: nat)
    returns (j: nat)
    requires n <= |schedule| && t in pids
    requires t in At(cfg, pids, schedule, n).threads && c < |At(cfg, pids, schedule, n).threads[t].calls|
    requires At(cfg, pids, schedule, n).threads[t].calls[c].rc.Some?
    ensures j < n && ReturnedAt(cfg, pids, schedule, j, t, c, At(cfg, pids, schedule, n).threads[t].calls[c].rc.value)
  {
    AtEnds(cfg, pids, schedule);
    assert n > 0;
    AtTells(cfg, pids, schedule, n - 1, t);
    var s, s' := At(cfg, pids, schedule, n - 1), At(cfg, pids, schedule, n);
    assert c < |s.threads[t].calls|;
    assert OldTells(s, schedule[n - 1], t, c, s'.threads[t].calls[c]);
    if Returns(s, schedule[n - 1], t) && c == Top(s.threads[t]) {
      j := n - 1;
    } else {
      j := ReturnedBy(cfg, pids, schedule, n - 1, t, c);
    }
  }

  /** A call's return value is that of a return of the schedule, made while the call was the
      innermost one. */
  lemma ReturnsTell(cfg: Config, pids: map<nat, nat>, schedule: seq<Action>, t: nat, c: nat) returns (j: nat)
    requires var s := Run(cfg, Loaded(pids), schedule);
      t in s.threads && c < |s.threads[t].calls| && s.threads[t].calls[c].rc.Some?
    ensures var s := Run(cfg, Loaded(pids), schedule);
      ReturnedAt(cfg, pids, schedule, j, t, c, s.threads[t].calls[c].rc.value)
  {
    LoadedThreads(cfg, pids, schedule);
    AtEnds(cfg, pids, schedule);
    j := ReturnedBy(cfg, pids, schedule, |schedule|, t, c);
  }

  lemma {:induction false} NestedBy(cfg: Config, pids: map<nat, nat>, schedule: seq<Action>, n: nat, t: nat, c: nat)
    requires n <= |schedule| && t in pids
    requires t in At(cfg, pids, schedule, n).threads && c < |At(cfg, pids, schedule, n).threads[t].calls|
    ensures At(cfg, pids, schedule, n).threads[t].calls[c].inner <==>
      exists j :: 0 <= j < n && NestedAt(cfg, pids, schedule, j, t, c)
  {
    AtEnds(cfg, pids, schedule);
    assert n > 0;
    AtTells(cfg, pids, schedule, n - 1, t);
    var s, s' := At(cfg, pids, schedule, n - 1), At(cfg, pids, schedule, n);
    if c < |s.threads[t].calls| {
      NestedBy(cfg, pids, schedule, n - 1, t, c);
      assert OldTells(s, schedule[n - 1], t, c, s'.threads[t].calls[c]);
      OneMoreMoment(cfg, pids, schedule, n, t, c);
    } else {
      NotYetNested(cfg, pids, schedule, n - 1, t, c);
    }
  }

  lemma OneMoreMoment(cfg: Config, pids: map<nat, nat>, schedule: seq<Action>, n: nat, t: nat, c: nat)
    requires 0 < n <= |schedule|
    ensures (exists j :: 0 <= j < n && NestedAt(cfg, pids, schedule, j, t, c)) <==>
      || NestedAt(cfg, pids, schedule, n - 1, t, c)
      || exists j :: 0 <= j < n - 1 && NestedAt(cfg, pids, schedule, j, t, c)
  {
  }

  lemma {:induction false} CallsGrow(cfg: Config, pids: map<nat, nat>, schedule: seq<Action>, m: nat, n: nat, t: nat)
    requires m <= n <= |schedule| && t in pids
    ensures t in At(cfg, pids, schedule, m).threads && t in At(cfg, pids, schedule, n).threads
    ensures |At(cfg, pids, schedule, m).threads[t].calls| <= |At(cfg, pids, schedule, n).threads[t].calls|
  {
    AtThread(cfg, pids, schedule, m, t);
    if m < n {
      CallsGrow(cfg, pids, schedule, m, n - 1, t);
      AtTells(cfg, pids, schedule, n - 1, t);
    }
  }

  lemma NotYetNested(cfg: Config, pids: map<nat, nat>, schedule: seq<Action>, n: nat, t: nat, c: nat)
    requires n < |schedule| && t in pids
    requires t in At(cfg, pids, schedule, n).threads && |At(cfg, pids, schedule, n).threads[t].calls| <= c
    ensures forall j :: 0 <= j <= n ==> !NestedAt(cfg, pids, schedule, j, t, c)
  {
    forall j | 0 <= j <= n ensures !NestedAt(cfg, pids, schedule, j, t, c) {
      CallsGrow(cfg, pids, schedule, j, n, t);
    }
  }

  /** A call counts as having one inside it exactly when another call of its thread began
      while it was the innermost one. */
  lemma InnerMeans(cfg: Config, pids: map<nat, nat>, schedule: seq<Action>, t: nat, c: nat)
    requires var s := Run(cfg, Loaded(pids), schedule); t in s.threads && c < |s.threads[t].calls|
    ensures Run(cfg, Loaded(pids), schedule).threads[t].calls[c].inner <==>
      exists j :: 0 <= j < |schedule| && NestedAt(cfg, pids, schedule, j, t, c)
  {
    LoadedThreads(cfg, pids, schedule);
    AtEnds(cfg, pids, schedule);
    NestedBy(cfg, pids, schedule, |schedule|, t, c);
  }
}
