/** Whose records there are, what their headers say, which calls are traced at all, and
    that what is submitted can be read. */
module UprobeRecords {
  import opened Bpf
  import opened Wire
  import opened UprobeWire
  import opened Uprobe
  import opened UprobePairing
  import opened UprobeCalls
  import opened UprobeClock
  import opened UprobeResults

  // ---- what one action does to the ring ----

  /** Slot k after action a: a header only from the clock, the thread's own ids and the
      comm buffer the kernel filled in that very step. */
  ghost predicate SlotEvolves(cfg: Config, s: State, a: Action, x: Slot, x': Slot) {
    && x'.tid == x.tid && x'.call == x.call && x'.out == x.out && x'.stale == x.stale
    && (x.committed ==> x' == x)
    && (x'.header == x.header
        || (a.Step? && a.tid == x.tid && x.tid in s.threads
            && x'.header == Some(Header(s.clock, s.threads[x.tid].pid, x.tid, cfg.probeId, a.comm))))
  }

  ghost predicate RingEvolves(cfg: Config, s: State, a: Action, s': State) {
    && |s.ring| <= |s'.ring|
    && (forall k :: 0 <= k < |s.ring| ==> SlotEvolves(cfg, s, a, s.ring[k], s'.ring[k]))
    && (forall k :: |s.ring| <= k < |s'.ring| ==> s'.ring[k].header.None? && NewSlot(cfg, s, a, s'.ring[k]))
  }

  /** A record is begun by a thread about to reserve one. */
  ghost predicate NewSlot(cfg: Config, s: State, a: Action, x: Slot) {
    a.Step? && x.tid == a.tid && a.tid in s.threads && s.threads[a.tid].pc.Reserve?
  }

  lemma ReserveRing(cfg: Config, s: State, a: Action)
    requires a.Step? && a.tid in s.threads && s.threads[a.tid].pc.Reserve?
    ensures RingEvolves(cfg, s, a, Next(cfg, s, a))
  {
  }

  lemma FillRing(cfg: Config, s: State, a: Action)
    requires a.Step? && a.tid in s.threads && s.threads[a.tid].pc.Fill? && Holds(s, a.tid)
    ensures RingEvolves(cfg, s, a, Next(cfg, s, a))
  {
  }

  lemma SubmitRing(cfg: Config, s: State, a: Action)
    requires a.Step? && a.tid in s.threads && s.threads[a.tid].pc.Submit? && Holds(s, a.tid)
    ensures RingEvolves(cfg, s, a, Next(cfg, s, a))
  {
  }

  lemma OtherRing(cfg: Config, s: State, a: Action)
    requires a.Step? && a.tid in s.threads
    requires !(s.threads[a.tid].pc.Emitting() && !s.threads[a.tid].pc.Drop?)
    ensures Next(cfg, s, a).ring == s.ring
  {
    if !s.threads[a.tid].pc.Emitting() { MatchingLeavesRing(cfg, s, a); }
  }

  lemma SameRing(cfg: Config, s: State, a: Action, s': State)
    requires s'.ring == s.ring
    ensures RingEvolves(cfg, s, a, s')
  {
  }

  lemma CallRing(cfg: Config, s: State, a: Action)
    requires !a.Step? || a.tid !in s.threads
    ensures Next(cfg, s, a).ring == s.ring
  {
  }

  lemma NextRing(cfg: Config, s: State, a: Action)
    requires Inv(cfg, s)
    ensures RingEvolves(cfg, s, a, Next(cfg, s, a))
  {
    if a.Step? && a.tid in s.threads {
      ThreadReady(cfg, s, a.tid);
      StepRing(cfg, s, a);
    } else {
      CallRing(cfg, s, a);
      SameRing(cfg, s, a, Next(cfg, s, a));
    }
  }

  lemma StepRing(cfg: Config, s: State, a: Action)
    requires a.Step? && a.tid in s.threads && Holds(s, a.tid)
    ensures RingEvolves(cfg, s, a, Next(cfg, s, a))
  {
    var pc := s.threads[a.tid].pc;
    if pc.Reserve? { ReserveRing(cfg, s, a); }
    else if pc.Fill? { FillRing(cfg, s, a); }
    else if pc.Submit? { SubmitRing(cfg, s, a); }
    else {
      OtherRing(cfg, s, a);
      SameRing(cfg, s, a, Next(cfg, s, a));
    }
  }

  lemma AtRing(cfg: Config, pids: map<nat, nat>, schedule: seq<Action>, n: nat)
    requires n < |schedule|
    ensures RingEvolves(cfg, At(cfg, pids, schedule, n), schedule[n], At(cfg, pids, schedule, n + 1))
  {
    Reached(cfg, pids, schedule[..n]);
    NextRing(cfg, At(cfg, pids, schedule, n), schedule[n]);
    AtNext(cfg, pids, schedule, n);
  }

  // ---- headers ----

  /** Slot k of t was filled by action j: its header has the time of that moment, the
      thread's own process, and the comm buffer of that very step. */
  ghost predicate FilledAt(cfg: Config, pids: map<nat, nat>, schedule: seq<Action>, j: nat, t: nat, h: Header) {
    && j < |schedule| && schedule[j].Step? && schedule[j].tid == t && t in pids
    && h == Header(At(cfg, pids, schedule, j).clock, pids[t], t, cfg.probeId, schedule[j].comm)
  }

  lemma {:induction false} FilledBy(cfg: Config, pids: map<nat, nat>, schedule: seq<Action>, n: nat, k: nat)
    returns (j: nat)
    requires n <= |schedule| && k < |At(cfg, pids, schedule, n).ring|
    requires At(cfg, pids, schedule, n).ring[k].header.Some?
    ensures var x := At(cfg, pids, schedule, n).ring[k];
      j < n && k < |At(cfg, pids, schedule, j).ring| && FilledAt(cfg, pids, schedule, j, x.tid, x.header.value)
  {
    AtEnds(cfg, pids, schedule);
    assert n > 0;
    AtRing(cfg, pids, schedule, n - 1);
    var s, s' := At(cfg, pids, schedule, n - 1), At(cfg, pids, schedule, n);
    assert k < |s.ring|;
    assert SlotEvolves(cfg, s, schedule[n - 1], s.ring[k], s'.ring[k]);
    if s'.ring[k].header == s.ring[k].header {
      j := FilledBy(cfg, pids, schedule, n - 1, k);
    } else {
      j := n - 1;
      AtThread(cfg, pids, schedule, j, s.ring[k].tid);
    }
  }

  /** Where a record's header comes from: one step of its thread, made after the record was
      reserved, at the time and with the comm buffer of that step. */
  lemma HeadersTell(cfg: Config, pids: map<nat, nat>, schedule: seq<Action>, k: nat) returns (j: nat)
    requires var s := Run(cfg, Loaded(pids), schedule); k < |s.ring| && s.ring[k].header.Some?
    ensures var x := Run(cfg, Loaded(pids), schedule).ring[k];
      && j < |schedule| && k < |At(cfg, pids, schedule, j).ring|
      && FilledAt(cfg, pids, schedule, j, x.tid, x.header.value)
  {
    AtEnds(cfg, pids, schedule);
    j := FilledBy(cfg, pids, schedule, |schedule|, k);
  }

  // ---- the process filter ----

  /** Handlers run, and records exist, only for threads of the target process. */
  ghost predicate Filtered(cfg: Config, s: State) {
    && (forall t :: t in s.threads ==> Passed(cfg, s.threads[t]))
    && (forall k :: 0 <= k < |s.ring| ==>
          s.ring[k].tid in s.threads && IsTarget(cfg, s.threads[s.ring[k].tid].pid))
  }

  predicate IsTarget(cfg: Config, pid: nat) { cfg.targetPid == 0 || pid == cfg.targetPid }

  ghost predicate Passed(cfg: Config, th: Thread) { !th.pc.User? ==> IsTarget(cfg, th.pid) }

  lemma CallPassed(cfg: Config, s: State, a: Action)
    requires (a.FnEnter? || a.FnExit?) && a.tid in s.threads && Passed(cfg, s.threads[a.tid])
    ensures a.tid in Next(cfg, s, a).threads && Passed(cfg, Next(cfg, s, a).threads[a.tid])
  {
  }

  lemma StepPassed(cfg: Config, s: State, a: Action)
    requires a.Step? && a.tid in s.threads && Passed(cfg, s.threads[a.tid])
    ensures a.tid in Next(cfg, s, a).threads && Passed(cfg, Next(cfg, s, a).threads[a.tid])
  {
    NextOneThread(cfg, s, a);
    if s.threads[a.tid].pc.User? { assert Next(cfg, s, a) == s; }
  }

  lemma FilteredOnward(cfg: Config, s: State, a: Action, s': State)
    requires Filtered(cfg, s) && SamePids(s, s') && RingEvolves(cfg, s, a, s')
    requires forall t :: t in s'.threads ==> Passed(cfg, s'.threads[t])
    ensures Filtered(cfg, s')
  {
    forall k | 0 <= k < |s'.ring|
      ensures s'.ring[k].tid in s'.threads && IsTarget(cfg, s'.threads[s'.ring[k].tid].pid)
    {
      if k < |s.ring| {
        assert SlotEvolves(cfg, s, a, s.ring[k], s'.ring[k]);
      } else {
        assert NewSlot(cfg, s, a, s'.ring[k]);
        assert Passed(cfg, s.threads[a.tid]);
      }
    }
  }

  lemma NextPassed(cfg: Config, s: State, a: Action, t: nat)
    requires Filtered(cfg, s) && t in s.threads
    ensures t in Next(cfg, s, a).threads && Passed(cfg, Next(cfg, s, a).threads[t])
  {
    assert Passed(cfg, s.threads[t]);
    if (a.FnEnter? || a.FnExit? || a.Step?) && a.tid in s.threads {
      if a.tid != t { NextOneThread(cfg, s, a); }
      else if a.Step? { StepPassed(cfg, s, a); }
      else { CallPassed(cfg, s, a); }
    } else {
      NobodyMoves(cfg, s, a);
    }
  }

  lemma {:induction false} RunFiltered(cfg: Config, s: State, rest: seq<Action>)
    requires Inv(cfg, s) && Filtered(cfg, s)
    ensures Filtered(cfg, Run(cfg, s, rest))
    decreases rest
  {
    if rest == [] {
    } else {
      var s' := Next(cfg, s, rest[0]);
      NextPids(cfg, s, rest[0]);
      NextRing(cfg, s, rest[0]);
      forall t | t in s'.threads ensures Passed(cfg, s'.threads[t]) {
        NextPassed(cfg, s, rest[0], t);
      }
      FilteredOnward(cfg, s, rest[0], s');
      NextKeeps(cfg, s, rest[0]);
      RunFiltered(cfg, s', rest[1..]);
    }
  }

  /** No record is about a thread of another process. */
  lemma OnlyTheTarget(cfg: Config, pids: map<nat, nat>, schedule: seq<Action>, k: nat)
    requires k < |Run(cfg, Loaded(pids), schedule).ring|
    ensures var x := Run(cfg, Loaded(pids), schedule).ring[k];
      x.tid in pids && (cfg.targetPid == 0 || pids[x.tid] == cfg.targetPid)
  {
    LoadedInv(cfg, pids);
    RunFiltered(cfg, Loaded(pids), schedule);
    LoadedThreads(cfg, pids, schedule);
  }

  // ---- from the moment the programs are attached ----

  lemma NextAttached(cfg: Config, s: State, a: Action)
    ensures s.entryOn ==> Next(cfg, s, a).entryOn
    ensures s.exitOn && (cfg.kind.EntryExit? ==> s.entryOn) ==> Next(cfg, s, a).exitOn
  {
    if a.Step? && a.tid in s.threads {
      if s.threads[a.tid].pc.Emitting() { EmittingAttached(cfg, s, a); } else { MatchingAttached(cfg, s, a); }
    }
  }

  lemma EmittingAttached(cfg: Config, s: State, a: Action)
    requires a.Step? && a.tid in s.threads && s.threads[a.tid].pc.Emitting()
    ensures Next(cfg, s, a).entryOn == s.entryOn && Next(cfg, s, a).exitOn == s.exitOn
  {
  }

  lemma MatchingAttached(cfg: Config, s: State, a: Action)
    requires a.Step? && a.tid in s.threads && !s.threads[a.tid].pc.Emitting()
    ensures Next(cfg, s, a).entryOn == s.entryOn && Next(cfg, s, a).exitOn == s.exitOn
  {
  }

  /** The calls of t from number c on are seen by the programs that are attached in s. */
  ghost predicate SeenFrom(cfg: Config, entryOn: bool, exitOn: bool, s: State, t: nat, c: nat) {
    && t in s.threads && (entryOn ==> s.entryOn) && (exitOn ==> s.exitOn)
    && forall i :: c <= i < |s.threads[t].calls| ==>
         && (entryOn && IsTarget(cfg, s.threads[t].pid) ==> s.threads[t].calls[i].seen)
         && (exitOn ==> s.threads[t].calls[i].hooked)
  }

  lemma SeenOnward(cfg: Config, entryOn: bool, exitOn: bool, s: State, a: Action, s': State, t: nat, c: nat)
    requires SeenFrom(cfg, entryOn, exitOn, s, t, c) && Evolves(cfg, s, a, s', t)
    requires (entryOn ==> s'.entryOn) && (exitOn ==> s'.exitOn)
    ensures SeenFrom(cfg, entryOn, exitOn, s', t, c)
  {
    forall i | c <= i < |s'.threads[t].calls|
      ensures entryOn && IsTarget(cfg, s'.threads[t].pid) ==> s'.threads[t].calls[i].seen
      ensures exitOn ==> s'.threads[t].calls[i].hooked
    {
      if i < |s.threads[t].calls| { assert OldTells(s, a, t, i, s'.threads[t].calls[i]); }
    }
  }

  lemma {:induction false} RunSeen(cfg: Config, entryOn: bool, exitOn: bool, s: State, rest: seq<Action>,
                                   t: nat, c: nat)
    requires Inv(cfg, s) && SeenFrom(cfg, entryOn, exitOn, s, t, c)
    ensures SeenFrom(cfg, entryOn, exitOn, Run(cfg, s, rest), t, c)
    decreases rest
  {
    if rest == [] {
    } else {
      NextTells(cfg, s, rest[0], t);
      NextAttached(cfg, s, rest[0]);
      SeenOnward(cfg, entryOn, exitOn, s, rest[0], Next(cfg, s, rest[0]), t, c);
      NextKeeps(cfg, s, rest[0]);
      RunSeen(cfg, entryOn, exitOn, Next(cfg, s, rest[0]), rest[1..], t, c);
    }
  }

  /** From the moment its return program is attached, a paired probe accounts for every call
      a thread of the target process begins and finishes. */
  lemma PairsAreTraced(cfg: Config, pids: map<nat, nat>, before: seq<Action>, rest: seq<Action>, t: nat, c: nat)
    requires cfg.kind.EntryExit? && t in pids && (cfg.targetPid == 0 || pids[t] == cfg.targetPid)
    requires var s0 := Run(cfg, Loaded(pids), before); s0.exitOn && NotBegun(s0, t, c)
    requires var s := Run(cfg, Loaded(pids), before + rest); t in s.threads && Finished(s.threads[t], c)
    ensures Accounted(Run(cfg, Loaded(pids), before + rest), t, c)
  {
    Reached(cfg, pids, before);
    LoadedThreads(cfg, pids, before + rest);
    RunConcat(cfg, Loaded(pids), before, rest);
    RunSeen(cfg, false, true, Run(cfg, Loaded(pids), before), rest, t, c);
    LeavesAreReported(cfg, pids, before + rest, t, c);
  }

  /** Likewise for the single-ended probes. */
  lemma SingleEndsAreTraced(cfg: Config, pids: map<nat, nat>, before: seq<Action>, rest: seq<Action>, t: nat, c: nat)
    requires !cfg.kind.EntryExit? && t in pids && (cfg.targetPid == 0 || pids[t] == cfg.targetPid)
    requires var s0 := Run(cfg, Loaded(pids), before);
      (if cfg.kind.EntryOnly? then s0.entryOn else s0.exitOn) && NotBegun(s0, t, c)
    requires var s := Run(cfg, Loaded(pids), before + rest); t in s.threads && Finished(s.threads[t], c)
    ensures var s := Run(cfg, Loaded(pids), before + rest);
      OneRecord(s, t, c) || (s.threads[t].calls[c].outcome.Dropped? && NoRecord(s, t, c))
  {
    Reached(cfg, pids, before);
    LoadedThreads(cfg, pids, before + rest);
    RunConcat(cfg, Loaded(pids), before, rest);
    RunSeen(cfg, cfg.kind.EntryOnly?, cfg.kind.ReturnOnly?, Run(cfg, Loaded(pids), before), rest, t, c);
    SingleEndedEvents(cfg, pids, before + rest, t, c);
  }

  /** Attaching works: after the actions that attach a probe, its programs are on. */
  lemma Attached(cfg: Config, pids: map<nat, nat>)
    ensures var s := Run(cfg, Loaded(pids), [AttachEntry, AttachExit]);
      && s.entryOn == !cfg.kind.ReturnOnly? && s.exitOn == !cfg.kind.EntryOnly?
  {
    RunCons(cfg, Loaded(pids), AttachEntry, [AttachExit]);
    RunCons(cfg, Next(cfg, Loaded(pids), AttachEntry), AttachExit, []);
    assert [AttachEntry] + [AttachExit] == [AttachEntry, AttachExit] && [AttachExit] + [] == [AttachExit];
  }

  // ---- reading ----

  function Reads(n: nat): seq<Action> { seq(n, i => Consume) }

  /** Whatever has been submitted can be read: once no record is still being filled, the
      consumer gets through the ring. */
  lemma {:induction false} EverythingIsDelivered(cfg: Config, s: State, n: nat)
    requires s.consumed + n == |s.ring| && forall k :: 0 <= k < |s.ring| ==> s.ring[k].committed
    ensures var s' := Run(cfg, s, Reads(n)); s'.consumed == |s.ring| && s'.ring == s.ring
    decreases n
  {
    if n > 0 {
      var s1 := Next(cfg, s, Consume);
      assert Reads(n) == [Consume] + Reads(n - 1);
      RunCons(cfg, s, Consume, Reads(n - 1));
      EverythingIsDelivered(cfg, s1, n - 1);
    }
  }
}
