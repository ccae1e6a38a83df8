/** Where the times and numbers of the latency engine come from: the clock, the system
    calls of the schedule and the processes of its threads. */
module LatencyClock {
  import opened Bpf
  import opened Latency
  import opened LatencyPairing
  import opened LatencyResults
  import LatencyCapacity
  import Log2

  // ---- the clock ----

  /** The time a schedule takes. */
  function Ticks(schedule: seq<Action>): nat
    decreases schedule
  {
    if schedule == [] then 0 else (if schedule[0].Tick? then schedule[0].d else 0) + Ticks(schedule[1..])
  }

  lemma NextClock(cfg: Config, s: State, a: Action)
    ensures s.clock <= Next(cfg, s, a).clock
    ensures !a.Tick? ==> Next(cfg, s, a).clock == s.clock
  {
  }

  /** The clock shows the time that passed, whatever the handlers do meanwhile. */
  lemma {:induction false} ClockTells(cfg: Config, s: State, schedule: seq<Action>)
    requires s.clock + Ticks(schedule) < TWO64
    ensures Run(cfg, s, schedule).clock == s.clock + Ticks(schedule)
    decreases schedule
  {
    if schedule == [] {
    } else {
      NextClock(cfg, s, schedule[0]);
      ClockTells(cfg, Next(cfg, s, schedule[0]), schedule[1..]);
    }
  }

  lemma {:induction false} ClockGrows(cfg: Config, s: State, schedule: seq<Action>)
    ensures s.clock <= Run(cfg, s, schedule).clock
    decreases schedule
  {
    if schedule == [] {
    } else {
      NextClock(cfg, s, schedule[0]);
      ClockGrows(cfg, Next(cfg, s, schedule[0]), schedule[1..]);
    }
  }

  // ---- what one action does to one thread ----

  /** t makes system call nr with action a. */
  ghost predicate Begins(s: State, a: Action, t: nat, nr: nat) {
    a.SysEnter? && a.tid == t && t in s.threads && s.threads[t].pc.Idle? && a.id % TWO32 == nr
  }

  /** The last call of t returns with action a. */
  ghost predicate Returns(s: State, a: Action, t: nat) {
    && a.SysExit? && a.tid == t && t in s.threads && s.threads[t].pc.InCall? && s.threads[t].calls != []
  }

  ghost predicate Unstamped(c: Call) { c.entered.None? && c.exited.None? && !c.hooked }

  /** Thread t's calls before and after action a: a new one only when it begins; a time
      only from the clock, and only in the handler that reads it. */
  ghost predicate Evolves(cfg: Config, s: State, a: Action, s': State, t: nat)
    requires t in s.threads
  {
    && t in s'.threads && s'.threads[t].pid == s.threads[t].pid
    && var th, th' := s.threads[t], s'.threads[t]; var n := |th.calls|;
    && |th'.calls| == (if a.SysEnter? && a.tid == t && th.pc.Idle? then n + 1 else n)
    && (|th'.calls| == n + 1 ==> th'.calls[n].nr == a.id % TWO32 && Unstamped(th'.calls[n]))
    && (forall i :: 0 <= i < n - 1 ==> th'.calls[i] == th.calls[i])
    && (n > 0 ==> LastTells(cfg, s, a, s', t))
  }

  ghost predicate LastTells(cfg: Config, s: State, a: Action, s': State, t: nat)
    requires t in s.threads && t in s'.threads && 0 < |s.threads[t].calls| <= |s'.threads[t].calls|
  {
    var th := s.threads[t]; var c, c' := th.calls[|th.calls| - 1], s'.threads[t].calls[|th.calls| - 1];
    && c'.nr == c.nr && (th.pc.Idle? ==> c' == c)
    && c'.entered == (if a == Step(t) && th.pc.EnterClock? then Some(s.clock) else c.entered)
    && c'.exited == (if a == Step(t) && th.pc.ExitClock? then Some(s.clock) else c.exited)
    && c'.hooked == (if Returns(s, a, t) then s.exitOn && (cfg.targetPid == 0 || th.pid == cfg.targetPid) else c.hooked)
    && Past(th.pc, s'.threads[t].pc, |s'.threads[t].calls| > |th.calls|)
  }

  /** No handler is entered again for the same call. */
  ghost predicate Past(pc: Pc, pc': Pc, begins: bool) {
    && (!begins && !pc.EnterClock? ==> !pc'.EnterClock?)
    && (!begins && !pc.Entering() ==> !pc'.Entering())
    && (pc.Idle? && !begins ==> pc'.Idle?)
    && (!begins && (pc.Exiting() || pc.Idle?) ==> pc'.Exiting() || pc'.Idle?)
  }

  lemma EnterTells(cfg: Config, s: State, a: Action)
    requires a.SysEnter? && a.tid in s.threads
    ensures Evolves(cfg, s, a, Next(cfg, s, a), a.tid)
  {
  }

  lemma ReturnTells(cfg: Config, s: State, a: Action)
    requires a.SysExit? && a.tid in s.threads
    ensures Evolves(cfg, s, a, Next(cfg, s, a), a.tid)
  {
  }

  lemma EnteringTells(cfg: Config, s: State, a: Action)
    requires a.Step? && a.tid in s.threads && s.threads[a.tid].pc.Entering()
    ensures Evolves(cfg, s, a, Next(cfg, s, a), a.tid)
  {
  }

  lemma ExitingTells(cfg: Config, s: State, a: Action)
    requires a.Step? && a.tid in s.threads && !s.threads[a.tid].pc.Entering()
    ensures Evolves(cfg, s, a, Next(cfg, s, a), a.tid)
  {
    if s.threads[a.tid].pc.Deleted() { DeletedTells(cfg, s, a); }
  }

  lemma DeletedTells(cfg: Config, s: State, a: Action)
    requires a.Step? && a.tid in s.threads && s.threads[a.tid].pc.Deleted()
    ensures Evolves(cfg, s, a, Next(cfg, s, a), a.tid)
  {
  }

  lemma StillTells(cfg: Config, s: State, a: Action, s': State, t: nat)
    requires t in s.threads && t in s'.threads && s'.threads[t] == s.threads[t]
    requires (a.SysEnter? || a.SysExit? || a.Step?) ==> a.tid != t
    ensures Evolves(cfg, s, a, s', t)
  {
  }

  lemma NextTells(cfg: Config, s: State, a: Action, t: nat)
    requires Inv(cfg, s) && t in s.threads
    ensures Evolves(cfg, s, a, Next(cfg, s, a), t)
  {
    if (a.SysEnter? || a.SysExit? || a.Step?) && a.tid in s.threads {
      if a.tid != t {
        NextOnlyMoves(cfg, s, a);
        StillTells(cfg, s, a, Next(cfg, s, a), t);
      } else if a.SysEnter? { EnterTells(cfg, s, a); }
      else if a.SysExit? { ReturnTells(cfg, s, a); }
      else if s.threads[t].pc.Entering() { EnteringTells(cfg, s, a); }
      else { ExitingTells(cfg, s, a); }
    } else {
      NobodyMoves(cfg, s, a);
      StillTells(cfg, s, a, Next(cfg, s, a), t);
    }
  }

  // ---- the times of a call ----

  ghost predicate NotBegun(s: State, t: nat, i: nat) {
    t in s.threads && |s.threads[t].calls| <= i
  }

  /** Call i of t has begun and handle_enter is through with it. */
  ghost predicate LeftEnter(s: State, t: nat, i: nat) {
    && t in s.threads && i < |s.threads[t].calls|
    && (i == |s.threads[t].calls| - 1 ==> !s.threads[t].pc.Entering())
  }

  /** Call i of t has not yet returned. */
  ghost predicate NotReturned(s: State, t: nat, i: nat) {
    && t in s.threads
    && (i < |s.threads[t].calls| ==>
          i == |s.threads[t].calls| - 1 && (s.threads[t].pc.Entering() || s.threads[t].pc.InCall?))
  }

  ghost predicate Within(o: Option<nat>, lo: nat, hi: nat) {
    o.Some? ==> lo <= o.value <= hi
  }

  /** The two times of call i, if they were read, lie between lo and now. */
  ghost predicate EnteredSince(s: State, t: nat, i: nat, lo: nat) {
    t in s.threads && lo <= s.clock && (i < |s.threads[t].calls| ==> Within(s.threads[t].calls[i].entered, lo, s.clock))
  }

  ghost predicate ExitedSince(s: State, t: nat, i: nat, lo: nat) {
    t in s.threads && lo <= s.clock && (i < |s.threads[t].calls| ==> Within(s.threads[t].calls[i].exited, lo, s.clock))
  }

  lemma TellsSince(cfg: Config, s: State, a: Action, s': State, t: nat, i: nat, lo: nat)
    requires t in s.threads && Evolves(cfg, s, a, s', t) && s.clock <= s'.clock
    ensures EnteredSince(s, t, i, lo) ==> EnteredSince(s', t, i, lo)
    ensures ExitedSince(s, t, i, lo) ==> ExitedSince(s', t, i, lo)
  {
  }

  lemma {:induction false} RunSince(cfg: Config, s: State, rest: seq<Action>, t: nat, i: nat, lo: nat)
    requires Inv(cfg, s) && t in s.threads
    ensures EnteredSince(s, t, i, lo) ==> EnteredSince(Run(cfg, s, rest), t, i, lo)
    ensures ExitedSince(s, t, i, lo) ==> ExitedSince(Run(cfg, s, rest), t, i, lo)
    decreases rest
  {
    if rest == [] {
    } else {
      NextTells(cfg, s, rest[0], t);
      NextClock(cfg, s, rest[0]);
      TellsSince(cfg, s, rest[0], Next(cfg, s, rest[0]), t, i, lo);
      NextKeeps(cfg, s, rest[0]);
      RunSince(cfg, Next(cfg, s, rest[0]), rest[1..], t, i, lo);
    }
  }

  /** From s to s' call i keeps its number, its entry time once handle_enter is through
      with it, and everything once it is finished. */
  ghost predicate CallKept(s: State, s': State, t: nat, i: nat) {
    && t in s.threads && t in s'.threads && i < |s.threads[t].calls| <= |s'.threads[t].calls|
    && var c, c' := s.threads[t].calls[i], s'.threads[t].calls[i];
    && s'.threads[t].pid == s.threads[t].pid && c'.nr == c.nr
    && (LeftEnter(s, t, i) ==> LeftEnter(s', t, i) && c'.entered == c.entered)
    && (Finished(s, t, i) ==> Finished(s', t, i) && c' == c)
  }

  lemma TellsKept(cfg: Config, s: State, a: Action, s': State, t: nat, i: nat)
    requires t in s.threads && i < |s.threads[t].calls| && Evolves(cfg, s, a, s', t)
    ensures CallKept(s, s', t, i)
  {
  }

  lemma KeptOnward(s: State, s': State, s'': State, t: nat, i: nat)
    requires CallKept(s, s', t, i) && CallKept(s', s'', t, i)
    ensures CallKept(s, s'', t, i)
  {
  }

  lemma {:induction false} RunKept(cfg: Config, s: State, rest: seq<Action>, t: nat, i: nat)
    requires Inv(cfg, s) && t in s.threads && i < |s.threads[t].calls|
    ensures CallKept(s, Run(cfg, s, rest), t, i)
    decreases rest
  {
    if rest == [] {
    } else {
      NextTells(cfg, s, rest[0], t);
      TellsKept(cfg, s, rest[0], Next(cfg, s, rest[0]), t, i);
      NextKeeps(cfg, s, rest[0]);
      RunKept(cfg, Next(cfg, s, rest[0]), rest[1..], t, i);
      KeptOnward(s, Next(cfg, s, rest[0]), Run(cfg, s, rest), t, i);
    }
  }

  /** handle_exit reads the clock no sooner than the call returns. */
  ghost predicate ExitUnread(s: State, t: nat)
    requires t in s.threads
  {
    var th := s.threads[t];
    (th.pc.Entering() || th.pc.InCall?) && th.calls != [] ==> th.calls[|th.calls| - 1].exited.None?
  }

  lemma TellsUnread(cfg: Config, s: State, a: Action, s': State, t: nat)
    requires t in s.threads && Evolves(cfg, s, a, s', t) && ExitUnread(s, t)
    ensures ExitUnread(s', t)
  {
  }

  lemma {:induction false} RunUnread(cfg: Config, s: State, rest: seq<Action>, t: nat)
    requires Inv(cfg, s) && t in s.threads && ExitUnread(s, t)
    ensures t in Run(cfg, s, rest).threads && ExitUnread(Run(cfg, s, rest), t)
    decreases rest
  {
    if rest == [] {
    } else {
      NextTells(cfg, s, rest[0], t);
      TellsUnread(cfg, s, rest[0], Next(cfg, s, rest[0]), t);
      NextKeeps(cfg, s, rest[0]);
      RunUnread(cfg, Next(cfg, s, rest[0]), rest[1..], t);
    }
  }

  lemma {:induction false} SameThreads(cfg: Config, s: State, rest: seq<Action>)
    requires Inv(cfg, s)
    ensures Run(cfg, s, rest).threads.Keys == s.threads.Keys
    ensures forall t :: t in s.threads ==> Run(cfg, s, rest).threads[t].pid == s.threads[t].pid
    decreases rest
  {
    if rest == [] {
    } else {
      NextSameThreads(cfg, s, rest[0]);
      NextKeeps(cfg, s, rest[0]);
      SameThreads(cfg, Next(cfg, s, rest[0]), rest[1..]);
    }
  }

  lemma NextSameThreads(cfg: Config, s: State, a: Action)
    requires Inv(cfg, s)
    ensures Next(cfg, s, a).threads.Keys == s.threads.Keys
    ensures forall t :: t in s.threads ==> Next(cfg, s, a).threads[t].pid == s.threads[t].pid
  {
    if (a.SysEnter? || a.SysExit? || a.Step?) && a.tid in s.threads {
      NextOnlyMoves(cfg, s, a);
      MovedSameThreads(s, Next(cfg, s, a), a.tid);
    } else {
      NobodyMoves(cfg, s, a);
    }
  }

  lemma MovedSameThreads(s: State, s': State, t: nat)
    requires OnlyMoved(s, s', t)
    ensures s'.threads.Keys == s.threads.Keys && forall u :: u in s.threads ==> s'.threads[u].pid == s.threads[u].pid
  {
  }

  /** The threads of a run are the loaded ones, each in its process. */
  lemma LoadedThreads(cfg: Config, pids: map<nat, nat>, schedule: seq<Action>)
    ensures LatencyCapacity.Roster(pids, Run(cfg, Loaded(pids), schedule))
  {
    LoadedInv(cfg, pids);
    SameThreads(cfg, Loaded(pids), schedule);
    LoadedRoster(pids);
    SameRoster(pids, Loaded(pids), Run(cfg, Loaded(pids), schedule));
  }

  lemma LoadedRoster(pids: map<nat, nat>)
    ensures LatencyCapacity.Roster(pids, Loaded(pids))
  {
  }

  lemma SameRoster(pids: map<nat, nat>, s: State, s': State)
    requires LatencyCapacity.Roster(pids, s) && s'.threads.Keys == s.threads.Keys
    requires forall t :: t in s.threads ==> s'.threads[t].pid == s.threads[t].pid
    ensures LatencyCapacity.Roster(pids, s')
  {
  }

  /** What holds of t in every reachable state. */
  ghost predicate Sound(cfg: Config, s: State, t: nat) {
    Inv(cfg, s) && t in s.threads && ExitUnread(s, t)
  }

  /** Some schedule leads from s to s'. */
  ghost predicate Later(cfg: Config, s: State, s': State) {
    exists rest :: Run(cfg, s, rest) == s'
  }

  lemma LaterSound(cfg: Config, s: State, s': State, t: nat)
    requires Sound(cfg, s, t) && Later(cfg, s, s')
    ensures Sound(cfg, s', t) && s.clock <= s'.clock
  {
    var rest :| Run(cfg, s, rest) == s';
    RunKeeps(cfg, s, rest);
    RunUnread(cfg, s, rest, t);
    ClockGrows(cfg, s, rest);
  }

  lemma ReachedSound(cfg: Config, pids: map<nat, nat>, s: State, t: nat)
    requires Later(cfg, Loaded(pids), s) && t in s.threads
    ensures Sound(cfg, s, t)
  {
    var schedule :| Run(cfg, Loaded(pids), schedule) == s;
    LoadedInv(cfg, pids);
    LoadedThreads(cfg, pids, schedule);
    LaterSound(cfg, Loaded(pids), s, t);
  }

  lemma LaterKept(cfg: Config, s: State, s': State, t: nat, i: nat)
    requires Sound(cfg, s, t) && Later(cfg, s, s') && i < |s.threads[t].calls|
    ensures CallKept(s, s', t, i)
  {
    var rest :| Run(cfg, s, rest) == s';
    RunKept(cfg, s, rest, t, i);
  }

  lemma LaterSince(cfg: Config, s: State, s': State, t: nat, i: nat)
    requires Sound(cfg, s, t) && Later(cfg, s, s')
    ensures NotBegun(s, t, i) ==> EnteredSince(s', t, i, s.clock)
    ensures NotReturned(s, t, i) ==> ExitedSince(s', t, i, s.clock)
  {
    var rest :| Run(cfg, s, rest) == s';
    RunSince(cfg, s, rest, t, i, s.clock);
  }

  /** The entry time of a call was read between any moment before it began and any moment
      at which handle_enter was through with it. */
  lemma EnteredBetween(cfg: Config, pids: map<nat, nat>, s0: State, s1: State, s: State, t: nat, i: nat)
    requires Later(cfg, Loaded(pids), s0) && Later(cfg, s0, s1) && Later(cfg, s1, s)
    requires NotBegun(s0, t, i) && LeftEnter(s1, t, i)
    ensures t in s.threads && i < |s.threads[t].calls|
    ensures Within(s.threads[t].calls[i].entered, s0.clock, s1.clock)
  {
    ReachedSound(cfg, pids, s0, t);
    LaterSince(cfg, s0, s1, t, i);
    LaterSound(cfg, s0, s1, t);
    LaterKept(cfg, s1, s, t, i);
  }

  /** The exit time of a call was read between any moment before it returned and any moment
      at which it was finished. */
  lemma ExitedBetween(cfg: Config, pids: map<nat, nat>, s0: State, s1: State, s: State, t: nat, i: nat)
    requires Later(cfg, Loaded(pids), s0) && Later(cfg, s0, s1) && Later(cfg, s1, s)
    requires NotReturned(s0, t, i) && t in s1.threads && Finished(s1, t, i)
    ensures t in s.threads && i < |s.threads[t].calls|
    ensures Within(s.threads[t].calls[i].exited, s0.clock, s1.clock)
  {
    ReachedSound(cfg, pids, s0, t);
    LaterSince(cfg, s0, s1, t, i);
    LaterSound(cfg, s0, s1, t);
    LaterKept(cfg, s1, s, t, i);
  }

  lemma LaterStill(cfg: Config, s: State, s': State, s'': State)
    requires Later(cfg, s, s') && Later(cfg, s', s'')
    ensures Later(cfg, s, s'')
  {
    var first :| Run(cfg, s, first) == s';
    var second :| Run(cfg, s', second) == s'';
    RunConcat(cfg, s, first, second);
  }

  /** The duration of a sample is the call's own: at least the time between the end of
      handle_enter (s1) and the return (s2), at most the time between the call (s0) and
      the end of handle_exit (s3); and it was counted in the bucket of such a duration. */
  lemma DurationBetween(cfg: Config, pids: map<nat, nat>, s0: State, s1: State, s2: State, s3: State, s: State,
                        t: nat, i: nat, k: nat)
    requires Later(cfg, Loaded(pids), s0) && Later(cfg, s0, s1) && Later(cfg, s1, s2)
    requires Later(cfg, s2, s3) && Later(cfg, s3, s)
    requires NotBegun(s0, t, i) && LeftEnter(s1, t, i) && NotReturned(s2, t, i)
    requires t in s3.threads && Finished(s3, t, i)
    requires k < |s.samples| && s.samples[k].tid == t && s.samples[k].entryCall == s.samples[k].exitCall == i
    ensures s1.clock <= s2.clock
    ensures s2.clock - s1.clock <= s.samples[k].end - s.samples[k].start <= s3.clock - s0.clock
    ensures Log2.Bucket(s2.clock - s1.clock) <= s.samples[k].bucket <= Log2.Bucket(s3.clock - s0.clock)
  {
    LaterStill(cfg, s2, s3, s);
    LaterStill(cfg, s1, s2, s);
    EnteredBetween(cfg, pids, s0, s1, s, t, i);
    LaterStill(cfg, Loaded(pids), s0, s1);
    LaterStill(cfg, Loaded(pids), s1, s2);
    ExitedBetween(cfg, pids, s2, s3, s, t, i);
    LaterStill(cfg, Loaded(pids), s2, s);
    SampleLater(cfg, pids, s, k);
    Forwards(cfg, pids, s1, s2, t);
    Durations(cfg, s, k, s0.clock, s1.clock, s2.clock, s3.clock);
  }

  lemma Forwards(cfg: Config, pids: map<nat, nat>, s: State, s': State, t: nat)
    requires Later(cfg, Loaded(pids), s) && Later(cfg, s, s') && t in s.threads
    ensures s.clock <= s'.clock
  {
    ReachedSound(cfg, pids, s, t);
    LaterSound(cfg, s, s', t);
  }

  lemma SampleLater(cfg: Config, pids: map<nat, nat>, s: State, k: nat)
    requires Later(cfg, Loaded(pids), s) && k < |s.samples|
    ensures SampleOk(cfg, s, k)
  {
    var schedule :| Run(cfg, Loaded(pids), schedule) == s;
    ReachedSample(cfg, pids, schedule, k);
  }

  lemma Durations(cfg: Config, s: State, k: nat, c0: nat, c1: nat, c2: nat, c3: nat)
    requires k < |s.samples| && SampleOk(cfg, s, k) && s.samples[k].entryCall == s.samples[k].exitCall && c1 <= c2
    requires Within(s.threads[s.samples[k].tid].calls[s.samples[k].entryCall].entered, c0, c1)
    requires Within(s.threads[s.samples[k].tid].calls[s.samples[k].exitCall].exited, c2, c3)
    ensures c2 - c1 <= s.samples[k].end - s.samples[k].start <= c3 - c0
    ensures Log2.Bucket(c2 - c1) <= s.samples[k].bucket <= Log2.Bucket(c3 - c0)
  {
    var x := s.samples[k];
    Log2.BucketMonotone(c2 - c1, x.end - x.start);
    Log2.BucketMonotone(x.end - x.start, c3 - c0);
  }
}
