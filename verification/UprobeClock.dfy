/** The times of traced calls and of their records, which calls are traced at all, and
    whose records there are. */
module UprobeClock {
  import opened Bpf
  import opened Wire
  import opened UprobeWire
  import opened Uprobe
  import opened UprobePairing
  import opened UprobeCalls
  import opened UprobeResults

  // ---- the clock ----

  /** The time a schedule takes. */
  function Ticks(schedule: seq<Action>): nat
    decreases schedule
  {
    if schedule == [] then 0 else (if schedule[0].Tick? then schedule[0].d else 0) + Ticks(schedule[1..])
  }

  lemma NextClock(cfg: Config, s: State, a: Action)
    ensures s.clock <= Next(cfg, s, a).clock
    ensures !a.Tick? ==> Next(cfg, s, a).clock == s.clock
  {
    if a.Step? && a.tid in s.threads && s.threads[a.tid].pc.Emitting() { EmittingClock(cfg, s, a); }
  }

  lemma EmittingClock(cfg: Config, s: State, a: Action)
    requires a.Step? && a.tid in s.threads && s.threads[a.tid].pc.Emitting()
    ensures Next(cfg, s, a).clock == s.clock
  {
  }

  /** The clock shows the time that passed, whatever the handlers do meanwhile. */
  lemma {:induction false} ClockTells(cfg: Config, s: State, schedule: seq<Action>)
    requires s.clock + Ticks(schedule) < TWO64
    ensures Run(cfg, s, schedule).clock == s.clock + Ticks(schedule)
    decreases schedule
  {
    if schedule == [] {
    } else {
      NextClock(cfg, s, schedule[0]);
      ClockTells(cfg, Next(cfg, s, schedule[0]), schedule[1..]);
    }
  }

  // ---- the times of a call ----

  ghost predicate NotBegun(s: State, t: nat, c: nat) {
    t in s.threads && |s.threads[t].calls| <= c
  }

  /** Call c of t has begun and handle_uprobe_pair_entry is through with it. */
  ghost predicate LeftEntry(s: State, t: nat, c: nat) {
    && t in s.threads && c < |s.threads[t].calls|
    && (c == |s.threads[t].calls| - 1 ==> !s.threads[t].pc.Entering())
  }

  /** Call c of t has not yet returned. */
  ghost predicate NotReturned(s: State, t: nat, c: nat) {
    t in s.threads && (c < |s.threads[t].calls| ==> c in s.threads[t].stack)
  }

  ghost predicate Within(o: Option<nat>, lo: nat, hi: nat) {
    o.Some? ==> lo <= o.value <= hi
  }

  ghost predicate EnteredSince(s: State, t: nat, c: nat, lo: nat) {
    t in s.threads && lo <= s.clock && (c < |s.threads[t].calls| ==> Within(s.threads[t].calls[c].entered, lo, s.clock))
  }

  ghost predicate ExitedSince(s: State, t: nat, c: nat, lo: nat) {
    t in s.threads && lo <= s.clock && (c < |s.threads[t].calls| ==> Within(s.threads[t].calls[c].exited, lo, s.clock))
  }

  /** No open call has an exit time. */
  ghost predicate OpenUnread(th: Thread) {
    forall c :: 0 <= c < |th.calls| && c in th.stack ==> th.calls[c].exited.None?
  }

  /** What holds of t in every reachable state. */
  ghost predicate Sound(cfg: Config, s: State, t: nat) {
    Inv(cfg, s) && t in s.threads && OpenUnread(s.threads[t])
  }

  /** What the invariant says about the call a pair handler is timing. */
  ghost predicate Timing(s: State, t: nat)
    requires t in s.threads
  {
    var th := s.threads[t];
    && (th.pc.PairClock? ==> th.stack != [] && Top(th) == |th.calls| - 1)
    && (th.pc.PairNow? ==> th.pc.call < |th.calls| && th.pc.call !in th.stack)
    && (th.stack != [] ==> Top(th) < |th.calls|)
    && (forall c :: c in th.stack ==> c < |th.calls|)
    && (forall i, j :: 0 <= i < j < |th.stack| ==> th.stack[i] < th.stack[j])
  }

  lemma InvTiming(cfg: Config, s: State, t: nat)
    requires Inv(cfg, s) && t in s.threads
    ensures Timing(s, t)
  {
    ThreadReady(cfg, s, t);
  }

  /** From s to s' call c keeps its entry time once the entry handler is through with it,
      and its exit time once it is finished. */
  ghost predicate TimesKept(s: State, s': State, t: nat, c: nat) {
    && t in s.threads && t in s'.threads && c < |s.threads[t].calls| <= |s'.threads[t].calls|
    && var call, call' := s.threads[t].calls[c], s'.threads[t].calls[c];
    && (LeftEntry(s, t, c) ==> LeftEntry(s', t, c) && call'.entered == call.entered)
    && (Finished(s.threads[t], c) ==> Finished(s'.threads[t], c) && call'.exited == call.exited)
  }

  lemma TellsKept(cfg: Config, s: State, a: Action, s': State, t: nat, c: nat)
    requires t in s.threads && c < |s.threads[t].calls| && Evolves(cfg, s, a, s', t) && Timing(s, t)
    ensures TimesKept(s, s', t, c)
  {
    assert OldTells(s, a, t, c, s'.threads[t].calls[c]);
  }

  lemma TellsSince(cfg: Config, s: State, a: Action, s': State, t: nat, c: nat, lo: nat)
    requires t in s.threads && Evolves(cfg, s, a, s', t) && s.clock <= s'.clock
    ensures EnteredSince(s, t, c, lo) ==> EnteredSince(s', t, c, lo)
    ensures ExitedSince(s, t, c, lo) ==> ExitedSince(s', t, c, lo)
  {
    if c < |s.threads[t].calls| { assert OldTells(s, a, t, c, s'.threads[t].calls[c]); }
  }

  lemma TellsUnread(cfg: Config, s: State, a: Action, s': State, t: nat)
    requires t in s.threads && Evolves(cfg, s, a, s', t) && Timing(s, t) && OpenUnread(s.threads[t])
    ensures OpenUnread(s'.threads[t])
  {
    var th, th' := s.threads[t], s'.threads[t];
    forall c | 0 <= c < |th'.calls| && c in th'.stack ensures th'.calls[c].exited.None? {
      if c < |th.calls| {
        assert OldTells(s, a, t, c, th'.calls[c]);
        assert c in th.stack;
      }
    }
  }

  lemma NextSound(cfg: Config, s: State, a: Action, t: nat)
    requires Sound(cfg, s, t)
    ensures Sound(cfg, Next(cfg, s, a), t)
  {
    InvTiming(cfg, s, t);
    NextTells(cfg, s, a, t);
    TellsUnread(cfg, s, a, Next(cfg, s, a), t);
    NextKeeps(cfg, s, a);
  }

  lemma KeptOnward(s: State, s': State, s'': State, t: nat, c: nat)
    requires TimesKept(s, s', t, c) && TimesKept(s', s'', t, c)
    ensures TimesKept(s, s'', t, c)
  {
  }

  lemma NextTimes(cfg: Config, s: State, a: Action, t: nat, c: nat, lo: nat)
    requires Sound(cfg, s, t)
    ensures var s' := Next(cfg, s, a);
      && (EnteredSince(s, t, c, lo) ==> EnteredSince(s', t, c, lo))
      && (ExitedSince(s, t, c, lo) ==> ExitedSince(s', t, c, lo))
      && (c < |s.threads[t].calls| ==> TimesKept(s, s', t, c))
      && s.clock <= s'.clock
  {
    var s' := Next(cfg, s, a);
    InvTiming(cfg, s, t);
    NextTells(cfg, s, a, t);
    NextClock(cfg, s, a);
    TellsSince(cfg, s, a, s', t, c, lo);
    if c < |s.threads[t].calls| { TellsKept(cfg, s, a, s', t, c); }
  }

  lemma {:induction false} RunTimes(cfg: Config, s: State, rest: seq<Action>, t: nat, c: nat, lo: nat)
    requires Sound(cfg, s, t)
    ensures var s' := Run(cfg, s, rest);
      && Sound(cfg, s', t) && s.clock <= s'.clock
      && (EnteredSince(s, t, c, lo) ==> EnteredSince(s', t, c, lo))
      && (ExitedSince(s, t, c, lo) ==> ExitedSince(s', t, c, lo))
      && (c < |s.threads[t].calls| ==> TimesKept(s, s', t, c))
    decreases rest
  {
    if rest == [] {
    } else {
      var s1 := Next(cfg, s, rest[0]);
      NextTimes(cfg, s, rest[0], t, c, lo);
      NextSound(cfg, s, rest[0], t);
      RunTimes(cfg, s1, rest[1..], t, c, lo);
      if c < |s.threads[t].calls| { KeptOnward(s, s1, Run(cfg, s, rest), t, c); }
    }
  }

  lemma LaterTimes(cfg: Config, s: State, s': State, t: nat, c: nat)
    requires Sound(cfg, s, t) && Later(cfg, s, s')
    ensures Sound(cfg, s', t) && s.clock <= s'.clock
    ensures NotBegun(s, t, c) ==> EnteredSince(s', t, c, s.clock)
    ensures NotReturned(s, t, c) ==> ExitedSince(s', t, c, s.clock)
    ensures c < |s.threads[t].calls| ==> TimesKept(s, s', t, c)
  {
    var rest :| Run(cfg, s, rest) == s';
    RunTimes(cfg, s, rest, t, c, s.clock);
  }

  lemma ReachedSound(cfg: Config, pids: map<nat, nat>, s: State, t: nat)
    requires Later(cfg, Loaded(pids), s) && t in s.threads
    ensures Sound(cfg, s, t)
  {
    var schedule :| Run(cfg, Loaded(pids), schedule) == s;
    LoadedInv(cfg, pids);
    LoadedThreads(cfg, pids, schedule);
    LaterTimes(cfg, Loaded(pids), s, t, 0);
  }

  lemma LaterStill(cfg: Config, s: State, s': State, s'': State)
    requires Later(cfg, s, s') && Later(cfg, s', s'')
    ensures Later(cfg, s, s'')
  {
    var first :| Run(cfg, s, first) == s';
    var second :| Run(cfg, s', second) == s'';
    RunConcat(cfg, s, first, second);
  }

  /** The entry time of a call was read between any moment before it began and any moment
      at which the entry handler was through with it. */
  lemma EnteredBetween(cfg: Config, pids: map<nat, nat>, s0: State, s1: State, s: State, t: nat, c: nat)
    requires Later(cfg, Loaded(pids), s0) && Later(cfg, s0, s1) && Later(cfg, s1, s)
    requires NotBegun(s0, t, c) && LeftEntry(s1, t, c)
    ensures t in s.threads && c < |s.threads[t].calls|
    ensures Within(s.threads[t].calls[c].entered, s0.clock, s1.clock)
  {
    ReachedSound(cfg, pids, s0, t);
    LaterTimes(cfg, s0, s1, t, c);
    LaterTimes(cfg, s1, s, t, c);
  }

  /** The exit time of a call was read between any moment before it returned and any moment
      at which no handler was at work on it any more. */
  lemma ExitedBetween(cfg: Config, pids: map<nat, nat>, s0: State, s1: State, s: State, t: nat, c: nat)
    requires Later(cfg, Loaded(pids), s0) && Later(cfg, s0, s1) && Later(cfg, s1, s)
    requires NotReturned(s0, t, c) && t in s1.threads && Finished(s1.threads[t], c)
    ensures t in s.threads && c < |s.threads[t].calls|
    ensures Within(s.threads[t].calls[c].exited, s0.clock, s1.clock)
  {
    ReachedSound(cfg, pids, s0, t);
    LaterTimes(cfg, s0, s1, t, c);
    LaterTimes(cfg, s1, s, t, c);
  }

  /** The latency of a record is the call's own: at least the time between the end of the
      entry handler (s1) and the return (s2), at most the time between the call (s0) and
      the end of the exit handler (s3). */
  lemma LatencyBetween(cfg: Config, pids: map<nat, nat>, s0: State, s1: State, s2: State, s3: State, s: State,
                       t: nat, c: nat, k: nat)
    requires cfg.kind.EntryExit? && Later(cfg, Loaded(pids), s0) && Later(cfg, s0, s1) && Later(cfg, s1, s2)
    requires Later(cfg, s2, s3) && Later(cfg, s3, s)
    requires NotBegun(s0, t, c) && LeftEntry(s1, t, c) && NotReturned(s2, t, c)
    requires t in s3.threads && Finished(s3.threads[t], c)
    requires k < |s.ring| && s.ring[k].tid == t && s.ring[k].call == c
    ensures s1.clock <= s2.clock && s.ring[k].out.Pair?
    ensures s2.clock - s1.clock <= s.ring[k].out.latency <= s3.clock - s0.clock
  {
    LaterStill(cfg, s2, s3, s);
    LaterStill(cfg, s1, s2, s);
    EnteredBetween(cfg, pids, s0, s1, s, t, c);
    LaterStill(cfg, Loaded(pids), s0, s1);
    LaterStill(cfg, Loaded(pids), s1, s2);
    ExitedBetween(cfg, pids, s2, s3, s, t, c);
    ReachedSound(cfg, pids, s1, t);
    LaterTimes(cfg, s1, s2, t, c);
    LaterStill(cfg, Loaded(pids), s2, s);
    SlotLater(cfg, pids, s, k);
  }

  lemma SlotLater(cfg: Config, pids: map<nat, nat>, s: State, k: nat)
    requires Later(cfg, Loaded(pids), s) && k < |s.ring|
    ensures SlotOk(cfg, s, k)
  {
    var schedule :| Run(cfg, Loaded(pids), schedule) == s;
    Reached(cfg, pids, schedule);
    SlotOf(cfg, s, k);
  }

  lemma SlotOf(cfg: Config, s: State, k: nat)
    requires Inv(cfg, s) && k < |s.ring|
    ensures SlotOk(cfg, s, k)
  {
  }
}
