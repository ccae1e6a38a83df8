/** handle_enter and handle_exit of bpf/latency.bpf.c as they are written: straight
    code over shared maps, with other threads free to act between any two helper
    calls. Each run of a handler is a run of the state machine of module Latency, so
    what is proved there of all runs holds of these bodies. */
module LatencyProgram {
  import opened Bpf
  import opened Latency
  import LatencyClock
  import LatencyConservation
  import LatencyPairing
  import Log2
  import Pool
  import Totals

  /** A step by another thread, or by nobody. */
  predicate NotBy(a: Action, t: nat) {
    a.SysEnter? || a.SysExit? || a.Step? ==> a.tid != t
  }

  predicate NoneBy(schedule: seq<Action>, t: nat) {
    forall i :: 0 <= i < |schedule| ==> NotBy(schedule[i], t)
  }

  lemma ThreadStays(cfg: Config, s: State, a: Action, t: nat)
    requires LatencyPairing.Inv(cfg, s) && t in s.threads && NotBy(a, t)
    ensures var s' := Next(cfg, s, a);
      t in s'.threads && s'.threads[t] == s.threads[t] && s'.entryTimes.Lookup(t) == s.entryTimes.Lookup(t)
  {
    if (a.SysEnter? || a.SysExit? || a.Step?) && a.tid in s.threads {
      LatencyPairing.NextOnlyMoves(cfg, s, a);
    } else {
      LatencyPairing.NobodyMoves(cfg, s, a);
    }
  }

  lemma {:induction false} OthersStay(cfg: Config, s: State, others: seq<Action>, t: nat)
    requires LatencyPairing.Inv(cfg, s) && t in s.threads && NoneBy(others, t)
    ensures var s' := Run(cfg, s, others);
      t in s'.threads && s'.threads[t] == s.threads[t] && s'.entryTimes.Lookup(t) == s.entryTimes.Lookup(t)
    decreases others
  {
    if others == [] {
    } else {
      ThreadStays(cfg, s, others[0], t);
      LatencyPairing.NextKeeps(cfg, s, others[0]);
      OthersStay(cfg, Next(cfg, s, others[0]), others[1..], t);
    }
  }

  /** What the invariant says about the pointers a handler of t may hold. */
  lemma InHandler(cfg: Config, s: State, t: nat)
    requires LatencyPairing.Inv(cfg, s) && t in s.threads
    ensures |s.histogram| == MAX_BUCKETS && (!s.threads[t].pc.Idle? ==> s.threads[t].calls != [])
    ensures s.threads[t].pc.HoldsEntry() || s.threads[t].pc.Deleted() ==>
      s.threads[t].pc.cell < |s.entryTimes.cells| && s.threads[t].pc.cell < |s.origin|
    ensures s.threads[t].pc.ExitAdd? ==> s.threads[t].pc.bucket < MAX_BUCKETS
    ensures s.threads[t].pc.EnterUpdate? ==> Current(s, t).entered == Some(s.threads[t].pc.ts)
  {
    LatencyPairing.OwnOf(cfg, s, t);
    Pointers(cfg, s, t);
  }

  lemma Pointers(cfg: Config, s: State, t: nat)
    requires t in s.threads && LatencyPairing.Shared(s) && LatencyPairing.Own(cfg, s, t)
    ensures |s.histogram| == MAX_BUCKETS && (!s.threads[t].pc.Idle? ==> s.threads[t].calls != [])
    ensures s.threads[t].pc.HoldsEntry() || s.threads[t].pc.Deleted() ==>
      s.threads[t].pc.cell < |s.entryTimes.cells| && s.threads[t].pc.cell < |s.origin|
    ensures s.threads[t].pc.ExitAdd? ==> s.threads[t].pc.bucket < MAX_BUCKETS
    ensures s.threads[t].pc.EnterUpdate? ==> Current(s, t).entered == Some(s.threads[t].pc.ts)
  {
  }

  lemma ReachedPointers(cfg: Config, pids: map<nat, nat>, schedule: seq<Action>, t: nat)
    requires t in Run(cfg, Loaded(pids), schedule).threads
    ensures var s := Run(cfg, Loaded(pids), schedule);
      && |s.histogram| == MAX_BUCKETS && (!s.threads[t].pc.Idle? ==> s.threads[t].calls != [])
      && (s.threads[t].pc.HoldsEntry() || s.threads[t].pc.Deleted() ==>
            s.threads[t].pc.cell < |s.entryTimes.cells| && s.threads[t].pc.cell < |s.origin|)
      && (s.threads[t].pc.ExitAdd? ==> s.threads[t].pc.bucket < MAX_BUCKETS)
      && (s.threads[t].pc.EnterUpdate? ==> Current(s, t).entered == Some(s.threads[t].pc.ts))
  {
    LatencyPairing.Reached(cfg, pids, schedule);
    InHandler(cfg, Run(cfg, Loaded(pids), schedule), t);
  }

  /** The steps of one handler run: before each, others[i]. */
  function Steps(tid: nat, others: seq<seq<Action>>): seq<Action> {
    if others == [] then [] else
    Steps(tid, others[..|others| - 1]) + others[|others| - 1] + [Step(tid)]
  }

  lemma StepsOfTwo(tid: nat, others: seq<seq<Action>>)
    requires |others| == 2
    ensures forall start: seq<Action> ::
      start + others[0] + [Step(tid)] + others[1] + [Step(tid)] == start + Steps(tid, others)
  {
    assert Steps(tid, others[..1]) == [] + others[0] + [Step(tid)];
  }

  lemma NoneYet(start: seq<Action>, tid: nat, others: seq<seq<Action>>)
    ensures start + Steps(tid, others[..0]) == start
  {
  }

  lemma OneMore(start: seq<Action>, tid: nat, others: seq<seq<Action>>, made: nat)
    requires made < |others|
    ensures start + Steps(tid, others[..made]) + others[made] + [Step(tid)]
         == start + Steps(tid, others[..made + 1])
  {
    assert others[..made + 1][..made] == others[..made];
  }

  class Program {
    const cfg: Config
    const pids: map<nat, nat>
    var entryTimes: HashMap             // entry_times
    const histogram: array<nat>         // histogram
    var world: State                    // where every thread stands, and the history
    ghost var trace: seq<Action>        // everything that happened so far

    ghost predicate Traced()
      reads this
    {
      world == Run(cfg, Loaded(pids), trace)
    }

    ghost predicate Valid()
      reads this, histogram
    {
      Traced() && entryTimes == world.entryTimes && histogram[..] == world.histogram
    }

    /** Thread tid is inside a handler, about to make the helper call `pc` names. */
    predicate At(tid: nat, pc: Pc)
      reads this
    {
      tid in world.threads && world.threads[tid].pc == pc
    }

    /** The filter of both programs, for the process of tid. */
    predicate Passes(tid: nat)
      requires tid in world.threads
      reads this
    {
      cfg.targetPid == 0 || world.threads[tid].pid == cfg.targetPid
    }

    /** The call tid is in, or made last. */
    function Last(tid: nat): Call
      requires tid in world.threads && world.threads[tid].calls != []
      reads this
    {
      world.threads[tid].calls[|world.threads[tid].calls| - 1]
    }

    /** tid has the calls it had, the last one perhaps further on. */
    predicate SameCalls(tid: nat, calls: seq<Call>)
      reads this
    {
      && tid in world.threads && |world.threads[tid].calls| == |calls|
      && (calls != [] ==> Last(tid).nr == calls[|calls| - 1].nr)
    }

    predicate Stored(tid: nat)
      requires tid in world.threads && world.threads[tid].calls != []
      reads this
    {
      Last(tid).insert.Stored?
    }

    /** The map holds ts for tid. */
    predicate Kept(tid: nat, ts: nat)
      reads this
    {
      && tid in entryTimes.index && entryTimes.index[tid] < |entryTimes.cells|
      && entryTimes.cells[entryTimes.index[tid]] == ts
    }

    /** tid's last call has a sample that ends at `now`, in the bucket of its duration. */
    ghost predicate Counted(tid: nat, now: nat)
      requires tid in world.threads && world.threads[tid].calls != []
      reads this
    {
      && Last(tid).counted.Some? && Last(tid).counted.value < |world.samples|
      && var x := world.samples[Last(tid).counted.value];
      && x.tid == tid && x.exitCall == |world.threads[tid].calls| - 1
      && x.end == now >= x.start && x.bucket == Log2.Bucket(now - x.start)
      && x.entryCall <= x.exitCall && world.threads[tid].calls[x.entryCall].entered == Some(x.start)
    }

    constructor (cfg: Config, pids: map<nat, nat>)
      ensures Valid() && this.cfg == cfg && this.pids == pids && trace == [] && fresh(histogram)
    {
      this.cfg, this.pids, trace := cfg, pids, [];
      world, entryTimes := Loaded(pids), EMPTY_MAP;
      histogram := new nat[MAX_BUCKETS](i => 0);
    }

    lemma Ready(tid: nat)
      requires Valid() && tid in world.threads
      ensures histogram.Length == MAX_BUCKETS && (!world.threads[tid].pc.Idle? ==> world.threads[tid].calls != [])
      ensures world.threads[tid].pc.HoldsEntry() || world.threads[tid].pc.Deleted() ==>
        world.threads[tid].pc.cell < |entryTimes.cells| && world.threads[tid].pc.cell < |world.origin|
      ensures world.threads[tid].pc.ExitAdd? ==> world.threads[tid].pc.bucket < MAX_BUCKETS
      ensures world.threads[tid].pc.EnterUpdate? ==> Last(tid).entered == Some(world.threads[tid].pc.ts)
    {
      ReachedPointers(cfg, pids, trace, tid);
    }

    lemma AfterOthers(tid: nat, others: seq<Action>)
      requires Valid() && tid in world.threads && NoneBy(others, tid)
      ensures var s := Run(cfg, world, others);
        && s == Run(cfg, Loaded(pids), trace + others)
        && tid in s.threads && s.threads[tid] == world.threads[tid]
        && s.entryTimes.Lookup(tid) == entryTimes.Lookup(tid)
        && |s.histogram| == histogram.Length
    {
      Ready(tid);
      LatencyPairing.Reached(cfg, pids, trace);
      OthersStay(cfg, world, others, tid);
      RunConcat(cfg, Loaded(pids), trace, others);
      LatencyPairing.Reached(cfg, pids, trace + others);
      InHandler(cfg, Run(cfg, world, others), tid);
    }

    /** Any schedule of the other threads and of time. */
    method Others(tid: nat, others: seq<Action>)
      requires Valid() && tid in world.threads && NoneBy(others, tid)
      modifies this, histogram
      ensures Valid() && trace == old(trace) + others
      ensures tid in world.threads && world.threads[tid] == old(world.threads[tid])
      ensures entryTimes.Lookup(tid) == old(entryTimes.Lookup(tid)) && old(world.clock) <= world.clock
    {
      AfterOthers(tid, others);
      LatencyClock.ClockGrows(cfg, world, others);
      world, trace := Run(cfg, world, others), trace + others;
      entryTimes := world.entryTimes;
      forall i | 0 <= i < histogram.Length { histogram[i] := world.histogram[i]; }
    }

    /** The machine takes the step the handler just made. */
    method Advance(a: Action)
      requires Traced()
      requires var s := Next(cfg, world, a); entryTimes == s.entryTimes && histogram[..] == s.histogram
      modifies this
      ensures Valid() && trace == old(trace) + [a]
      ensures world == Next(cfg, old(world), a) && entryTimes == old(entryTimes) && old(world.clock) <= world.clock
    {
      LatencyClock.NextClock(cfg, world, a);
      RunConcat(cfg, Loaded(pids), trace, [a]);
      assert Run(cfg, world, [a]) == Next(cfg, world, a);
      world, trace := Next(cfg, world, a), trace + [a];
    }

    // ---- the helper calls ----

    /** bpf_ktime_get_ns. */
    method KtimeGetNs(tid: nat) returns (now: nat)
      requires Valid() && tid in world.threads
      requires world.threads[tid].pc.EnterClock? || world.threads[tid].pc.ExitClock?
      modifies this
      ensures Valid() && trace == old(trace) + [Step(tid)]
      ensures var pc := old(world.threads[tid].pc);
        At(tid, if pc.EnterClock? then EnterUpdate(now) else ExitRead(pc.cell, now))
      ensures now == old(world.clock) <= world.clock && SameCalls(tid, old(world.threads[tid].calls))
    {
      Ready(tid);
      now := world.clock;
      Advance(Step(tid));
    }

    /** bpf_map_update_elem(&entry_times, &tid, &ts, BPF_ANY). */
    method UpdateEntry(tid: nat, ts: nat)
      requires Valid() && At(tid, EnterUpdate(ts))
      modifies this
      ensures Valid() && trace == old(trace) + [Step(tid)] && At(tid, InCall) && old(world.clock) <= world.clock
      ensures SameCalls(tid, old(world.threads[tid].calls)) && world.threads[tid].calls != []
      ensures Last(tid).entered == Some(ts) && (Stored(tid) ==> Kept(tid, ts))
      ensures !Stored(tid) ==> |entryTimes.index| >= MAX_ENTRIES
    {
      Ready(tid);
      entryTimes := entryTimes.Update(tid, ts, MAX_ENTRIES);
      Advance(Step(tid));
    }

    /** bpf_map_lookup_elem(&entry_times, &tid). */
    method LookupEntry(tid: nat) returns (entry: Option<nat>)
      requires Valid() && At(tid, ExitLookup)
      modifies this
      ensures Valid() && trace == old(trace) + [Step(tid)]
      ensures old(world.clock) <= world.clock && SameCalls(tid, old(world.threads[tid].calls))
      ensures entry == old(entryTimes.Lookup(tid)) && At(tid, if entry.Some? then ExitClock(entry.value) else Idle)
    {
      Ready(tid);
      entry := entryTimes.Lookup(tid);
      Advance(Step(tid));
    }

    /** now - *entry_ts, on 64 bits. */
    method Since(tid: nat, cell: nat, now: nat) returns (duration: nat)
      requires Valid() && At(tid, ExitRead(cell, now))
      modifies this
      ensures Valid() && trace == old(trace) + [Step(tid)]
      ensures old(world.clock) <= world.clock && SameCalls(tid, old(world.threads[tid].calls))
      ensures duration < TWO64 && At(tid, ExitDelete(cell, now, duration))
    {
      Ready(tid);
      duration := (now - entryTimes.cells[cell]) % TWO64;
      Advance(Step(tid));
    }

    /** bpf_map_delete_elem(&entry_times, &tid). */
    method DeleteEntry(tid: nat, cell: nat, now: nat, duration: nat)
      requires Valid() && At(tid, ExitDelete(cell, now, duration))
      modifies this
      ensures Valid() && trace == old(trace) + [Step(tid)] && At(tid, ExitBucket(cell, now, duration))
      ensures old(world.clock) <= world.clock && SameCalls(tid, old(world.threads[tid].calls))
    {
      Ready(tid);
      entryTimes := entryTimes.Delete(tid);
      Advance(Step(tid));
    }

    /** log2_bucket, then bpf_map_lookup_elem(&histogram, &bucket). */
    method LookupBucket(tid: nat, cell: nat, now: nat, duration: nat) returns (bucket: nat, found: bool)
      requires Valid() && At(tid, ExitBucket(cell, now, duration)) && duration < TWO64
      modifies this
      ensures Valid() && trace == old(trace) + [Step(tid)]
      ensures found && At(tid, ExitAdd(cell, now, bucket))
      ensures old(world.clock) <= world.clock && SameCalls(tid, old(world.threads[tid].calls))
    {
      Ready(tid);
      var shifts;
      bucket, shifts := Log2.Log2Bucket(duration);
      found := bucket < histogram.Length;
      Advance(Step(tid));
    }

    /** __sync_fetch_and_add(count, 1). */
    method FetchAdd(tid: nat, cell: nat, now: nat, bucket: nat)
      requires Valid() && At(tid, ExitAdd(cell, now, bucket))
      modifies this, histogram
      ensures Valid() && trace == old(trace) + [Step(tid)] && At(tid, Idle) && old(world.clock) <= world.clock
      ensures SameCalls(tid, old(world.threads[tid].calls)) && world.threads[tid].calls != [] && Counted(tid, now)
    {
      Ready(tid);
      histogram[bucket] := histogram[bucket] + 1;
      Advance(Step(tid));
      LatencyPairing.ReachedSample(cfg, pids, trace, |world.samples| - 1);
    }

    // ---- the programs ----

    /** handle_enter, up to its filters: the system call begins. */
    method EnterFires(tid: nat, id: int) returns (hit: bool)
      requires Valid() && world.enterOn && At(tid, Idle)
      modifies this
      ensures Valid() && trace == old(trace) + [SysEnter(tid, id)]
      ensures hit == (old(Passes(tid)) && id % TWO32 == cfg.targetSyscall)
      ensures old(world.clock) <= world.clock && tid in world.threads
      ensures |world.threads[tid].calls| == old(|world.threads[tid].calls|) + 1 && Last(tid).nr == id % TWO32
      ensures At(tid, if hit then EnterClock else InCall)
    {
      var pid := world.threads[tid].pid;
      Advance(SysEnter(tid, id));
      if cfg.targetPid != 0 && pid != cfg.targetPid { return false; }
      if id % TWO32 != cfg.targetSyscall { return false; }
      return true;
    }

    /** handle_exit, up to its filter: the system call ends. */
    method ExitFires(tid: nat) returns (hit: bool)
      requires Valid() && world.exitOn && At(tid, InCall)
      modifies this
      ensures Valid() && trace == old(trace) + [SysExit(tid)]
      ensures hit == old(Passes(tid))
      ensures old(world.clock) <= world.clock && SameCalls(tid, old(world.threads[tid].calls))
      ensures At(tid, if hit then ExitLookup else Idle) && entryTimes == old(entryTimes)
    {
      Ready(tid);
      var pid := world.threads[tid].pid;
      Advance(SysExit(tid));
      hit := !(cfg.targetPid != 0 && pid != cfg.targetPid);
    }

    /** handle_enter. `others[i]` is what the other threads do before its i-th helper
        call. */
    method HandleEnter(tid: nat, id: int, others: seq<seq<Action>>) returns (ts: Option<nat>)
      requires Valid() && world.enterOn && At(tid, Idle)
      requires |others| == 2 && forall o :: o in others ==> NoneBy(o, tid)
      modifies this, histogram
      ensures Valid() && At(tid, InCall)
      ensures ts.Some? <==> old(Passes(tid)) && id % TWO32 == cfg.targetSyscall
      ensures trace == old(trace) + [SysEnter(tid, id)] + if ts.Some? then Steps(tid, others) else []
      ensures |world.threads[tid].calls| == old(|world.threads[tid].calls|) + 1 && Last(tid).nr == id % TWO32
      ensures ts.Some? ==>
        && old(world.clock) <= ts.value <= world.clock && Last(tid).entered == ts
        && (if Stored(tid) then Kept(tid, ts.value) else |entryTimes.index| >= MAX_ENTRIES)
    {
      var hit := EnterFires(tid, id);
      if !hit { return None; }
      Others(tid, others[0]);
      var now := KtimeGetNs(tid);
      Others(tid, others[1]);
      UpdateEntry(tid, now);
      StepsOfTwo(tid, others);
      ts := Some(now);
    }

    /** Delete, then the bucket lookup. */
    method FindBucket(tid: nat, cell: nat, now: nat, duration: nat, others: seq<seq<Action>>,
                      ghost start: seq<Action>)
      returns (bucket: nat, found: bool)
      requires Valid() && At(tid, ExitDelete(cell, now, duration)) && duration < TWO64
      requires |others| == 6 && forall o :: o in others ==> NoneBy(o, tid)
      requires trace == start + Steps(tid, others[..3])
      modifies this, histogram
      ensures Valid() && found && At(tid, ExitAdd(cell, now, bucket)) && trace == start + Steps(tid, others[..5])
      ensures old(world.clock) <= world.clock && SameCalls(tid, old(world.threads[tid].calls))
    {
      Others(tid, others[3]);
      DeleteEntry(tid, cell, now, duration);
      OneMore(start, tid, others, 3);
      Others(tid, others[4]);
      bucket, found := LookupBucket(tid, cell, now, duration);
      OneMore(start, tid, others, 4);
    }

    /** The second half of handle_exit, once the duration is known. */
    method CountSample(tid: nat, cell: nat, now: nat, duration: nat, others: seq<seq<Action>>,
                       ghost start: seq<Action>)
      requires Valid() && At(tid, ExitDelete(cell, now, duration)) && duration < TWO64
      requires |others| == 6 && forall o :: o in others ==> NoneBy(o, tid)
      requires trace == start + Steps(tid, others[..3])
      modifies this, histogram
      ensures Valid() && At(tid, Idle) && trace == start + Steps(tid, others[..6])
      ensures old(world.clock) <= world.clock && SameCalls(tid, old(world.threads[tid].calls))
      ensures world.threads[tid].calls != [] && Counted(tid, now)
    {
      var bucket, found := FindBucket(tid, cell, now, duration, others, start);
      if !found { assert false; }  // the fallback store is unreachable
      Others(tid, others[5]);
      FetchAdd(tid, cell, now, bucket);
      OneMore(start, tid, others, 5);
    }

    /** handle_exit once it has found a timestamp. */
    method MeasureCall(tid: nat, cell: nat, others: seq<seq<Action>>, ghost start: seq<Action>) returns (now: nat)
      requires |others| == 6 && forall o :: o in others ==> NoneBy(o, tid)
      requires Valid() && At(tid, ExitClock(cell)) && trace == start + Steps(tid, others[..1])
      modifies this, histogram
      ensures Valid() && At(tid, Idle) && trace == start + Steps(tid, others[..6])
      ensures old(world.clock) <= now <= world.clock && SameCalls(tid, old(world.threads[tid].calls))
      ensures world.threads[tid].calls != [] && Counted(tid, now)
    {
      Others(tid, others[1]);
      now := KtimeGetNs(tid);
      OneMore(start, tid, others, 1);
      Others(tid, others[2]);
      var duration := Since(tid, cell, now);
      OneMore(start, tid, others, 2);
      CountSample(tid, cell, now, duration, others, start);
    }

    /** handle_exit. It makes no helper call if the filter turns it away, one if the
        thread has no timestamp, and six if it has; in any case the thread is through. */
    method HandleExit(tid: nat, others: seq<seq<Action>>) returns (made: nat, now: nat)
      requires Valid() && world.exitOn && At(tid, InCall)
      requires |others| == 6 && forall o :: o in others ==> NoneBy(o, tid)
      modifies this, histogram
      ensures Valid() && At(tid, Idle)
      ensures made == if !old(Passes(tid)) then 0
                      else if tid !in old(entryTimes.index) then 1 else 6
      ensures trace == old(trace) + [SysExit(tid)] + Steps(tid, others[..made])
      ensures SameCalls(tid, old(world.threads[tid].calls))
      ensures made == 6 ==>
        old(world.clock) <= now <= world.clock && world.threads[tid].calls != [] && Counted(tid, now)
    {
      now := 0;
      ghost var start := trace + [SysExit(tid)];
      var hit := ExitFires(tid);
      NoneYet(start, tid, others);
      if !hit { return 0, now; }
      Others(tid, others[0]);
      var entry := LookupEntry(tid);
      OneMore(start, tid, others, 0);
      if entry.None? { return 1, now; }
      now := MeasureCall(tid, entry.value, others, start);
      made := 6;
    }

    /** What userspace sees at any moment: every admitted enter is in the array, in the
        map, overwritten, refused or inside a handler. */
    lemma Accounts()
      requires Valid()
      ensures world.admitted
           == Totals.Sum(histogram[..]) + |entryTimes.index| + world.overwritten + world.refused
              + Pool.Count(world.threads, LatencyConservation.InEnter())
              + Pool.Count(world.threads, LatencyConservation.InAdd())
      ensures histogram.Length == MAX_BUCKETS && |entryTimes.index| <= MAX_ENTRIES
    {
      LatencyConservation.Conservation(cfg, pids, trace);
    }
  }
}
