/** The four handlers of bpf/uprobe.bpf.c as they are written: straight code over the
    shared map, drop counter and ring, with other threads, the consumer and the
    clock free to act between any two helper calls. Each run of a handler is a run
    of the state machine of module Uprobe, so what is proved there of all runs holds
    of these bodies. */
module UprobeProgram {
  import opened Bpf
  import opened Wire
  import opened UprobeWire
  import opened Uprobe
  import Pool
  import UprobeClock
  import UprobePairing
  import UprobeResults

  predicate NotBy(a: Action, t: nat) {
    a.FnEnter? || a.FnExit? || a.Step? ==> a.tid != t
  }

  predicate NoneBy(schedule: seq<Action>, t: nat) {
    forall i :: 0 <= i < |schedule| ==> NotBy(schedule[i], t)
  }

  /** What the surroundings contribute to one helper call: what everybody else does
      before it, whether the ring has room, what the reserved memory holds and the
      comm buffer the kernel fills. */
  datatype Turn = Turn(others: seq<Action>, room: bool, stale: seq<byte>, comm: seq<byte>) {
    predicate Valid(tid: nat) {
      NoneBy(others, tid) && |stale| == SIZE && |comm| == 16 && 0 in comm
    }
  }

  function StepOf(tid: nat, turn: Turn): Action {
    Step(tid, turn.room, turn.stale, turn.comm)
  }

  /** The steps of one handler run. */
  function Steps(tid: nat, turns: seq<Turn>): seq<Action> {
    if turns == [] then [] else
    Steps(tid, turns[..|turns| - 1]) + turns[|turns| - 1].others + [StepOf(tid, turns[|turns| - 1])]
  }

  lemma NoneYet(start: seq<Action>, tid: nat, turns: seq<Turn>)
    ensures start + Steps(tid, turns[..0]) == start
  {
  }

  lemma OneMore(start: seq<Action>, tid: nat, turns: seq<Turn>, made: nat)
    requires made < |turns|
    ensures start + Steps(tid, turns[..made]) + turns[made].others + [StepOf(tid, turns[made])]
         == start + Steps(tid, turns[..made + 1])
  {
    assert turns[..made + 1][..made] == turns[..made];
  }

  /** Thread t, its timestamp and the record it is filling are in s' what they were in s. */
  ghost predicate Untouched(s: State, s': State, t: nat) {
    && t in s.threads && t in s'.threads && s'.threads[t] == s.threads[t]
    && s'.entryTs.Lookup(t) == s.entryTs.Lookup(t) && s.clock <= s'.clock
    && var pc := s.threads[t].pc;
       pc.InFlight() ==> pc.slot < |s.ring| && pc.slot < |s'.ring| && s'.ring[pc.slot] == s.ring[pc.slot]
  }

  lemma ThreadStays(cfg: Config, s: State, a: Action, t: nat)
    requires UprobePairing.Inv(cfg, s) && t in s.threads && NotBy(a, t)
    ensures Untouched(s, Next(cfg, s, a), t)
  {
    UprobeClock.NextClock(cfg, s, a);
    UprobePairing.ThreadReady(cfg, s, t);
    if (a.FnEnter? || a.FnExit? || a.Step?) && a.tid in s.threads {
      UprobePairing.ThreadReady(cfg, s, a.tid);
      UprobePairing.ThreadMoves(cfg, s, a);
    } else {
      UprobePairing.NobodyMoves(cfg, s, a);
    }
  }

  lemma {:induction false} OthersStay(cfg: Config, s: State, others: seq<Action>, t: nat)
    requires UprobePairing.Inv(cfg, s) && t in s.threads && NoneBy(others, t)
    ensures Untouched(s, Run(cfg, s, others), t)
    decreases others
  {
    UprobePairing.ThreadReady(cfg, s, t);
    if others == [] {
    } else {
      ThreadStays(cfg, s, others[0], t);
      UprobePairing.NextKeeps(cfg, s, others[0]);
      OthersStay(cfg, Next(cfg, s, others[0]), others[1..], t);
    }
  }

  /** What the invariant says about what a handler of t may point at. */
  lemma InHandler(cfg: Config, s: State, t: nat)
    requires UprobePairing.Inv(cfg, s) && t in s.threads
    ensures var th := s.threads[t];
      && (th.pc.Entering() ==> th.stack != [] && Top(th) < |th.calls|)
      && (th.pc.User? && th.stack != [] ==> Top(th) < |th.calls|)
      && (th.pc.Matching() || th.pc.Emitting() ==> th.pc.call < |th.calls|)
      && (th.pc.PairNow? ==> th.pc.cell < |s.entryTs.cells|)
      && (th.pc.Emitting() ==> th.pc.out.Valid())
      && (th.pc.InFlight() ==> th.pc.slot < |s.ring| && |s.ring[th.pc.slot].raw| == SIZE)
      && s.clock < TWO64
  {
    UprobePairing.ThreadReady(cfg, s, t);
  }

  /** The machine's delete step. */
  lemma Deleted(cfg: Config, s: State, t: nat, turn: Turn)
    requires t in s.threads && s.threads[t].pc.PairDelete?
    ensures var pc := s.threads[t].pc; var s' := Next(cfg, s, StepOf(t, turn));
      && s'.entryTs == s.entryTs.Delete(t) && s'.dropCount == s.dropCount && s'.ring == s.ring
      && t in s'.threads && s'.threads[t] == s.threads[t].(pc := Reserve(pc.call, Pair(pc.latency, pc.rc)))
  {
  }

  /** The machine's fill step, for the header the handler assembles. */
  lemma Filled(cfg: Config, s: State, t: nat, turn: Turn, h: Header)
    requires t in s.threads && s.threads[t].pc.Fill? && s.threads[t].pc.slot < |s.ring|
    requires var pc := s.threads[t].pc;
      h.Valid() && h == Header(s.clock, s.threads[t].pid, t, cfg.probeId, turn.comm)
      && |s.ring[pc.slot].raw| == SIZE && pc.out.Valid()
    ensures var pc := s.threads[t].pc; var s' := Next(cfg, s, StepOf(t, turn));
      && s'.entryTs == s.entryTs && s'.dropCount == s.dropCount && |s'.ring| == |s.ring|
      && (forall k :: 0 <= k < |s.ring| && k != pc.slot ==> s'.ring[k].raw == s.ring[k].raw)
      && s'.ring[pc.slot].raw == Record(s.ring[pc.slot].raw, h, pc.out)
      && t in s'.threads && s'.threads[t] == s.threads[t].(pc := Submit(pc.call, pc.out, pc.slot))
  {
  }

  /** The latency in the bytes of a pair's record is the duration of its call. */
  lemma PairLatency(cfg: Config, pids: map<nat, nat>, schedule: seq<Action>, t: nat, c: nat, k: nat)
    requires cfg.kind.EntryExit?
    requires var s := Run(cfg, Loaded(pids), schedule);
      && t in s.threads && s.threads[t].pc.User? && c < |s.threads[t].calls|
      && s.threads[t].calls[c].outcome == Reported(k)
    ensures var s := Run(cfg, Loaded(pids), schedule); var call := s.threads[t].calls[c];
      && k < |s.ring| && |s.ring[k].raw| == SIZE
      && call.entered.Some? && call.exited.Some? && call.entered.value <= call.exited.value
      && U64At(s.ring[k].raw, 28) == call.exited.value - call.entered.value
  {
    UprobePairing.NamedRun(cfg, Loaded(pids), schedule);
    UprobePairing.Reached(cfg, pids, schedule);
    UprobeResults.EventsAreLeaves(cfg, pids, schedule, k);
    var s := Run(cfg, Loaded(pids), schedule);
    UprobeClock.SlotOf(cfg, s, k);
    RecordFields(s.ring[k].stale, s.ring[k].header.value, s.ring[k].out);
  }

  /** A record of 120 bytes telling an event of thread tid, written when the clock was
      between lo and hi. */
  ghost predicate RecordTells(raw: seq<byte>, lo: nat, hi: nat, pid: nat, tid: nat, probeId: nat, comm: seq<byte>,
                              out: Payload)
  {
    && |raw| == 120 && lo <= U64At(raw, 0) <= hi && U32At(raw, 8) == pid && U32At(raw, 12) == tid
    && U32At(raw, 36) == probeId && Get(raw, 40, 16) == comm
    && match out
       case Args(arg0, arg1) =>
         U64At(raw, 20) == 0 && U64At(raw, 28) == 0 && U64At(raw, 56) == arg0 && U64At(raw, 64) == arg1
       case Pair(latency, rc) => U64At(raw, 20) == rc && U64At(raw, 28) == latency
       case Return(rc) => U64At(raw, 20) == rc && U64At(raw, 28) == 0
  }

  /** The stores, done in place on a copy of the reserved memory. */
  method Written(memory: seq<byte>, h: Header, out: Payload) returns (written: seq<byte>)
    requires |memory| == SIZE && h.Valid() && out.Valid()
    ensures written == Record(memory, h, out)
  {
    var e := new byte[SIZE](i requires 0 <= i < SIZE => memory[i]);
    assert e[..] == memory;
    FillRecord(e, h, out);
    written := e[..];
  }

  class Program {
    const cfg: Config
    const pids: map<nat, nat>
    var entryTs: HashMap             // entry_ts
    var dropCount: nat               // drop_count
    var ring: seq<seq<byte>>         // events: the memory of each record
    var world: State                 // where every thread stands, and the history
    ghost var trace: seq<Action>     // everything that happened so far

    ghost predicate Traced()
      reads this
    {
      world == Run(cfg, Loaded(pids), trace)
    }

    /** The shared data are those of machine state s. */
    ghost predicate Shows(s: State)
      reads this
    {
      && entryTs == s.entryTs && dropCount == s.dropCount
      && |ring| == |s.ring| && forall k :: 0 <= k < |ring| ==> ring[k] == s.ring[k].raw
    }

    ghost predicate Valid()
      reads this
    {
      Traced() && Shows(world)
    }

    /** Thread tid is inside a handler, about to make the helper call `pc` names. */
    predicate At(tid: nat, pc: Pc)
      reads this
    {
      tid in world.threads && world.threads[tid].pc == pc
    }

    /** The event of this call was reported, by the record in slot k. */
    predicate Reports(tid: nat, call: nat, k: nat)
      reads this
    {
      && tid in world.threads && call < |world.threads[tid].calls|
      && world.threads[tid].calls[call].outcome == Reported(k) && k < |ring|
    }

    /** It was, and the record tells the event, filled no earlier than lo. */
    ghost predicate Tells(tid: nat, call: nat, lo: nat, comm: seq<byte>, out: Payload)
      reads this
    {
      exists k: nat ::
        Reports(tid, call, k) && RecordTells(ring[k], lo, world.clock, Pid(tid), tid, cfg.probeId, comm, out)
    }

    /** tid has the calls it had, with the times they had. */
    predicate SameTimes(tid: nat, calls: seq<Call>)
      reads this
    {
      && tid in world.threads && |world.threads[tid].calls| == |calls|
      && forall c :: 0 <= c < |calls| ==>
           && world.threads[tid].calls[c].entered == calls[c].entered
           && world.threads[tid].calls[c].exited == calls[c].exited
    }

    /** The map holds ts for tid. */
    predicate Kept(tid: nat, ts: nat)
      reads this
    {
      && tid in entryTs.index && entryTs.index[tid] < |entryTs.cells| && entryTs.cells[entryTs.index[tid]] == ts
    }

    /** The event of this call was reported, or else dropped. */
    predicate Decided(tid: nat, call: nat, reported: bool)
      reads this
    {
      && tid in world.threads && call < |world.threads[tid].calls|
      && var outcome := world.threads[tid].calls[call].outcome;
         if reported then outcome.Reported? else outcome.Dropped?
    }

    function Pid(tid: nat): nat
      requires tid in world.threads
      reads this
    {
      world.threads[tid].pid
    }

    constructor (cfg: Config, pids: map<nat, nat>)
      ensures Valid() && this.cfg == cfg && this.pids == pids && trace == []
    {
      this.cfg, this.pids, trace := cfg, pids, [];
      world, entryTs, dropCount, ring := Loaded(pids), EMPTY_MAP, 0, [];
    }

    lemma Ready(tid: nat)
      requires Valid() && tid in world.threads
      ensures var th := world.threads[tid];
        && (th.pc.Entering() ==> th.stack != [] && Top(th) < |th.calls|)
        && (th.pc.User? && th.stack != [] ==> Top(th) < |th.calls|)
        && (th.pc.Matching() || th.pc.Emitting() ==> th.pc.call < |th.calls|)
        && (th.pc.PairNow? ==> th.pc.cell < |entryTs.cells|)
        && (th.pc.Emitting() ==> th.pc.out.Valid())
        && (th.pc.InFlight() ==> th.pc.slot < |ring| && |ring[th.pc.slot]| == SIZE)
        && world.clock < TWO64
    {
      UprobePairing.Reached(cfg, pids, trace);
      InHandler(cfg, world, tid);
    }

    /** Any schedule of the other threads, the consumer and time. */
    method Others(tid: nat, others: seq<Action>)
      requires Valid() && tid in world.threads && NoneBy(others, tid)
      modifies this
      ensures Valid() && trace == old(trace) + others
      ensures tid in world.threads && world.threads[tid] == old(world.threads[tid])
      ensures entryTs.Lookup(tid) == old(entryTs.Lookup(tid)) && old(world.clock) <= world.clock
      ensures var pc := world.threads[tid].pc;
        pc.InFlight() ==> pc.slot < |ring| && pc.slot < old(|ring|) && ring[pc.slot] == old(ring)[pc.slot]
    {
      UprobePairing.Reached(cfg, pids, trace);
      OthersStay(cfg, world, others, tid);
      RunConcat(cfg, Loaded(pids), trace, others);
      world, trace := Run(cfg, world, others), trace + others;
      var slots := world.ring;
      entryTs, dropCount := world.entryTs, world.dropCount;
      ring := seq(|slots|, k requires 0 <= k < |slots| => slots[k].raw);
    }

    /** The machine takes the step the handler just made. */
    method Advance(a: Action)
      requires Traced() && Shows(Next(cfg, world, a))
      modifies this
      ensures Valid() && trace == old(trace) + [a]
      ensures world == Next(cfg, old(world), a)
      ensures entryTs == old(entryTs) && ring == old(ring) && old(world.clock) <= world.clock
    {
      UprobeClock.NextClock(cfg, world, a);
      RunConcat(cfg, Loaded(pids), trace, [a]);
      assert Run(cfg, world, [a]) == Next(cfg, world, a);
      world, trace := Next(cfg, world, a), trace + [a];
    }

    // ---- the helper calls ----

    /** bpf_ktime_get_ns in handle_uprobe_pair_entry. */
    method KtimeGetNs(tid: nat, turn: Turn) returns (ts: nat)
      requires Valid() && At(tid, PairClock) && turn.Valid(tid)
      modifies this
      ensures Valid() && trace == old(trace) + turn.others + [StepOf(tid, turn)] && At(tid, PairUpdate(ts))
      ensures old(world.clock) <= ts <= world.clock
    {
      Others(tid, turn.others);
      Ready(tid);
      ts := world.clock;
      Advance(StepOf(tid, turn));
    }

    /** bpf_map_update_elem(&entry_ts, &tid, &ts, BPF_ANY). */
    method UpdateEntry(tid: nat, ts: nat, turn: Turn)
      requires Valid() && At(tid, PairUpdate(ts)) && turn.Valid(tid)
      modifies this
      ensures Valid() && trace == old(trace) + turn.others + [StepOf(tid, turn)] && At(tid, User)
      ensures old(world.clock) <= world.clock && (Kept(tid, ts) || |entryTs.index| >= MAX_ENTRIES)
    {
      Others(tid, turn.others);
      Ready(tid);
      entryTs := entryTs.Update(tid, ts, MAX_ENTRIES);
      Advance(StepOf(tid, turn));
    }

    /** bpf_map_lookup_elem(&entry_ts, &tid). */
    method LookupEntry(tid: nat, call: nat, rc: nat, turn: Turn) returns (start: Option<nat>)
      requires Valid() && At(tid, PairLookup(call, rc)) && turn.Valid(tid)
      modifies this
      ensures tid in world.threads && Pid(tid) == old(Pid(tid))
      ensures Valid() && trace == old(trace) + turn.others + [StepOf(tid, turn)]
      ensures start == old(entryTs.Lookup(tid))
      ensures At(tid, if start.Some? then PairNow(call, rc, start.value) else User)
      ensures old(world.clock) <= world.clock
    {
      Others(tid, turn.others);
      start := entryTs.Lookup(tid);
      Advance(StepOf(tid, turn));
    }

    /** bpf_ktime_get_ns() - *start, on 64 bits. */
    method Since(tid: nat, call: nat, rc: nat, start: nat, turn: Turn)
      returns (latency: nat, ghost now: nat)
      requires Valid() && At(tid, PairNow(call, rc, start)) && turn.Valid(tid)
      modifies this
      ensures tid in world.threads && Pid(tid) == old(Pid(tid))
      ensures Valid() && trace == old(trace) + turn.others + [StepOf(tid, turn)]
      ensures At(tid, PairDelete(call, rc, latency))
      ensures call < |world.threads[tid].calls| && world.threads[tid].calls[call].exited == Some(now)
      ensures old(world.clock) <= now <= world.clock
    {
      Others(tid, turn.others);
      Ready(tid);
      latency := (world.clock - entryTs.cells[start]) % TWO64;
      now := world.clock;
      Advance(StepOf(tid, turn));
    }

    /** bpf_map_delete_elem(&entry_ts, &tid). */
    method DeleteEntry(tid: nat, call: nat, rc: nat, latency: nat, turn: Turn)
      requires Valid() && At(tid, PairDelete(call, rc, latency)) && turn.Valid(tid)
      modifies this
      ensures tid in world.threads && Pid(tid) == old(Pid(tid))
      ensures Valid() && trace == old(trace) + turn.others + [StepOf(tid, turn)]
      ensures At(tid, Reserve(call, Pair(latency, rc))) && old(world.clock) <= world.clock
      ensures world.threads[tid].calls == old(world.threads[tid].calls)
    {
      Others(tid, turn.others);
      entryTs := entryTs.Delete(tid);
      Deleted(cfg, world, tid, turn);
      Advance(StepOf(tid, turn));
    }

    /** bpf_ringbuf_reserve: a record with whatever the memory held, or NULL. */
    method RingbufReserve(tid: nat, call: nat, out: Payload, turn: Turn) returns (e: Option<nat>)
      requires Valid() && At(tid, Reserve(call, out)) && turn.Valid(tid)
      modifies this
      ensures tid in world.threads && Pid(tid) == old(Pid(tid))
      ensures Valid() && trace == old(trace) + turn.others + [StepOf(tid, turn)]
      ensures e.Some? <==> turn.room
      ensures At(tid, if e.Some? then Fill(call, out, e.value) else Drop(call, out))
      ensures e.Some? ==> Reports(tid, call, e.value)
      ensures old(world.clock) <= world.clock && SameTimes(tid, old(world.threads[tid].calls))
    {
      Others(tid, turn.others);
      Ready(tid);
      e := None;
      if turn.room {
        e := Some(|ring|);
        ring := ring + [turn.stale];
      }
      Advance(StepOf(tid, turn));
    }

    /** __sync_fetch_and_add(&drop_count, 1). */
    method CountDrop(tid: nat, call: nat, out: Payload, turn: Turn)
      requires Valid() && At(tid, Drop(call, out)) && turn.Valid(tid)
      modifies this
      ensures Valid() && trace == old(trace) + turn.others + [StepOf(tid, turn)] && At(tid, User)
      ensures Decided(tid, call, false) && SameTimes(tid, old(world.threads[tid].calls))
    {
      Others(tid, turn.others);
      Ready(tid);
      dropCount := dropCount + 1;
      Advance(StepOf(tid, turn));
    }

    /** The stores into the reserved record, in place. */
    method FillEvent(tid: nat, call: nat, out: Payload, e: nat, turn: Turn)
      requires Valid() && At(tid, Fill(call, out, e)) && turn.Valid(tid)
      requires tid < TWO32 && Pid(tid) < TWO32 && cfg.probeId < TWO32
      modifies this
      ensures Valid() && trace == old(trace) + turn.others + [StepOf(tid, turn)] && At(tid, Submit(call, out, e))
      ensures world.threads[tid].calls == old(world.threads[tid].calls) && Pid(tid) == old(Pid(tid)) && e < |ring|
      ensures RecordTells(ring[e], old(world.clock), world.clock, Pid(tid), tid, cfg.probeId, turn.comm, out)
    {
      Others(tid, turn.others);
      Ready(tid);
      var h := Header(world.clock, Pid(tid), tid, cfg.probeId, turn.comm);
      var written := Written(ring[e], h, out);
      RecordFields(ring[e], h, out);
      Filled(cfg, world, tid, turn, h);
      ring := ring[e := written];
      Advance(StepOf(tid, turn));
    }

    /** bpf_ringbuf_submit. */
    method RingbufSubmit(tid: nat, call: nat, out: Payload, e: nat, turn: Turn)
      requires Valid() && At(tid, Submit(call, out, e)) && turn.Valid(tid)
      modifies this
      ensures Valid() && trace == old(trace) + turn.others + [StepOf(tid, turn)] && At(tid, User)
      ensures world.threads[tid].calls == old(world.threads[tid].calls) && Pid(tid) == old(Pid(tid))
      ensures old(world.clock) <= world.clock && e < |ring| && e < old(|ring|) && ring[e] == old(ring)[e]
    {
      Others(tid, turn.others);
      Ready(tid);
      Advance(StepOf(tid, turn));
    }

    // ---- the programs ----

    /** Whether filter_pid lets the process of tid through. */
    predicate Passes(tid: nat)
      requires tid in world.threads
      reads this
    {
      cfg.targetPid == 0 || world.threads[tid].pid == cfg.targetPid
    }

    method FilterPid(tid: nat) returns (filtered: bool)
      requires tid in world.threads
      ensures filtered <==> !Passes(tid)
    {
      if cfg.targetPid == 0 { return false; }
      filtered := world.threads[tid].pid != cfg.targetPid;
    }

    /** How many helper calls emitting an event takes: reserve, fill and submit, or a
        failed reserve and the drop counter. */
    static function EmitSteps(room: bool): nat { if room then 3 else 2 }

    /** reserve_event, then the handler's own stores and the submit. */
    method EmitEvent(tid: nat, call: nat, out: Payload, turns: seq<Turn>, first: nat, ghost start: seq<Action>)
      returns (made: nat)
      requires Valid() && At(tid, Reserve(call, out))
      requires first + 3 == |turns| && trace == start + Steps(tid, turns[..first])
      requires forall turn :: turn in turns ==> turn.Valid(tid)
      requires tid < TWO32 && Pid(tid) < TWO32 && cfg.probeId < TWO32
      modifies this
      ensures Valid() && At(tid, User) && Decided(tid, call, turns[first].room)
      ensures made == first + EmitSteps(turns[first].room) && trace == start + Steps(tid, turns[..made])
      ensures turns[first].room ==> Tells(tid, call, old(world.clock), turns[first + 1].comm, out)
      ensures SameTimes(tid, old(world.threads[tid].calls))
    {
      var e := RingbufReserve(tid, call, out, turns[first]);
      OneMore(start, tid, turns, first);
      if e.None? {
        CountDrop(tid, call, out, turns[first + 1]);
        OneMore(start, tid, turns, first + 1);
        return first + 2;
      }
      WriteEvent(tid, call, out, e.value, turns, first, start);
      return first + 3;
    }

    /** The stores, then the submit. */
    method WriteEvent(tid: nat, call: nat, out: Payload, e: nat, turns: seq<Turn>, first: nat,
                      ghost start: seq<Action>)
      requires Valid() && At(tid, Fill(call, out, e)) && Reports(tid, call, e)
      requires first + 3 == |turns| && trace == start + Steps(tid, turns[..first + 1])
      requires forall turn :: turn in turns ==> turn.Valid(tid)
      requires tid < TWO32 && Pid(tid) < TWO32 && cfg.probeId < TWO32
      modifies this
      ensures Valid() && At(tid, User) && trace == start + Steps(tid, turns[..first + 3])
      ensures Tells(tid, call, old(world.clock), turns[first + 1].comm, out)
      ensures world.threads[tid].calls == old(world.threads[tid].calls)
    {
      FillEvent(tid, call, out, e, turns[first + 1]);
      OneMore(start, tid, turns, first + 1);
      RingbufSubmit(tid, call, out, e, turns[first + 2]);
      OneMore(start, tid, turns, first + 2);
    }

    /** handle_uprobe_entry, when the traced function is called. */
    method HandleUprobeEntry(tid: nat, arg0: nat, arg1: nat, turns: seq<Turn>) returns (made: nat)
      requires Valid() && At(tid, User) && cfg.kind.EntryOnly? && world.entryOn
      requires |turns| == 3 && forall turn :: turn in turns ==> turn.Valid(tid)
      requires tid < TWO32 && Pid(tid) < TWO32 && cfg.probeId < TWO32
      modifies this
      ensures Valid() && At(tid, User)
      ensures made == if old(Passes(tid)) then EmitSteps(turns[0].room) else 0
      ensures trace == old(trace) + [FnEnter(tid, arg0, arg1)] + Steps(tid, turns[..made])
      ensures old(Passes(tid)) ==> Decided(tid, old(|world.threads[tid].calls|), turns[0].room)
      ensures made == 3 ==>
        Tells(tid, old(|world.threads[tid].calls|), old(world.clock), turns[1].comm,
              Args(arg0 % TWO64, arg1 % TWO64))
    {
      ghost var start := trace + [FnEnter(tid, arg0, arg1)];
      NoneYet(start, tid, turns);
      var call := |world.threads[tid].calls|;
      var filtered := FilterPid(tid);
      Advance(FnEnter(tid, arg0, arg1));
      if filtered { return 0; }
      made := EmitEvent(tid, call, Args(arg0 % TWO64, arg1 % TWO64), turns, 0, start);
    }

    /** handle_uprobe_pair_entry, when the traced function is called. */
    method HandleUprobePairEntry(tid: nat, arg0: nat, arg1: nat, turns: seq<Turn>)
      returns (made: nat, ts: nat)
      requires Valid() && At(tid, User) && cfg.kind.EntryExit? && world.entryOn
      requires |turns| == 2 && forall turn :: turn in turns ==> turn.Valid(tid)
      modifies this
      ensures Valid() && At(tid, User)
      ensures made == if old(Passes(tid)) then 2 else 0
      ensures trace == old(trace) + [FnEnter(tid, arg0, arg1)] + Steps(tid, turns[..made])
      ensures made == 2 ==>
        old(world.clock) <= ts <= world.clock && (Kept(tid, ts) || |entryTs.index| >= MAX_ENTRIES)
    {
      ts := 0;
      ghost var start := trace + [FnEnter(tid, arg0, arg1)];
      NoneYet(start, tid, turns);
      var filtered := FilterPid(tid);
      Advance(FnEnter(tid, arg0, arg1));
      if filtered { return 0, ts; }
      ts := KtimeGetNs(tid, turns[0]);
      OneMore(start, tid, turns, 0);
      UpdateEntry(tid, ts, turns[1]);
      OneMore(start, tid, turns, 1);
      made := 2;
    }

    /** The innermost open call of tid will have its return caught. */
    predicate Returns(tid: nat)
      reads this
    {
      && At(tid, User) && var th := world.threads[tid];
      && th.stack != [] && Top(th) < |th.calls| && th.calls[Top(th)].hooked
    }

    /** handle_uprobe_pair_exit, when the traced function returns. */
    method HandleUprobePairExit(tid: nat, rc: nat, turns: seq<Turn>) returns (made: nat)
      requires Valid() && Returns(tid) && cfg.kind.EntryExit?
      requires |turns| == 6 && forall turn :: turn in turns ==> turn.Valid(tid)
      requires tid < TWO32 && Pid(tid) < TWO32 && cfg.probeId < TWO32
      modifies this
      ensures Valid() && At(tid, User)
      ensures made == if !old(Passes(tid)) then 0
                      else if tid !in old(entryTs.index) then 1 else 3 + EmitSteps(turns[3].room)
      ensures trace == old(trace) + [FnExit(tid, rc)] + Steps(tid, turns[..made])
      ensures made > 1 ==> Decided(tid, old(Top(world.threads[tid])), turns[3].room)
      ensures made == 6 ==>
        TellsPair(tid, old(Top(world.threads[tid])), old(world.clock), turns[4].comm, rc % TWO64)
    {
      ghost var start := trace + [FnExit(tid, rc)];
      NoneYet(start, tid, turns);
      var call := Top(world.threads[tid]);
      var filtered := FilterPid(tid);
      Advance(FnExit(tid, rc));
      if filtered { return 0; }
      var entry := LookupEntry(tid, call, rc % TWO64, turns[0]);
      OneMore(start, tid, turns, 0);
      if entry.None? { return 1; }
      made := FinishPair(tid, call, rc % TWO64, entry.value, turns, start);
    }

    /** handle_uprobe_pair_exit from the clock reading on. */
    method FinishPair(tid: nat, call: nat, rc: nat, cell: nat, turns: seq<Turn>, ghost start: seq<Action>)
      returns (made: nat)
      requires |turns| == 6 && forall turn :: turn in turns ==> turn.Valid(tid)
      requires cfg.kind.EntryExit? && Valid() && At(tid, PairNow(call, rc, cell))
      requires trace == start + Steps(tid, turns[..1])
      requires tid < TWO32 && Pid(tid) < TWO32 && cfg.probeId < TWO32
      modifies this
      ensures Valid() && At(tid, User) && Decided(tid, call, turns[3].room)
      ensures made == 3 + EmitSteps(turns[3].room) && trace == start + Steps(tid, turns[..made])
      ensures turns[3].room ==> TellsPair(tid, call, old(world.clock), turns[4].comm, rc)
    {
      var latency, now := Since(tid, call, rc, cell, turns[1]);
      OneMore(start, tid, turns, 1);
      DeleteEntry(tid, call, rc, latency, turns[2]);
      OneMore(start, tid, turns, 2);
      EmitPair(tid, call, latency, rc, now, turns, start);
      made := 3 + EmitSteps(turns[3].room);
    }

    /** The event of handle_uprobe_pair_exit. */
    method EmitPair(tid: nat, call: nat, latency: nat, rc: nat, ghost now: nat, turns: seq<Turn>,
                    ghost start: seq<Action>)
      requires |turns| == 6 && forall turn :: turn in turns ==> turn.Valid(tid)
      requires cfg.kind.EntryExit? && Valid() && At(tid, Reserve(call, Pair(latency, rc)))
      requires trace == start + Steps(tid, turns[..3]) && call < |world.threads[tid].calls|
      requires world.threads[tid].calls[call].exited == Some(now) && now <= world.clock
      requires tid < TWO32 && Pid(tid) < TWO32 && cfg.probeId < TWO32
      modifies this
      ensures Valid() && At(tid, User) && Decided(tid, call, turns[3].room)
      ensures trace == start + Steps(tid, turns[..3 + EmitSteps(turns[3].room)])
      ensures turns[3].room ==> TellsPair(tid, call, now, turns[4].comm, rc)
      ensures world.threads[tid].calls[call].exited == Some(now)
    {
      ghost var before := world.clock;
      var made := EmitEvent(tid, call, Pair(latency, rc), turns, 3, start);
      if turns[3].room { PairTold(tid, call, before, turns[4].comm, latency, rc, now); }
    }

    /** The record in the slot of this call tells its return value and its own duration:
        from the clock reading at its entry to one made since lo. */
    ghost predicate TellsPair(tid: nat, call: nat, lo: nat, comm: seq<byte>, rc: nat)
      reads this
    {
      && tid in world.threads && call < |world.threads[tid].calls|
      && var c := world.threads[tid].calls[call];
      && c.entered.Some? && c.exited.Some? && c.entered.value <= c.exited.value
      && lo <= c.exited.value <= world.clock
      && Tells(tid, call, lo, comm, Pair(c.exited.value - c.entered.value, rc))
    }

    lemma PairTold(tid: nat, call: nat, lo: nat, comm: seq<byte>, latency: nat, rc: nat, now: nat)
      requires Valid() && At(tid, User) && cfg.kind.EntryExit? && Tells(tid, call, lo, comm, Pair(latency, rc))
      requires world.threads[tid].calls[call].exited == Some(now) && now <= lo <= world.clock
      ensures TellsPair(tid, call, now, comm, rc)
    {
      var k: nat :| Reports(tid, call, k) &&
        RecordTells(ring[k], lo, world.clock, Pid(tid), tid, cfg.probeId, comm, Pair(latency, rc));
      PairLatency(cfg, pids, trace, tid, call, k);
    }

    /** handle_uretprobe_only, when the traced function returns. */
    method HandleUretprobeOnly(tid: nat, rc: nat, turns: seq<Turn>) returns (made: nat)
      requires Valid() && Returns(tid) && cfg.kind.ReturnOnly?
      requires |turns| == 3 && forall turn :: turn in turns ==> turn.Valid(tid)
      requires tid < TWO32 && Pid(tid) < TWO32 && cfg.probeId < TWO32
      modifies this
      ensures Valid() && At(tid, User)
      ensures made == if old(Passes(tid)) then EmitSteps(turns[0].room) else 0
      ensures trace == old(trace) + [FnExit(tid, rc)] + Steps(tid, turns[..made])
      ensures old(Passes(tid)) ==> Decided(tid, old(Top(world.threads[tid])), turns[0].room)
      ensures made == 3 ==>
        Tells(tid, old(Top(world.threads[tid])), old(world.clock), turns[1].comm, Return(rc % TWO64))
    {
      ghost var start := trace + [FnExit(tid, rc)];
      NoneYet(start, tid, turns);
      var call := Top(world.threads[tid]);
      var filtered := FilterPid(tid);
      Advance(FnExit(tid, rc));
      if filtered { return 0; }
      made := EmitEvent(tid, call, Return(rc % TWO64), turns, 0, start);
    }

    /** At any moment every attempted event is submitted, in drop_count, or in the
        hands of a handler. */
    lemma Accounts()
      requires Valid()
      ensures world.attempts == UprobeResults.Committed(world.ring) + dropCount
                                + Pool.Count(world.threads, UprobeResults.InFlight())
                                + Pool.Count(world.threads, UprobeResults.Dropping())
      ensures |entryTs.index| <= MAX_ENTRIES
    {
      UprobeResults.RingAccounting(cfg, pids, trace);
    }
  }
}
