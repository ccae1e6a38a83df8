/** What uprobe tracing guarantees over every run: which call an event is about,
    which calls get one, where every attempted event is, and what the consumer
    prints. */
module UprobeResults {
  import opened Bpf
  import opened Wire
  import opened UprobeWire
  import opened Uprobe
  import opened UprobePairing
  import Pool

  // ---- events and calls ----

  /** Each event of a paired probe belongs to a leaf call (no traced call began
      inside it) and carries that call's own duration and its own return value,
      however calls recurse and threads interleave. No other event names that call. */
  lemma EventsAreLeaves(cfg: Config, pids: map<nat, nat>, schedule: seq<Action>, k: nat)
    requires cfg.kind.EntryExit? && k < |Run(cfg, Loaded(pids), schedule).ring|
    ensures var s := Run(cfg, Loaded(pids), schedule); var x := s.ring[k];
      && x.tid in s.threads && x.call < |s.threads[x.tid].calls|
      && var c := s.threads[x.tid].calls[x.call];
      && !c.inner && c.entered.Some? && c.exited.Some? && c.rc.Some? && c.entered.value <= c.exited.value
      && x.out == Pair(c.exited.value - c.entered.value, c.rc.value)
      && forall j :: 0 <= j < |s.ring| && s.ring[j].tid == x.tid && s.ring[j].call == x.call ==> j == k
  {
    Reached(cfg, pids, schedule);
    var s := Run(cfg, Loaded(pids), schedule);
    assert SlotOk(cfg, s, k);
    forall j | 0 <= j < |s.ring| && s.ring[j].tid == s.ring[k].tid && s.ring[j].call == s.ring[k].call
      ensures j == k
    {
      assert SlotOk(cfg, s, j);
    }
  }

  /** No record in the ring is about call c of thread t. */
  ghost predicate NoRecord(s: State, t: nat, c: nat) {
    forall k :: 0 <= k < |s.ring| ==> s.ring[k].tid != t || s.ring[k].call != c
  }

  /** Exactly one record is about call c of thread t, and it is the one the call names. */
  ghost predicate OneRecord(s: State, t: nat, c: nat)
    requires t in s.threads && c < |s.threads[t].calls|
  {
    var o := s.threads[t].calls[c].outcome;
    && o.Reported? && o.slot < |s.ring|
    && forall k :: 0 <= k < |s.ring| ==> (s.ring[k].tid == t && s.ring[k].call == c <==> k == o.slot)
  }

  lemma UnreportedHasNoRecord(cfg: Config, s: State, t: nat, c: nat)
    requires Inv(cfg, s) && t in s.threads && c < |s.threads[t].calls| && !s.threads[t].calls[c].outcome.Reported?
    ensures NoRecord(s, t, c)
  {
    forall k | 0 <= k < |s.ring| ensures s.ring[k].tid != t || s.ring[k].call != c {
      assert SlotOk(cfg, s, k);
    }
  }

  lemma ReportedHasOneRecord(cfg: Config, s: State, t: nat, c: nat)
    requires Inv(cfg, s) && t in s.threads && Named(s, t)
    requires c < |s.threads[t].calls| && s.threads[t].calls[c].outcome.Reported?
    ensures OneRecord(s, t, c)
  {
    forall k | 0 <= k < |s.ring| && s.ring[k].tid == t && s.ring[k].call == c
      ensures k == s.threads[t].calls[c].outcome.slot
    {
      assert SlotOk(cfg, s, k);
    }
  }

  /** What a finished call whose return was caught must show: no record if another
      traced call began inside it or its insert was refused; otherwise one record, or
      a counted drop and none. */
  ghost predicate Accounted(s: State, t: nat, c: nat)
    requires t in s.threads && c < |s.threads[t].calls|
  {
    var call := s.threads[t].calls[c];
    if call.inner || call.insert.Refused? then call.outcome.Silent? && NoRecord(s, t, c)
    else call.insert.Stored? && (OneRecord(s, t, c) || (call.outcome.Dropped? && NoRecord(s, t, c)))
  }

  lemma CallAccounted(cfg: Config, s: State, t: nat, c: nat)
    requires Inv(cfg, s) && AllNamed(s) && cfg.kind.EntryExit? && t in s.threads
    requires Finished(s.threads[t], c) && s.threads[t].calls[c].hooked && Admits(cfg, s.threads[t].pid)
    ensures Accounted(s, t, c)
  {
    ThreadReady(cfg, s, t);
    assert Fate(cfg, s.threads[t], c) && Named(s, t);
    if s.threads[t].calls[c].outcome.Reported? {
      ReportedHasOneRecord(cfg, s, t, c);
    } else {
      UnreportedHasNoRecord(cfg, s, t, c);
    }
  }

  /** A finished leaf call is reported by one event unless its insert was refused or
      the ring was full; a call with traced calls inside it is never reported. */
  lemma LeavesAreReported(cfg: Config, pids: map<nat, nat>, schedule: seq<Action>, t: nat, c: nat)
    requires var s := Run(cfg, Loaded(pids), schedule);
      && cfg.kind.EntryExit? && t in s.threads && Finished(s.threads[t], c)
      && s.threads[t].calls[c].hooked && (cfg.targetPid == 0 || s.threads[t].pid == cfg.targetPid)
    ensures Accounted(Run(cfg, Loaded(pids), schedule), t, c)
  {
    Reached(cfg, pids, schedule);
    NamedRun(cfg, Loaded(pids), schedule);
    CallAccounted(cfg, Run(cfg, Loaded(pids), schedule), t, c);
  }

  /** The single-ended probes emit one event, or count one drop and emit none, for each
      call they see, recursive or not. */
  lemma SingleEndedEvents(cfg: Config, pids: map<nat, nat>, schedule: seq<Action>, t: nat, c: nat)
    requires var s := Run(cfg, Loaded(pids), schedule);
      && !cfg.kind.EntryExit? && t in s.threads && Finished(s.threads[t], c)
      && (cfg.targetPid == 0 || s.threads[t].pid == cfg.targetPid)
      && (if cfg.kind.EntryOnly? then s.threads[t].calls[c].seen else s.threads[t].calls[c].hooked)
    ensures var s := Run(cfg, Loaded(pids), schedule);
      OneRecord(s, t, c) || (s.threads[t].calls[c].outcome.Dropped? && NoRecord(s, t, c))
  {
    Reached(cfg, pids, schedule);
    NamedRun(cfg, Loaded(pids), schedule);
    var s := Run(cfg, Loaded(pids), schedule);
    ThreadReady(cfg, s, t);
    assert Fate(cfg, s.threads[t], c) && Named(s, t);
    if s.threads[t].calls[c].outcome.Reported? {
      ReportedHasOneRecord(cfg, s, t, c);
    } else {
      UnreportedHasNoRecord(cfg, s, t, c);
    }
  }

  /** And every record of theirs is about a call the probe saw, carries that call's own
      arguments or return value, and is the only record about it. */
  lemma SingleEndedRecords(cfg: Config, pids: map<nat, nat>, schedule: seq<Action>, k: nat)
    requires !cfg.kind.EntryExit? && k < |Run(cfg, Loaded(pids), schedule).ring|
    ensures var s := Run(cfg, Loaded(pids), schedule); var x := s.ring[k];
      && x.tid in s.threads && x.call < |s.threads[x.tid].calls|
      && var c := s.threads[x.tid].calls[x.call];
      && (cfg.kind.EntryOnly? ==> c.seen && x.out == Args(c.arg0, c.arg1))
      && (cfg.kind.ReturnOnly? ==> c.hooked && c.rc.Some? && x.out == Return(c.rc.value))
      && OneRecord(s, x.tid, x.call)
  {
    Reached(cfg, pids, schedule);
    NamedRun(cfg, Loaded(pids), schedule);
    var s := Run(cfg, Loaded(pids), schedule);
    assert SlotOk(cfg, s, k);
    ReportedHasOneRecord(cfg, s, s.ring[k].tid, s.ring[k].call);
  }

  /** By the time a paired exit asks for ring space its timestamp is gone, so no later
      exit can use it, whether the event is then dropped or not. */
  lemma ClearedBeforeReserve(cfg: Config, pids: map<nat, nat>, schedule: seq<Action>, t: nat)
    requires var s := Run(cfg, Loaded(pids), schedule); t in s.threads && s.threads[t].pc.Emitting()
    ensures t !in Run(cfg, Loaded(pids), schedule).entryTs.index
  {
    Reached(cfg, pids, schedule);
    ThreadReady(cfg, Run(cfg, Loaded(pids), schedule), t);
  }

  // ---- ring and drop accounting ----

  function Committed(ring: seq<Slot>): nat {
    if ring == [] then 0
    else Committed(ring[..|ring| - 1]) + if ring[|ring| - 1].committed then 1 else 0
  }

  lemma {:induction false} CommitOne(ring: seq<Slot>, k: nat, x: Slot)
    requires k < |ring|
    ensures Committed(ring[k := x])
         == Committed(ring) - (if ring[k].committed then 1 else 0) + (if x.committed then 1 else 0)
  {
    var n := |ring| - 1;
    if k == n {
      assert ring[k := x][..n] == ring[..n];
    } else {
      assert ring[k := x][..n] == ring[..n][k := x];
      CommitOne(ring[..n], k, x);
    }
  }

  function InFlight(): Thread -> bool { (th: Thread) => th.pc.InFlight() }
  function Dropping(): Thread -> bool { (th: Thread) => th.pc.Drop? }

  ghost predicate Books(s: State) {
    && |s.ring| == Committed(s.ring) + Pool.Count(s.threads, InFlight())
    && s.attempts == |s.ring| + s.dropCount + Pool.Count(s.threads, Dropping())
  }

  /** Thread t moved to `th`, and the counters moved with it. */
  lemma Settle(s: State, s': State, t: nat, th: Thread)
    requires Books(s) && t in s.threads && s'.threads == s.threads[t := th]
    requires |s'.ring| - Committed(s'.ring) - (if th.pc.InFlight() then 1 else 0)
          == |s.ring| - Committed(s.ring) - (if s.threads[t].pc.InFlight() then 1 else 0)
    requires s'.attempts - |s'.ring| - s'.dropCount - (if th.pc.Drop? then 1 else 0)
          == s.attempts - |s.ring| - s.dropCount - (if s.threads[t].pc.Drop? then 1 else 0)
    ensures Books(s')
  {
    Pool.Moved(s.threads, t, th, InFlight());
    Pool.Moved(s.threads, t, th, Dropping());
  }

  lemma ReserveSettles(s: State, t: nat, call: nat, out: Payload, room: bool, stale: seq<byte>)
    requires Books(s) && t in s.threads && call < |s.threads[t].calls| && s.threads[t].pc.Reserve?
    ensures Books(ReserveSlot(s, t, call, out, room, stale))
  {
    var s' := ReserveSlot(s, t, call, out, room, stale);
    if room { assert s'.ring[..|s.ring|] == s.ring; }
    Settle(s, s', t, s'.threads[t]);
  }

  lemma FillSettles(cfg: Config, s: State, t: nat, comm: seq<byte>)
    requires Books(s) && t in s.threads && s.threads[t].pc.Fill? && s.threads[t].pc.slot < |s.ring|
    ensures Books(FillSlot(cfg, s, t, s.threads[t].pc, comm))
  {
    var k := s.threads[t].pc.slot;
    var s' := FillSlot(cfg, s, t, s.threads[t].pc, comm);
    if s' != s {
      CommitOne(s.ring, k, s'.ring[k]);
      Settle(s, s', t, s'.threads[t]);
    }
  }

  lemma CommitSettles(s: State, t: nat)
    requires Books(s) && t in s.threads && s.threads[t].pc.Submit? && s.threads[t].pc.slot < |s.ring|
    requires !s.ring[s.threads[t].pc.slot].committed
    ensures Books(CommitSlot(s, t, s.threads[t].pc.slot))
  {
    var k := s.threads[t].pc.slot;
    CommitOne(s.ring, k, s.ring[k].(committed := true));
    Settle(s, CommitSlot(s, t, k), t, s.threads[t].(pc := User));
  }

  lemma CallSettles(cfg: Config, s: State, a: Action)
    requires Books(s) && (a.FnEnter? || a.FnExit?) && a.tid in s.threads
    ensures Books(Next(cfg, s, a))
  {
    var s' := Next(cfg, s, a);
    if s' != s { Settle(s, s', a.tid, s'.threads[a.tid]); }
  }

  lemma MatchingLeavesRing(cfg: Config, s: State, a: Action)
    requires a.Step? && a.tid in s.threads && !s.threads[a.tid].pc.Emitting()
    ensures var s' := Next(cfg, s, a);
      && s'.ring == s.ring && s'.attempts == s.attempts && s'.dropCount == s.dropCount
      && a.tid in s'.threads && !s'.threads[a.tid].pc.InFlight() && !s'.threads[a.tid].pc.Drop?
  {
  }

  lemma MatchingSettles(cfg: Config, s: State, a: Action)
    requires Books(s) && a.Step? && a.tid in s.threads && !s.threads[a.tid].pc.Emitting()
    ensures Books(Next(cfg, s, a))
  {
    var s' := Next(cfg, s, a);
    MatchingOneThread(cfg, s, a);
    MatchingLeavesRing(cfg, s, a);
    Settle(s, s', a.tid, s'.threads[a.tid]);
  }

  lemma DropSettles(cfg: Config, s: State, a: Action)
    requires Books(s) && a.Step? && a.tid in s.threads && s.threads[a.tid].pc.Drop?
    ensures Books(Next(cfg, s, a))
  {
    var s' := Next(cfg, s, a);
    if s' != s { Settle(s, s', a.tid, s'.threads[a.tid]); }
  }

  lemma StepSettles(cfg: Config, s: State, a: Action)
    requires a.Step? && a.tid in s.threads && Holds(s, a.tid) && Books(s)
    ensures Books(Next(cfg, s, a))
  {
    var pc := s.threads[a.tid].pc;
    if !pc.Emitting() { MatchingSettles(cfg, s, a); }
    else if pc.Drop? { DropSettles(cfg, s, a); }
    else { EmitSettles(cfg, s, a); }
  }

  lemma EmitSettles(cfg: Config, s: State, a: Action)
    requires a.Step? && a.tid in s.threads && Holds(s, a.tid) && Books(s)
    requires s.threads[a.tid].pc.Emitting() && !s.threads[a.tid].pc.Drop?
    ensures Books(Next(cfg, s, a))
  {
    var pc := s.threads[a.tid].pc;
    if pc.Fill? { FillSettles(cfg, s, a.tid, a.comm); }
    else if pc.Submit? { CommitSettles(s, a.tid); }
    else if pc.call < |s.threads[a.tid].calls| { ReserveSettles(s, a.tid, pc.call, pc.out, a.room, a.stale); }
  }

  lemma NextSettles(cfg: Config, s: State, a: Action)
    requires Inv(cfg, s) && Books(s)
    ensures Books(Next(cfg, s, a))
  {
    if (a.FnEnter? || a.FnExit? || a.Step?) && a.tid in s.threads {
      ThreadReady(cfg, s, a.tid);
      ThreadSettles(cfg, s, a);
    } else {
      NobodyMoves(cfg, s, a);
      SameBooks(s, Next(cfg, s, a));
    }
  }

  lemma ThreadSettles(cfg: Config, s: State, a: Action)
    requires (a.FnEnter? || a.FnExit? || a.Step?) && a.tid in s.threads && Holds(s, a.tid) && Books(s)
    ensures Books(Next(cfg, s, a))
  {
    if a.Step? { StepSettles(cfg, s, a); } else { CallSettles(cfg, s, a); }
  }

  lemma SameBooks(s: State, s': State)
    requires Books(s) && s'.threads == s.threads && s'.ring == s.ring
    requires s'.attempts == s.attempts && s'.dropCount == s.dropCount
    ensures Books(s')
  {
  }

  lemma {:induction false} RunSettles(cfg: Config, s: State, schedule: seq<Action>)
    requires Inv(cfg, s) && Books(s)
    ensures Inv(cfg, Run(cfg, s, schedule)) && Books(Run(cfg, s, schedule))
    decreases schedule
  {
    if schedule == [] {
    } else {
      NextKeeps(cfg, s, schedule[0]);
      NextSettles(cfg, s, schedule[0]);
      RunSettles(cfg, Next(cfg, s, schedule[0]), schedule[1..]);
    }
  }

  /** In every reachable state of every uprobe program, each attempted event is
      submitted, counted in drop_count, reserved by a thread still filling it, or
      about to be counted. */
  lemma RingAccounting(cfg: Config, pids: map<nat, nat>, schedule: seq<Action>)
    ensures var s := Run(cfg, Loaded(pids), schedule);
      && s.attempts == Committed(s.ring) + s.dropCount
                       + Pool.Count(s.threads, InFlight()) + Pool.Count(s.threads, Dropping())
      && s.consumed <= |s.ring| && |s.entryTs.index| <= MAX_ENTRIES
  {
    LoadedInv(cfg, pids);
    Pool.Nobody(Loaded(pids).threads, InFlight());
    Pool.Nobody(Loaded(pids).threads, Dropping());
    RunSettles(cfg, Loaded(pids), schedule);
  }

  // ---- the consumer of trace.go ----

  /** The probe id runUprobeTrace gives each kind of probe. */
  function ProbeIdOf(kind: Kind): nat {
    match kind
    case EntryOnly => PROBE_ID_UPROBE_ENTRY
    case EntryExit => PROBE_ID_UPROBE_PAIR
    case ReturnOnly => PROBE_ID_URETPROBE
  }

  /** A printed line: what is substituted into its format, None for a nil field. */
  datatype Line =
    | PairLine(tag: string, pid: nat, latency: Option<Value>, retval: Option<Value>)
    | ReturnLine(tag: string, pid: nat, retval: Option<Value>)
    | EntryLine(tag: string, pid: nat, comm: Option<Value>, arg0: Option<Value>, arg1: Option<Value>)

  function Field(e: Event, name: string): Option<Value> {
    if name in e.fields then Some(e.fields[name]) else None
  }

  function LineOf(kind: Kind, e: Event): Line {
    match kind
    case EntryExit => PairLine(e.tag, e.pid, Field(e, "latency_ns"), Field(e, "retval"))
    case ReturnOnly => ReturnLine(e.tag, e.pid, Field(e, "retval"))
    case EntryOnly => EntryLine(e.tag, e.pid, Field(e, "comm"), Field(e, "arg0"), Field(e, "arg1"))
  }

  /** The line a record is printed as, if it decodes. */
  function Printed(kind: Kind, record: seq<byte>): seq<Line> {
    var ev := Parsed(record);
    if ev.Some? then [LineOf(kind, ev.value)] else []
  }

  /** What a stream of records comes out as, printed one after the other. */
  function Output(show: seq<byte> -> seq<Line>, records: seq<seq<byte>>): seq<Line> {
    if records == [] then []
    else Output(show, records[..|records| - 1]) + show(records[|records| - 1])
  }

  function Printer(kind: Kind): seq<byte> -> seq<Line> {
    (record: seq<byte>) => Printed(kind, record)
  }

  /** The lines for a stream of records: those that do not decode are skipped. */
  function Lines(kind: Kind, records: seq<seq<byte>>): seq<Line> {
    Output(Printer(kind), records)
  }

  /** The read loop of runUprobeTrace. */
  method RunUprobeTrace(kind: Kind, records: seq<seq<byte>>) returns (count: nat, lines: seq<Line>)
    ensures lines == Lines(kind, records) && count == |lines|
  {
    count, lines := 0, [];
    for i := 0 to |records|
      invariant lines == Lines(kind, records[..i]) && count == |lines|
    {
      assert records[..i + 1][..i] == records[..i];
      var ev := ParseUprobeEvent(records[i]);
      if ev.None? { continue; }
      count := count + 1;
      lines := lines + [LineOf(kind, ev.value)];
    }
    assert records[..|records|] == records;
  }

  /** The records the consumer has read so far, in ring order. */
  function Delivered(s: State): seq<seq<byte>>
    requires s.consumed <= |s.ring|
  {
    seq(s.consumed, k requires 0 <= k < s.consumed => s.ring[k].raw)
  }

  lemma {:induction false} LineAt(show: seq<byte> -> seq<Line>, records: seq<seq<byte>>, k: nat)
    requires forall i :: 0 <= i < |records| ==> |show(records[i])| == 1
    ensures |Output(show, records)| == |records|
    ensures k < |records| ==> [Output(show, records)[k]] == show(records[k])
  {
    if records != [] {
      var n := |records| - 1;
      assert k < n ==> records[..n][k] == records[k];
      LineAt(show, records[..n], k);
    }
  }

  /** A record of 120 bytes or more is printed as one line of the fields at their offsets,
      a zero duration or return value as nil; a shorter record is not printed. */
  lemma PrintedFields(kind: Kind, raw: seq<byte>)
    ensures |raw| < 120 ==> Printed(kind, raw) == []
    ensures |raw| >= 120 ==>
      var id, pid := U32At(raw, 36), U32At(raw, 8);
      var tag := if id == 11 then "UPROBE_PAIR" else if id == 12 then "URETPROBE" else "UPROBE";
      var latency := if U64At(raw, 28) == 0 then None else Some(Unsigned(U64At(raw, 28)));
      var retval := if U64At(raw, 20) == 0 then None else Some(Signed64(Signed(U64At(raw, 20))));
      var other := id == 11 || id == 12;
      && (kind.EntryExit? ==> Printed(kind, raw) == [PairLine(tag, pid, latency, retval)])
      && (kind.ReturnOnly? ==> Printed(kind, raw) == [ReturnLine(tag, pid, retval)])
      && var comm := Some(Text(CString(Get(raw, 40, 16))));
      && var arg0 := if other then None else Some(Unsigned(U64At(raw, 56)));
      && var arg1 := if other then None else Some(Unsigned(U64At(raw, 64)));
      && (kind.EntryOnly? ==> Printed(kind, raw) == [EntryLine(tag, pid, comm, arg0, arg1)])
  {
    if |raw| >= 120 {
      LittleEndian(raw, 20);
      var e := Parsed(raw).value;
      FieldsTell(CString(Get(raw, 40, 16)), U64At(raw, 28), Signed(U64At(raw, 20)), e.tag == "UPROBE",
                 U64At(raw, 56), U64At(raw, 64));
      assert Printed(kind, raw) == [LineOf(kind, e)];
    }
  }

  /** The line a call's event deserves: the process id and comm of its header, and the
      duration, return value or arguments it was given. */
  ghost predicate Says(line: Line, h: Header, out: Payload) {
    match out
    case Pair(latency, rc) =>
      line == PairLine("UPROBE_PAIR", h.pid, if latency == 0 then None else Some(Unsigned(latency)),
                       if rc == 0 then None else Some(Signed64(Signed(rc))))
    case Return(rc) =>
      line == ReturnLine("URETPROBE", h.pid, if rc == 0 then None else Some(Signed64(Signed(rc))))
    case Args(arg0, arg1) =>
      line == EntryLine("UPROBE", h.pid, Some(Text(CString(h.comm))), Some(Unsigned(arg0)), Some(Unsigned(arg1)))
  }

  /** In every reachable state the consumer's count equals the number of records it
      has read, and its k-th line tells exactly what the k-th reserved event was
      given: nothing it read was undecodable, out of order or stale. */
  lemma ConsumerTells(cfg: Config, pids: map<nat, nat>, schedule: seq<Action>)
    requires cfg.probeId == ProbeIdOf(cfg.kind)
    ensures var s := Run(cfg, Loaded(pids), schedule);
      && s.consumed <= |s.ring| && |Lines(cfg.kind, Delivered(s))| == s.consumed
      && forall k :: 0 <= k < s.consumed ==>
           && s.ring[k].header.Some? && s.ring[k].header.value.tid == s.ring[k].tid
           && s.ring[k].tid in s.threads && s.ring[k].header.value.pid == s.threads[s.ring[k].tid].pid
           && Says(Lines(cfg.kind, Delivered(s))[k], s.ring[k].header.value, s.ring[k].out)
           && (match cfg.kind
               case EntryExit => s.ring[k].out.Pair?
               case ReturnOnly => s.ring[k].out.Return?
               case EntryOnly => s.ring[k].out.Args?)
  {
    Reached(cfg, pids, schedule);
    var s := Run(cfg, Loaded(pids), schedule);
    forall k | 0 <= k < s.consumed
      ensures Printing(cfg.kind, s.ring[k])
      ensures s.ring[k].tid in s.threads && s.ring[k].header.value.pid == s.threads[s.ring[k].tid].pid
      ensures s.ring[k].header.value.tid == s.ring[k].tid
    {
      assert SlotOk(cfg, s, k);
      SlotPrints(cfg, s, k);
    }
    LinesSay(cfg.kind, s);
  }

  lemma LinesSay(kind: Kind, s: State)
    requires s.consumed <= |s.ring| && forall k :: 0 <= k < s.consumed ==> Printing(kind, s.ring[k])
    ensures |Lines(kind, Delivered(s))| == s.consumed
    ensures forall k :: 0 <= k < s.consumed ==>
      s.ring[k].header.Some? && Says(Lines(kind, Delivered(s))[k], s.ring[k].header.value, s.ring[k].out)
  {
    var records, show := Delivered(s), Printer(kind);
    assert forall k :: 0 <= k < |records| ==>
      Printing(kind, s.ring[k]) && show(records[k]) == Printed(kind, s.ring[k].raw);
    LineAt(show, records, 0);
    forall k | 0 <= k < |records|
      ensures s.ring[k].header.Some? && Says(Lines(kind, records)[k], s.ring[k].header.value, s.ring[k].out)
    {
      assert Printing(kind, s.ring[k]);
      LineAt(show, records, k);
    }
  }

  /** The record of a slot is printed as the one line its event deserves. */
  ghost predicate Printing(kind: Kind, x: Slot) {
    && x.header.Some?
    && (match kind case EntryExit => x.out.Pair? case ReturnOnly => x.out.Return? case EntryOnly => x.out.Args?)
    && |Printed(kind, x.raw)| == 1 && Says(Printed(kind, x.raw)[0], x.header.value, x.out)
  }

  lemma SlotPrints(cfg: Config, s: State, k: nat)
    requires k < |s.ring| && SlotOk(cfg, s, k) && s.ring[k].committed && cfg.probeId == ProbeIdOf(cfg.kind)
    ensures Printing(cfg.kind, s.ring[k])
  {
    var x := s.ring[k];
    RecordFields(x.stale, x.header.value, x.out);
    PrintedFields(cfg.kind, x.raw);
  }

  /** So each line of a paired probe shows one leaf call: the process id of the thread
      that made it, the time between its own two clock readings, and its own return
      value. No other record, and so no other line, is about that call. */
  lemma PairLinesTellCalls(cfg: Config, pids: map<nat, nat>, schedule: seq<Action>, k: nat)
    requires cfg.kind.EntryExit? && cfg.probeId == PROBE_ID_UPROBE_PAIR
    requires k < Run(cfg, Loaded(pids), schedule).consumed
    ensures var s := Run(cfg, Loaded(pids), schedule);
      && s.consumed <= |s.ring| && k < |Lines(cfg.kind, Delivered(s))|
      && var x := s.ring[k];
      && x.tid in s.threads && x.call < |s.threads[x.tid].calls|
      && var c := s.threads[x.tid].calls[x.call];
      && !c.inner && c.entered.Some? && c.exited.Some? && c.rc.Some? && c.entered.value <= c.exited.value
      && var latency, rc := c.exited.value - c.entered.value, c.rc.value;
      && Lines(cfg.kind, Delivered(s))[k] ==
           PairLine("UPROBE_PAIR", s.threads[x.tid].pid, if latency == 0 then None else Some(Unsigned(latency)),
                    if rc == 0 then None else Some(Signed64(Signed(rc))))
      && forall j :: 0 <= j < |s.ring| && s.ring[j].tid == x.tid && s.ring[j].call == x.call ==> j == k
  {
    LineTells(cfg, pids, schedule, k);
    EventsAreLeaves(cfg, pids, schedule, k);
  }

  /** ConsumerTells for one line. */
  lemma LineTells(cfg: Config, pids: map<nat, nat>, schedule: seq<Action>, k: nat)
    requires cfg.probeId == ProbeIdOf(cfg.kind) && k < Run(cfg, Loaded(pids), schedule).consumed
    ensures var s := Run(cfg, Loaded(pids), schedule);
      && s.consumed <= |s.ring| && k < |Lines(cfg.kind, Delivered(s))|
      && s.ring[k].tid in s.threads && s.ring[k].header.Some?
      && s.ring[k].header.value.pid == s.threads[s.ring[k].tid].pid
      && Says(Lines(cfg.kind, Delivered(s))[k], s.ring[k].header.value, s.ring[k].out)
  {
    ConsumerTells(cfg, pids, schedule);
  }

  /** And each line of a single-ended probe shows the arguments, or the return value, of
      the one call its record is about. */
  lemma SingleEndedLinesTellCalls(cfg: Config, pids: map<nat, nat>, schedule: seq<Action>, k: nat)
    requires !cfg.kind.EntryExit? && cfg.probeId == ProbeIdOf(cfg.kind)
    requires k < Run(cfg, Loaded(pids), schedule).consumed
    ensures var s := Run(cfg, Loaded(pids), schedule);
      && s.consumed <= |s.ring| && k < |Lines(cfg.kind, Delivered(s))|
      && var x, line := s.ring[k], Lines(cfg.kind, Delivered(s))[k];
      && x.header.Some? && x.tid in s.threads && x.call < |s.threads[x.tid].calls|
      && var c, pid := s.threads[x.tid].calls[x.call], s.threads[x.tid].pid;
      && (cfg.kind.EntryOnly? ==>
            line == EntryLine("UPROBE", pid, Some(Text(CString(x.header.value.comm))),
                              Some(Unsigned(c.arg0)), Some(Unsigned(c.arg1))))
      && (cfg.kind.ReturnOnly? ==>
            && c.rc.Some?
            && line == ReturnLine("URETPROBE", pid,
                                  if c.rc.value == 0 then None else Some(Signed64(Signed(c.rc.value)))))
      && OneRecord(s, x.tid, x.call)
  {
    LineTells(cfg, pids, schedule, k);
    SingleEndedRecords(cfg, pids, schedule, k);
  }
}
