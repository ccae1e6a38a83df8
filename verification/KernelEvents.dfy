/** Memory and scheduler events, from the probes of bpf/events.bpf.c through
    PollEvents of internal/bpf/poll.go to the lines events.go prints. */
module KernelEvents {
  import opened Bpf
  import opened Wire

  const SIZE: nat := 80
  const NR_MMAP: nat := 222
  const NR_MUNMAP: nat := 215
  const NR_BRK: nat := 214
  const EVENT_MEM_MMAP: nat := 1
  const EVENT_MEM_MUNMAP: nat := 2
  const EVENT_MEM_BRK: nat := 3
  const EVENT_SCHED_SWITCH: nat := 4

  // ---- the kernel side ----

  /** What a probe finds when it fires. `comm` is the 16-byte buffer the kernel fills,
      NUL-terminated; the two task names of a switch are NUL-terminated in their
      source and given here without the NUL. */
  datatype Probe =
    | Syscall(ts: nat, pid: nat, tid: nat, comm: seq<byte>, id: int, arg0: nat, arg1: nat)
    | Switch(ts: nat, prevPid: nat, nextPid: nat, prevComm: seq<byte>, nextComm: seq<byte>)
  {
    predicate Valid() {
      match this
      case Syscall(ts, pid, tid, comm, _, a, b) =>
        ts < TWO64 && pid < TWO32 && tid < TWO32 && |comm| == 16 && 0 in comm && a < TWO64 && b < TWO64
      case Switch(ts, prev, next, pc, nc) =>
        ts < TWO64 && prev < TWO32 && next < TWO32 && 0 !in pc && 0 !in nc
    }

    function Nr(): nat requires Syscall? { id % TWO32 }
  }

  datatype Config = Config(targetPid: nat, captureMem: bool, captureSched: bool)

  /** Whether the program goes on to reserve a record. */
  predicate Captures(cfg: Config, p: Probe) {
    match p
    case Syscall(_, pid, _, _, _, _, _) =>
      cfg.captureMem && (cfg.targetPid == 0 || pid == cfg.targetPid)
      && (p.Nr() == NR_MMAP || p.Nr() == NR_MUNMAP || p.Nr() == NR_BRK)
    case Switch(_, prev, next, _, _) =>
      cfg.captureSched && (cfg.targetPid == 0 || prev == cfg.targetPid || next == cfg.targetPid)
  }

  function TypeOf(p: Probe): nat {
    if p.Switch? then EVENT_SCHED_SWITCH
    else if p.Nr() == NR_MMAP then EVENT_MEM_MMAP
    else if p.Nr() == NR_MUNMAP then EVENT_MEM_MUNMAP
    else EVENT_MEM_BRK
  }

  /** bpf_probe_read_kernel_str into 16 bytes: at most 15 and a NUL. */
  function KernelStr(name: seq<byte>): (b: seq<byte>)
    ensures |b| <= 16
  {
    (if |name| <= 15 then name else name[..15]) + [0]
  }

  function FillCommon(r: seq<byte>, p: Probe): (w: seq<byte>)
    requires |r| == SIZE && p.Syscall? && p.Valid()
    ensures |w| == SIZE
  {
    var r1 := Put(r, 8, Encode(p.pid, 4));
    var r2 := Put(r1, 12, Encode(p.tid, 4));
    var r3 := Put(r2, 0, Encode(p.ts, 8));
    Put(r3, 17, p.comm)
  }

  /** The record of a memory event; prev_pid, next_pid, next_comm and the padding keep
      whatever the reserved memory held. */
  function MemRecord(r: seq<byte>, p: Probe): (w: seq<byte>)
    requires |r| == SIZE && p.Syscall? && p.Valid()
    ensures |w| == SIZE
  {
    var c := FillCommon(r, p);
    var t := Put(c, 16, Encode(TypeOf(p), 1));
    Put(Put(t, 40, Encode(p.arg0, 8)), 48, Encode(if p.Nr() == NR_BRK then 0 else p.arg1, 8))
  }

  /** A switch record after its first six stores, then after the rest; the padding and
      the bytes behind both names are stale. */
  function SwitchIds(r: seq<byte>, p: Probe): (w: seq<byte>)
    requires |r| == SIZE && p.Switch? && p.Valid()
    ensures |w| == SIZE
  {
    var r1 := Put(r, 0, Encode(p.ts, 8));
    var r2 := Put(r1, 16, Encode(EVENT_SCHED_SWITCH, 1));
    var r3 := Put(r2, 56, Encode(p.prevPid, 4));
    var r4 := Put(r3, 60, Encode(p.nextPid, 4));
    var r5 := Put(r4, 8, Encode(p.prevPid, 4));
    Put(r5, 12, Encode(p.prevPid, 4))
  }

  function SwitchRecord(r: seq<byte>, p: Probe): (w: seq<byte>)
    requires |r| == SIZE && p.Switch? && p.Valid()
    ensures |w| == SIZE
  {
    var r7 := Put(SwitchIds(r, p), 40, Encode(0, 8));
    var r8 := Put(r7, 48, Encode(0, 8));
    var r9 := Put(r8, 17, KernelStr(p.prevComm));
    Put(r9, 64, KernelStr(p.nextComm))
  }

  function Record(r: seq<byte>, p: Probe): (w: seq<byte>)
    requires |r| == SIZE && p.Valid()
    ensures |w| == SIZE
  {
    if p.Syscall? then MemRecord(r, p) else SwitchRecord(r, p)
  }

  /** One firing: whether the ring had room, and what the reserved bytes held. */
  datatype Firing = Firing(probe: Probe, room: bool, stale: seq<byte>) {
    predicate Valid() { probe.Valid() && |stale| == SIZE }
  }

  /** What a firing puts into the ring: one record or nothing. */
  function Emitted(cfg: Config, f: Firing): seq<seq<byte>>
    requires f.Valid()
  {
    if Captures(cfg, f.probe) && f.room then [Record(f.stale, f.probe)] else []
  }

  /** trace_mem_syscalls: filters, then stores into the reserved memory in place. */
  method TraceMemSyscalls(cfg: Config, f: Firing) returns (submitted: seq<seq<byte>>)
    requires f.Valid() && f.probe.Syscall?
    ensures submitted == Emitted(cfg, f)
  {
    var p := f.probe;
    if !cfg.captureMem { return []; }
    if cfg.targetPid != 0 && p.pid != cfg.targetPid { return []; }
    var nr := p.id % TWO32;
    if nr != NR_MMAP && nr != NR_MUNMAP && nr != NR_BRK { return []; }
    if !f.room { return []; }
    var e := new byte[SIZE](i requires 0 <= i < SIZE => f.stale[i]);
    assert e[..] == f.stale;
    FillMem(e, p, nr);
    submitted := [e[..]];
  }

  /** fill_common and the switch on the syscall number. */
  method FillMem(e: array<byte>, p: Probe, nr: nat)
    requires e.Length == SIZE && p.Valid() && p.Syscall? && nr == p.Nr() && nr in {NR_MMAP, NR_MUNMAP, NR_BRK}
    modifies e
    ensures e[..] == MemRecord(old(e[..]), p)
  {
    Write(e, 8, Encode(p.pid, 4));
    Write(e, 12, Encode(p.tid, 4));
    Write(e, 0, Encode(p.ts, 8));
    Write(e, 17, p.comm);
    if nr == NR_MMAP {
      Write(e, 16, Encode(EVENT_MEM_MMAP, 1));
      Write(e, 40, Encode(p.arg0, 8));
      Write(e, 48, Encode(p.arg1, 8));
    } else if nr == NR_MUNMAP {
      Write(e, 16, Encode(EVENT_MEM_MUNMAP, 1));
      Write(e, 40, Encode(p.arg0, 8));
      Write(e, 48, Encode(p.arg1, 8));
    } else {
      Write(e, 16, Encode(EVENT_MEM_BRK, 1));
      Write(e, 40, Encode(p.arg0, 8));
      Write(e, 48, Encode(0, 8));
    }
  }

  /** trace_sched_switch. */
  method TraceSchedSwitch(cfg: Config, f: Firing) returns (submitted: seq<seq<byte>>)
    requires f.Valid() && f.probe.Switch?
    ensures submitted == Emitted(cfg, f)
  {
    var p := f.probe;
    if !cfg.captureSched { return []; }
    if cfg.targetPid != 0 && p.prevPid != cfg.targetPid && p.nextPid != cfg.targetPid { return []; }
    if !f.room { return []; }
    var e := new byte[SIZE](i requires 0 <= i < SIZE => f.stale[i]);
    assert e[..] == f.stale;
    FillSwitch(e, p);
    submitted := [e[..]];
  }

  method FillSwitch(e: array<byte>, p: Probe)
    requires e.Length == SIZE && p.Valid() && p.Switch?
    modifies e
    ensures e[..] == SwitchRecord(old(e[..]), p)
  {
    Write(e, 0, Encode(p.ts, 8));
    Write(e, 16, Encode(EVENT_SCHED_SWITCH, 1));
    Write(e, 56, Encode(p.prevPid, 4));
    Write(e, 60, Encode(p.nextPid, 4));
    Write(e, 8, Encode(p.prevPid, 4));
    Write(e, 12, Encode(p.prevPid, 4));
    Write(e, 40, Encode(0, 8));
    Write(e, 48, Encode(0, 8));
    Write(e, 17, KernelStr(p.prevComm));
    Write(e, 64, KernelStr(p.nextComm));
  }

  // ---- the Go side ----

  datatype KernelEvent = KernelEvent(timestamp: nat, pid: nat, tid: nat, kind: nat, comm: seq<byte>,
                                     addr: nat, size: nat, prevPid: nat, nextPid: nat, nextComm: seq<byte>)

  /** binary.Read on a little-endian machine. */
  function Parse(raw: seq<byte>): Option<KernelEvent> {
    if |raw| < SIZE then None else
    Some(KernelEvent(U64At(raw, 0), U32At(raw, 8), U32At(raw, 12), raw[16], Get(raw, 17, 16),
                     U64At(raw, 40), U64At(raw, 48), U32At(raw, 56), U32At(raw, 60), Get(raw, 64, 16)))
  }

  /** The filter inside PollEvents. */
  predicate PollKeeps(typeFilter: string, e: KernelEvent) {
    !(typeFilter == "mem" && e.kind == EVENT_SCHED_SWITCH) && !(typeFilter == "sched" && e.kind != EVENT_SCHED_SWITCH)
  }

  /** formatBytes: which unit is shown, before rounding to a tenth. */
  datatype SizeText = HeapResize | Plain(b: nat) | Kilo(b: nat) | Mega(b: nat)

  function FormatBytes(b: nat): SizeText {
    if b == 0 then HeapResize else if b < 1024 then Plain(b) else if b < 1024 * 1024 then Kilo(b) else Mega(b)
  }

  /** A printed line: the values substituted into its format. */
  datatype Line =
    | MemLine(verb: string, timestamp: nat, pid: nat, comm: seq<byte>, addr: nat, size: SizeText)
    | SwitchLine(timestamp: nat, comm: seq<byte>, prevPid: nat, nextComm: seq<byte>, nextPid: nat)

  /** printEvent. */
  function PrintEvent(e: KernelEvent, typeFilter: string): Option<Line> {
    if e.kind == EVENT_MEM_MMAP then
      if typeFilter == "sched" then None
      else Some(MemLine("MMAP", e.timestamp, e.pid, CString(e.comm), e.addr, FormatBytes(e.size)))
    else if e.kind == EVENT_MEM_MUNMAP then
      if typeFilter == "sched" then None
      else Some(MemLine("MUNMAP", e.timestamp, e.pid, CString(e.comm), e.addr, FormatBytes(e.size)))
    else if e.kind == EVENT_MEM_BRK then
      if typeFilter == "sched" then None
      else Some(MemLine("BRK", e.timestamp, e.pid, CString(e.comm), e.addr, FormatBytes(e.size)))
    else if e.kind == EVENT_SCHED_SWITCH then
      if typeFilter == "mem" then None
      else Some(SwitchLine(e.timestamp, CString(e.comm), e.prevPid, CString(e.nextComm), e.nextPid))
    else None
  }

  /** What one ring record leads to on the terminal. */
  function Shown(typeFilter: string, raw: seq<byte>): seq<Line> {
    var e := Parse(raw);
    if e.None? || !PollKeeps(typeFilter, e.value) then [] else
    var line := PrintEvent(e.value, typeFilter);
    if line.Some? then [line.value] else []
  }

  function ShownAll(typeFilter: string, records: seq<seq<byte>>): seq<Line> {
    if records == [] then []
    else ShownAll(typeFilter, records[..|records| - 1]) + Shown(typeFilter, records[|records| - 1])
  }

  /** The event loop of PollEvents with printEvent as its callback. */
  method PollEvents(typeFilter: string, records: seq<seq<byte>>) returns (lines: seq<Line>)
    ensures lines == ShownAll(typeFilter, records)
  {
    lines := [];
    for i := 0 to |records|
      invariant lines == ShownAll(typeFilter, records[..i])
    {
      assert records[..i + 1][..i] == records[..i];
      var e := Parse(records[i]);
      if e.None? { continue; }
      if typeFilter == "mem" && e.value.kind == EVENT_SCHED_SWITCH { continue; }
      if typeFilter == "sched" && e.value.kind != EVENT_SCHED_SWITCH { continue; }
      var line := PrintEvent(e.value, typeFilter);
      if line.Some? { lines := lines + [line.value]; }
    }
    assert records[..|records|] == records;
  }

  // ---- end to end ----

  /** The constants PollEvents loads the programs with. */
  function ConfigFor(pid: nat, typeFilter: string): Config {
    Config(pid, typeFilter == "mem" || typeFilter == "all", typeFilter == "sched" || typeFilter == "all")
  }

  predicate AllValid(fs: seq<Firing>) {
    fs != [] ==> fs[|fs| - 1].Valid() && AllValid(fs[..|fs| - 1])
  }

  function Submitted(cfg: Config, fs: seq<Firing>): (records: seq<seq<byte>>)
    requires AllValid(fs)
  {
    if fs == [] then [] else
    Submitted(cfg, fs[..|fs| - 1]) + Emitted(cfg, fs[|fs| - 1])
  }

  /** The user asked for this kind of event about this process. */
  predicate Wanted(pid: nat, typeFilter: string, p: Probe) {
    match p
    case Syscall(_, who, _, _, id, _, _) =>
      && (typeFilter == "mem" || typeFilter == "all") && (pid == 0 || who == pid)
      && (id % TWO32 == 222 || id % TWO32 == 215 || id % TWO32 == 214)
    case Switch(_, prev, next, _, _) =>
      (typeFilter == "sched" || typeFilter == "all") && (pid == 0 || prev == pid || next == pid)
  }

  /** The line a firing deserves, from the probe's own values alone. */
  function LineFor(p: Probe): Line {
    match p
    case Syscall(ts, pid, _, comm, _, arg0, arg1) =>
      var verb := if p.Nr() == NR_MMAP then "MMAP" else if p.Nr() == NR_MUNMAP then "MUNMAP" else "BRK";
      MemLine(verb, ts, pid, CString(comm), arg0, FormatBytes(if p.Nr() == NR_BRK then 0 else arg1))
    case Switch(ts, prev, next, pc, nc) => SwitchLine(ts, Clip(pc), prev, Clip(nc), next)
  }

  function Clip(name: seq<byte>): seq<byte> { if |name| <= 15 then name else name[..15] }

  function Expected(pid: nat, typeFilter: string, fs: seq<Firing>): seq<Line> {
    if fs == [] then [] else
    var last := fs[|fs| - 1];
    Expected(pid, typeFilter, fs[..|fs| - 1])
    + if last.room && Wanted(pid, typeFilter, last.probe) then [LineFor(last.probe)] else []
  }

  lemma CommonFields(r: seq<byte>, p: Probe)
    requires |r| == SIZE && p.Syscall? && p.Valid()
    ensures var w := FillCommon(r, p);
      U64At(w, 0) == p.ts && U32At(w, 8) == p.pid && U32At(w, 12) == p.tid && Get(w, 17, 16) == p.comm
  {
    var r1 := Put(r, 8, Encode(p.pid, 4)); PutOnly(r, 8, Encode(p.pid, 4));
    var r2 := Put(r1, 12, Encode(p.tid, 4)); PutOnly(r1, 12, Encode(p.tid, 4));
    var r3 := Put(r2, 0, Encode(p.ts, 8)); PutOnly(r2, 0, Encode(p.ts, 8));
    PutOnly(r3, 17, p.comm);
    Widths();
    DecodeEncode(p.pid, 4); DecodeEncode(p.tid, 4); DecodeEncode(p.ts, 8);
  }

  lemma MemFields(r: seq<byte>, p: Probe)
    requires |r| == SIZE && p.Syscall? && p.Valid()
    ensures var w := MemRecord(r, p);
      && U64At(w, 0) == p.ts && U32At(w, 8) == p.pid && U32At(w, 12) == p.tid
      && Get(w, 17, 16) == p.comm && w[16] == TypeOf(p)
      && U64At(w, 40) == p.arg0 && U64At(w, 48) == if p.Nr() == NR_BRK then 0 else p.arg1
  {
    var kind, size := Encode(TypeOf(p), 1), Encode(if p.Nr() == NR_BRK then 0 else p.arg1, 8);
    var c := FillCommon(r, p); CommonFields(r, p);
    var t := Put(c, 16, kind); PutOnly(c, 16, kind);
    var a := Put(t, 40, Encode(p.arg0, 8)); PutOnly(t, 40, Encode(p.arg0, 8));
    PutOnly(a, 48, size);
    Widths();
    DecodeEncode(p.arg0, 8); DecodeEncode(if p.Nr() == NR_BRK then 0 else p.arg1, 8);
    assert Get(MemRecord(r, p), 16, 1) == kind;
    assert Get(MemRecord(r, p), 16, 1)[0] == MemRecord(r, p)[16];
  }

  lemma SwitchIdFields(r: seq<byte>, p: Probe)
    requires |r| == SIZE && p.Switch? && p.Valid()
    ensures var w := SwitchIds(r, p);
      && U64At(w, 0) == p.ts && U32At(w, 56) == p.prevPid && U32At(w, 60) == p.nextPid
      && U32At(w, 8) == U32At(w, 12) == p.prevPid && Get(w, 16, 1) == Encode(EVENT_SCHED_SWITCH, 1)
  {
    var r1 := Put(r, 0, Encode(p.ts, 8)); PutOnly(r, 0, Encode(p.ts, 8));
    var r2 := Put(r1, 16, Encode(EVENT_SCHED_SWITCH, 1)); PutOnly(r1, 16, Encode(EVENT_SCHED_SWITCH, 1));
    var r3 := Put(r2, 56, Encode(p.prevPid, 4)); PutOnly(r2, 56, Encode(p.prevPid, 4));
    var r4 := Put(r3, 60, Encode(p.nextPid, 4)); PutOnly(r3, 60, Encode(p.nextPid, 4));
    var r5 := Put(r4, 8, Encode(p.prevPid, 4)); PutOnly(r4, 8, Encode(p.prevPid, 4));
    PutOnly(r5, 12, Encode(p.prevPid, 4));
    Widths();
    DecodeEncode(p.ts, 8); DecodeEncode(p.prevPid, 4); DecodeEncode(p.nextPid, 4);
  }

  lemma SwitchFields(r: seq<byte>, p: Probe)
    requires |r| == SIZE && p.Switch? && p.Valid()
    ensures var w := SwitchRecord(r, p);
      && U64At(w, 0) == p.ts && U32At(w, 56) == p.prevPid && U32At(w, 60) == p.nextPid
      && U32At(w, 8) == U32At(w, 12) == p.prevPid && U64At(w, 40) == U64At(w, 48) == 0
      && w[16] == EVENT_SCHED_SWITCH
      && CString(Get(w, 17, 16)) == Clip(p.prevComm) && CString(Get(w, 64, 16)) == Clip(p.nextComm)
  {
    SwitchIdFields(r, p);
    SwitchNameFields(SwitchIds(r, p), p);
    var w := SwitchRecord(r, p);
    assert Get(w, 16, 1)[0] == w[16];
  }

  lemma SwitchNameFields(r6: seq<byte>, p: Probe)
    requires |r6| == SIZE && p.Switch? && p.Valid()
    ensures var w := Put(Put(Put(Put(r6, 40, Encode(0, 8)), 48, Encode(0, 8)), 17, KernelStr(p.prevComm)),
                         64, KernelStr(p.nextComm));
      && Get(w, 0, 8) == Get(r6, 0, 8) && Get(w, 8, 4) == Get(r6, 8, 4) && Get(w, 12, 4) == Get(r6, 12, 4)
      && Get(w, 16, 1) == Get(r6, 16, 1) && Get(w, 56, 4) == Get(r6, 56, 4) && Get(w, 60, 4) == Get(r6, 60, 4)
      && U64At(w, 40) == U64At(w, 48) == 0
      && CString(Get(w, 17, 16)) == Clip(p.prevComm) && CString(Get(w, 64, 16)) == Clip(p.nextComm)
  {
    var pc, nc := KernelStr(p.prevComm), KernelStr(p.nextComm);
    var r7 := Put(r6, 40, Encode(0, 8)); PutOnly(r6, 40, Encode(0, 8));
    var r8 := Put(r7, 48, Encode(0, 8)); PutOnly(r7, 48, Encode(0, 8));
    var r9 := Put(r8, 17, pc); PutOnly(r8, 17, pc);
    var w := Put(r9, 64, nc); PutOnly(r9, 64, nc);
    Widths();
    DecodeEncode(0, 8);
    TextAt(w, 17, Clip(p.prevComm));
    TextAt(w, 64, Clip(p.nextComm));
  }

  /** Text and a NUL at an offset read back as the text, whatever follows. */
  lemma TextAt(w: seq<byte>, off: nat, name: seq<byte>)
    requires off + 16 <= |w| && |name| <= 15 && 0 !in name && Get(w, off, |name| + 1) == name + [0]
    ensures CString(Get(w, off, 16)) == name
  {
    var rest := w[off + |name| + 1..off + 16];
    assert Get(w, off, 16) == Get(w, off, |name| + 1) + rest;
    CStringReads(name, rest);
  }

  /** How many bytes one of the shown unit has. */
  function Unit(t: SizeText): nat {
    match t case HeapResize => 1 case Plain(_) => 1 case Kilo(_) => 1024 case Mega(_) => 1048576
  }

  /** The size shown is the byte count in the largest unit it reaches, 0 being a resize of
      the heap. */
  ghost predicate SizeTells(t: SizeText, b: nat) {
    && (t.HeapResize? <==> b == 0)
    && (!t.HeapResize? ==> t.b == b && Unit(t) <= b && (t.Mega? || b < 1024 * Unit(t)))
  }

  /** The line tells the probe's own values. */
  ghost predicate LineTells(line: Line, p: Probe) {
    match p
    case Syscall(ts, pid, _, comm, id, arg0, arg1) =>
      && line.MemLine? && line.timestamp == ts && line.pid == pid && line.comm == CString(comm) && line.addr == arg0
      && (id % TWO32 == 222 ==> line.verb == "MMAP" && SizeTells(line.size, arg1))
      && (id % TWO32 == 215 ==> line.verb == "MUNMAP" && SizeTells(line.size, arg1))
      && (id % TWO32 == 214 ==> line.verb == "BRK" && line.size.HeapResize?)
    case Switch(ts, prev, next, prevComm, nextComm) =>
      && line.SwitchLine? && line.timestamp == ts && line.prevPid == prev && line.nextPid == next
      && line.comm == prevComm[..if |prevComm| <= 15 then |prevComm| else 15]
      && line.nextComm == nextComm[..if |nextComm| <= 15 then |nextComm| else 15]
  }

  /** The record of a captured firing is shown as one line, and that line tells the
      probe's own values, whatever the reserved memory held. */
  lemma RecordShown(typeFilter: string, p: Probe, stale: seq<byte>)
    requires |stale| == SIZE && p.Valid() && exists pid :: Captures(ConfigFor(pid, typeFilter), p)
    ensures Shown(typeFilter, Record(stale, p)) == [LineFor(p)] && LineTells(LineFor(p), p)
  {
    if p.Syscall? { MemShown(typeFilter, p, stale); } else { SwitchShown(typeFilter, p, stale); }
  }

  lemma MemShown(typeFilter: string, p: Probe, stale: seq<byte>)
    requires |stale| == SIZE && p.Valid() && p.Syscall? && exists pid :: Captures(ConfigFor(pid, typeFilter), p)
    ensures Shown(typeFilter, Record(stale, p)) == [LineFor(p)]
  {
    MemFields(stale, p);
  }

  lemma SwitchShown(typeFilter: string, p: Probe, stale: seq<byte>)
    requires |stale| == SIZE && p.Valid() && p.Switch? && exists pid :: Captures(ConfigFor(pid, typeFilter), p)
    ensures Shown(typeFilter, Record(stale, p)) == [LineFor(p)]
  {
    SwitchFields(stale, p);
  }

  lemma WantedIsCaptured(pid: nat, typeFilter: string, p: Probe)
    ensures Captures(ConfigFor(pid, typeFilter), p) <==> Wanted(pid, typeFilter, p)
  {
  }

  /** The kernel's capture flags, the filter of PollEvents and the filter of
      printEvent together show exactly the wanted firings that found room, in order,
      and every line is a function of its probe's own values. */
  lemma {:induction false} ShowsWhatWasWanted(pid: nat, typeFilter: string, fs: seq<Firing>)
    requires AllValid(fs)
    ensures ShownAll(typeFilter, Submitted(ConfigFor(pid, typeFilter), fs)) == Expected(pid, typeFilter, fs)
  {
    if fs != [] {
      var cfg, n := ConfigFor(pid, typeFilter), |fs| - 1;
      ShowsWhatWasWanted(pid, typeFilter, fs[..n]);
      WantedIsCaptured(pid, typeFilter, fs[n].probe);
      var before := Submitted(cfg, fs[..n]);
      if Captures(cfg, fs[n].probe) && fs[n].room {
        RecordShown(typeFilter, fs[n].probe, fs[n].stale);
        var records := before + [Record(fs[n].stale, fs[n].probe)];
        assert records[..|records| - 1] == before;
      } else {
        assert before + [] == before;
      }
    }
  }

  /** The lines are about the firings listed in `kept`, in their order: those that found room
      and were wanted. */
  ghost predicate Reports(pid: nat, typeFilter: string, fs: seq<Firing>, lines: seq<Line>, kept: seq<nat>) {
    && |lines| == |kept|
    && (forall k :: 0 <= k < |kept| ==> kept[k] < |fs| && LineTells(lines[k], fs[kept[k]].probe))
    && (forall k, l :: 0 <= k < l < |kept| ==> kept[k] < kept[l])
    && (forall n :: 0 <= n < |fs| ==> (n in kept <==> fs[n].room && Wanted(pid, typeFilter, fs[n].probe)))
  }

  /** So every line of the output tells the values of a firing of its own. */
  lemma EveryLineTells(pid: nat, typeFilter: string, fs: seq<Firing>) returns (kept: seq<nat>)
    requires AllValid(fs)
    ensures Reports(pid, typeFilter, fs, ShownAll(typeFilter, Submitted(ConfigFor(pid, typeFilter), fs)), kept)
  {
    kept := ExpectedReports(pid, typeFilter, fs);
    ShowsWhatWasWanted(pid, typeFilter, fs);
  }

  lemma {:induction false} ExpectedReports(pid: nat, typeFilter: string, fs: seq<Firing>) returns (kept: seq<nat>)
    ensures Reports(pid, typeFilter, fs, Expected(pid, typeFilter, fs), kept)
  {
    kept := [];
    if fs != [] {
      var n := |fs| - 1;
      kept := ExpectedReports(pid, typeFilter, fs[..n]);
      var before := Expected(pid, typeFilter, fs[..n]);
      if fs[n].room && Wanted(pid, typeFilter, fs[n].probe) {
        WantedTells(pid, typeFilter, fs[n].probe);
        ReportsMore(pid, typeFilter, fs, before, kept, LineFor(fs[n].probe));
        kept := kept + [n];
      } else {
        assert before + [] == before;
        ReportsAlike(pid, typeFilter, fs, before, kept);
      }
    }
  }

  lemma WantedTells(pid: nat, typeFilter: string, p: Probe)
    requires Wanted(pid, typeFilter, p)
    ensures LineTells(LineFor(p), p)
  {
  }

  lemma ReportsMore(pid: nat, typeFilter: string, fs: seq<Firing>, lines: seq<Line>, kept: seq<nat>, line: Line)
    requires fs != [] && fs[|fs| - 1].room && Wanted(pid, typeFilter, fs[|fs| - 1].probe)
    requires Reports(pid, typeFilter, fs[..|fs| - 1], lines, kept) && LineTells(line, fs[|fs| - 1].probe)
    ensures Reports(pid, typeFilter, fs, lines + [line], kept + [|fs| - 1])
  {
    var n := |fs| - 1;
    forall m | 0 <= m < |fs| ensures m in kept + [n] <==> fs[m].room && Wanted(pid, typeFilter, fs[m].probe) {
      if m < n { assert fs[..n][m] == fs[m]; }
    }
  }

  lemma ReportsAlike(pid: nat, typeFilter: string, fs: seq<Firing>, lines: seq<Line>, kept: seq<nat>)
    requires fs != [] && !(fs[|fs| - 1].room && Wanted(pid, typeFilter, fs[|fs| - 1].probe))
    requires Reports(pid, typeFilter, fs[..|fs| - 1], lines, kept)
    ensures Reports(pid, typeFilter, fs, lines, kept)
  {
    var n := |fs| - 1;
    forall m | 0 <= m < |fs| ensures m in kept <==> fs[m].room && Wanted(pid, typeFilter, fs[m].probe) {
      if m < n { assert fs[..n][m] == fs[m]; }
    }
  }

  /** On any record, whoever wrote it, PollEvents drops nothing printEvent would have
      printed: the middle filter never changes the output. */
  lemma PollFilterIsRedundant(typeFilter: string, e: KernelEvent)
    ensures !PollKeeps(typeFilter, e) ==> PrintEvent(e, typeFilter).None?
  {
  }
}
