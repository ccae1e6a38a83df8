/** The packed 120-byte uprobe record, from the handlers of bpf/uprobe.bpf.c to the
    decoder of internal/aggregator/uprobe.go. */
module UprobeWire {
  import opened Bpf
  import opened Wire

  const SIZE: nat := 120
  const PROBE_ID_UPROBE_ENTRY: nat := 10
  const PROBE_ID_UPROBE_PAIR: nat := 11
  const PROBE_ID_URETPROBE: nat := 12

  // ---- what the kernel side writes ----

  /** What reserve_event reads from its surroundings. `comm` is the 16-byte buffer
      the kernel fills: NUL-terminated, with anything behind the NUL. */
  datatype Header = Header(ts: nat, pid: nat, tid: nat, probeId: nat, comm: seq<byte>) {
    predicate Valid() {
      ts < TWO64 && pid < TWO32 && tid < TWO32 && probeId < TWO32 && |comm| == 16 && 0 in comm
    }
  }

  /** What each kind of handler adds before it submits. */
  datatype Payload =
    | Args(arg0: nat, arg1: nat)       // handle_uprobe_entry
    | Pair(latency: nat, rc: nat)      // handle_uprobe_pair_exit
    | Return(rc: nat)                  // handle_uretprobe_only
  {
    predicate Valid() {
      match this
      case Args(a, b) => a < TWO64 && b < TWO64
      case Pair(l, rc) => l < TWO64 && rc < TWO64
      case Return(rc) => rc < TWO64
    }
  }

  /** The record after the first four stores of reserve_event, then after the rest. */
  function Identity(r: seq<byte>, h: Header): (w: seq<byte>)
    requires |r| == SIZE && h.Valid()
    ensures |w| == SIZE
  {
    var r1 := Put(r, 8, Encode(h.pid, 4));
    var r2 := Put(r1, 12, Encode(h.tid, 4));
    var r3 := Put(r2, 0, Encode(h.ts, 8));
    Put(r3, 36, Encode(h.probeId, 4))
  }

  function Common(r: seq<byte>, h: Header): (w: seq<byte>)
    requires |r| == SIZE && h.Valid()
    ensures |w| == SIZE
  {
    var r5 := Put(Identity(r, h), 20, Encode(0, 8));
    var r6 := Put(r5, 28, Encode(0, 8));
    Put(r6, 40, h.comm)
  }

  /** The record a handler submits when it reserved memory holding `r`. */
  function Record(r: seq<byte>, h: Header, p: Payload): (w: seq<byte>)
    requires |r| == SIZE && h.Valid() && p.Valid()
    ensures |w| == SIZE
  {
    var c := Common(r, h);
    match p
    case Args(arg0, arg1) => Put(Put(c, 56, Encode(arg0, 8)), 64, Encode(arg1, 8))
    case Pair(latency, rc) => Put(Put(c, 28, Encode(latency, 8)), 20, Encode(rc, 8))
    case Return(rc) => Put(c, 20, Encode(rc, 8))
  }

  /** reserve_event's stores, in place. */
  method FillCommon(e: array<byte>, h: Header)
    requires e.Length == SIZE && h.Valid()
    modifies e
    ensures e[..] == Common(old(e[..]), h)
  {
    Write(e, 8, Encode(h.pid, 4));
    Write(e, 12, Encode(h.tid, 4));
    Write(e, 0, Encode(h.ts, 8));
    Write(e, 36, Encode(h.probeId, 4));
    Write(e, 20, Encode(0, 8));
    Write(e, 28, Encode(0, 8));
    Write(e, 40, h.comm);
  }

  /** The stores of the three event handlers between reserve and submit. */
  method FillRecord(e: array<byte>, h: Header, p: Payload)
    requires e.Length == SIZE && h.Valid() && p.Valid()
    modifies e
    ensures e[..] == Record(old(e[..]), h, p)
  {
    FillCommon(e, h);
    match p
    case Args(arg0, arg1) =>
      Write(e, 56, Encode(arg0, 8));
      Write(e, 64, Encode(arg1, 8));
    case Pair(latency, rc) =>
      Write(e, 28, Encode(latency, 8));
      Write(e, 20, Encode(rc, 8));
    case Return(rc) =>
      Write(e, 20, Encode(rc, 8));
  }

  // ---- what the Go side reads ----

  datatype Value = Text(bytes: seq<byte>) | Unsigned(u: nat) | Signed64(i: int)

  datatype Event = Event(probeId: nat, pid: nat, timestamp: nat, tag: string, fields: map<string, Value>)

  function LabelOf(probeId: nat): string {
    if probeId == PROBE_ID_UPROBE_PAIR then "UPROBE_PAIR"
    else if probeId == PROBE_ID_URETPROBE then "URETPROBE"
    else "UPROBE"
  }

  /** ParseUprobeEvent: a record needs its 120 bytes; more are ignored. */
  method ParseUprobeEvent(raw: seq<byte>) returns (r: Option<Event>)
    ensures r == Parsed(raw)
    ensures r.None? <==> |raw| < SIZE
  {
    if |raw| < SIZE { return None; }
    var probeId, latency, retval := U32At(raw, 36), U64At(raw, 28), Signed(U64At(raw, 20));
    var tag := "UPROBE";
    match probeId {
      case 11 => tag := "UPROBE_PAIR";
      case 12 => tag := "URETPROBE";
      case _ =>
    }
    assert tag == LabelOf(probeId);
    var comm := CString(Get(raw, 40, 16));
    var payload := Get(raw, 56, 64);
    var arg0, arg1 := U64At(payload, 0), U64At(payload, 8);
    GetGet(raw, 56, 64, 0, 8);
    GetGet(raw, 56, 64, 8, 8);
    var fields := CollectFields(comm, latency, retval, tag == "UPROBE", arg0, arg1);
    r := Some(Event(probeId, U32At(raw, 8), U64At(raw, 0), tag, fields));
  }

  /** The map built step by step. */
  method CollectFields(comm: seq<byte>, latency: nat, retval: int, uprobe: bool, arg0: nat, arg1: nat)
    returns (fields: map<string, Value>)
    ensures fields == Fields(comm, latency, retval, uprobe, arg0, arg1)
  {
    fields := map["comm" := Text(comm)];
    if latency > 0 { fields := fields["latency_ns" := Unsigned(latency)]; }
    if retval != 0 { fields := fields["retval" := Signed64(retval)]; }
    if uprobe {
      fields := fields["arg0" := Unsigned(arg0)];
      fields := fields["arg1" := Unsigned(arg1)];
    }
  }

  /** The fields map for these decoded values. */
  function Fields(comm: seq<byte>, latency: nat, retval: int, uprobe: bool, arg0: nat, arg1: nat): map<string, Value> {
    map["comm" := Text(comm)]
    + (if latency > 0 then map["latency_ns" := Unsigned(latency)] else map[])
    + (if retval != 0 then map["retval" := Signed64(retval)] else map[])
    + (if uprobe then map["arg0" := Unsigned(arg0), "arg1" := Unsigned(arg1)] else map[])
  }

  function Parsed(raw: seq<byte>): Option<Event> {
    if |raw| < SIZE then None else
    var tag := LabelOf(U32At(raw, 36));
    Some(Event(U32At(raw, 36), U32At(raw, 8), U64At(raw, 0), tag,
               Fields(CString(Get(raw, 40, 16)), U64At(raw, 28), Signed(U64At(raw, 20)),
                      tag == "UPROBE", U64At(raw, 56), U64At(raw, 64))))
  }

  /** A numeric field, 0 when absent. */
  function Number(fields: map<string, Value>, name: string): int {
    if name !in fields then 0
    else match fields[name] case Unsigned(u) => u case Signed64(i) => i case Text(_) => 0
  }

  lemma FieldsTell(comm: seq<byte>, latency: nat, retval: int, uprobe: bool, arg0: nat, arg1: nat)
    ensures var f := Fields(comm, latency, retval, uprobe, arg0, arg1);
      && "comm" in f && f["comm"] == Text(comm)
      && Number(f, "latency_ns") == latency && ("latency_ns" in f <==> latency != 0)
      && Number(f, "retval") == retval && ("retval" in f <==> retval != 0)
      && Number(f, "arg0") == (if uprobe then arg0 else 0) && ("arg0" in f <==> uprobe)
      && Number(f, "arg1") == (if uprobe then arg1 else 0) && ("arg1" in f <==> uprobe)
      && f.Keys <= {"comm", "arg0", "arg1", "latency_ns", "retval"}
  {
  }

  // ---- the round trip ----

  lemma IdentityFields(r: seq<byte>, h: Header)
    requires |r| == SIZE && h.Valid()
    ensures var w := Identity(r, h);
      && U64At(w, 0) == h.ts && U32At(w, 8) == h.pid && U32At(w, 12) == h.tid && U32At(w, 36) == h.probeId
      && Get(w, 16, 4) == Get(r, 16, 4) && Get(w, 56, 64) == Get(r, 56, 64)
  {
    var r1 := Put(r, 8, Encode(h.pid, 4)); PutOnly(r, 8, Encode(h.pid, 4));
    var r2 := Put(r1, 12, Encode(h.tid, 4)); PutOnly(r1, 12, Encode(h.tid, 4));
    var r3 := Put(r2, 0, Encode(h.ts, 8)); PutOnly(r2, 0, Encode(h.ts, 8));
    PutOnly(r3, 36, Encode(h.probeId, 4));
    Widths();
    DecodeEncode(h.pid, 4); DecodeEncode(h.tid, 4); DecodeEncode(h.ts, 8); DecodeEncode(h.probeId, 4);
  }

  lemma CommonFields(r: seq<byte>, h: Header)
    requires |r| == SIZE && h.Valid()
    ensures var w := Common(r, h);
      && U64At(w, 0) == h.ts && U32At(w, 8) == h.pid && U32At(w, 12) == h.tid && U32At(w, 36) == h.probeId
      && U64At(w, 20) == 0 && U64At(w, 28) == 0 && Get(w, 40, 16) == h.comm
      && Get(w, 16, 4) == Get(r, 16, 4) && Get(w, 56, 64) == Get(r, 56, 64)
  {
    IdentityFields(r, h);
    var r4 := Identity(r, h);
    var r5 := Put(r4, 20, Encode(0, 8)); PutOnly(r4, 20, Encode(0, 8));
    var r6 := Put(r5, 28, Encode(0, 8)); PutOnly(r5, 28, Encode(0, 8));
    PutOnly(r6, 40, h.comm);
    Widths();
    DecodeEncode(0, 8);
  }

  lemma RecordFields(r: seq<byte>, h: Header, p: Payload)
    requires |r| == SIZE && h.Valid() && p.Valid()
    ensures var w := Record(r, h, p);
      && U64At(w, 0) == h.ts && U32At(w, 8) == h.pid && U32At(w, 12) == h.tid && U32At(w, 36) == h.probeId
      && Get(w, 40, 16) == h.comm && Get(w, 16, 4) == Get(r, 16, 4)
      && U64At(w, 20) == (match p case Args(_, _) => 0 case Pair(_, rc) => rc case Return(rc) => rc)
      && U64At(w, 28) == (if p.Pair? then p.latency else 0)
      && (p.Args? ==> U64At(w, 56) == p.arg0 && U64At(w, 64) == p.arg1)
  {
    CommonFields(r, h);
    Widths();
    var c := Common(r, h);
    match p
    case Args(arg0, arg1) =>
      PutOnly(c, 56, Encode(arg0, 8));
      PutOnly(Put(c, 56, Encode(arg0, 8)), 64, Encode(arg1, 8));
      DecodeEncode(arg0, 8); DecodeEncode(arg1, 8);
    case Pair(latency, rc) =>
      PutOnly(c, 28, Encode(latency, 8));
      PutOnly(Put(c, 28, Encode(latency, 8)), 20, Encode(rc, 8));
      DecodeEncode(latency, 8); DecodeEncode(rc, 8);
    case Return(rc) =>
      PutOnly(c, 20, Encode(rc, 8));
      DecodeEncode(rc, 8);
  }

  /** Which probe id belongs to which kind of handler (trace.go sets it). */
  predicate Matches(probeId: nat, p: Payload) {
    match p
    case Args(_, _) => probeId == PROBE_ID_UPROBE_ENTRY
    case Pair(_, _) => probeId == PROBE_ID_UPROBE_PAIR
    case Return(_) => probeId == PROBE_ID_URETPROBE
  }

  /** Bytes past the struct are ignored. */
  lemma TrailingIgnored(w: seq<byte>, trailing: seq<byte>)
    requires |w| == SIZE
    ensures Parsed(w + trailing) == Parsed(w)
  {
    var t := w + trailing;
    assert forall o: nat, n: nat {:trigger Get(t, o, n)} :: o + n <= SIZE ==> Get(t, o, n) == Get(w, o, n);
  }

  /** e is exactly the event of a handler run with this header and payload: every
      field it should have, an absent one standing for 0, and no other. */
  ghost predicate Tells(e: Event, h: Header, p: Payload) {
    && e.pid == h.pid && e.timestamp == h.ts && e.probeId == h.probeId
    && "comm" in e.fields && e.fields["comm"] == Text(CString(h.comm))
    && e.tag == (match p case Args(_, _) => "UPROBE" case Pair(_, _) => "UPROBE_PAIR" case Return(_) => "URETPROBE")
    && Number(e.fields, "arg0") == (if p.Args? then p.arg0 else 0)
    && Number(e.fields, "arg1") == (if p.Args? then p.arg1 else 0)
    && Number(e.fields, "latency_ns") == (if p.Pair? then p.latency else 0)
    && Number(e.fields, "retval") == (if p.Args? then 0 else Signed(p.rc))
    && e.fields.Keys <= {"comm", "arg0", "arg1", "latency_ns", "retval"}
    && ("retval" in e.fields <==> !p.Args? && p.rc != 0)
    && ("latency_ns" in e.fields <==> p.Pair? && p.latency != 0)
    && ("arg0" in e.fields <==> p.Args?) && ("arg1" in e.fields <==> p.Args?)
  }

  /** Whatever the reserved memory held, decoding what the handler wrote gives back
      exactly what it was given. */
  lemma RoundTrip(r: seq<byte>, h: Header, p: Payload, trailing: seq<byte>)
    requires |r| == SIZE && h.Valid() && p.Valid() && Matches(h.probeId, p)
    ensures Parsed(Record(r, h, p) + trailing).Some?
    ensures Tells(Parsed(Record(r, h, p) + trailing).value, h, p)
  {
    var w := Record(r, h, p);
    TrailingIgnored(w, trailing);
    RecordFields(r, h, p);
    FieldsTell(CString(h.comm), U64At(w, 28), Signed(U64At(w, 20)), p.Args?, U64At(w, 56), U64At(w, 64));
  }

  /** Two reservations that differ only in old contents are decoded alike. */
  lemma StaleBytesDoNotMatter(r: seq<byte>, r': seq<byte>, h: Header, p: Payload)
    requires |r| == |r'| == SIZE && h.Valid() && p.Valid() && Matches(h.probeId, p)
    ensures Parsed(Record(r, h, p)) == Parsed(Record(r', h, p))
  {
    RecordFields(r, h, p);
    RecordFields(r', h, p);
  }

  /** The signed value the decoder shows has the bits of the register. */
  lemma SignedBits(rc: nat)
    requires rc < TWO64
    ensures -0x8000_0000_0000_0000 <= Signed(rc) < 0x8000_0000_0000_0000 && Bits(Signed(rc)) == rc
  {
  }
}
