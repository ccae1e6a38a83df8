/** The uprobe programs of bpf/uprobe.bpf.c as a state machine: handlers of
    different threads interleave at helper calls, traced functions may recurse, and
    records travel through a ring buffer to one consumer. */
module Uprobe {
  import opened Bpf
  import opened Wire
  import opened UprobeWire

  const MAX_ENTRIES: nat := 10240

  datatype Kind = EntryOnly | EntryExit | ReturnOnly

  datatype Config = Config(kind: Kind, targetPid: nat, probeId: nat)

  /** Where a thread stands. PairClock and PairUpdate are inside
      handle_uprobe_pair_entry, PairLookup to PairDelete inside the first half of
      handle_uprobe_pair_exit; the rest is shared by every handler that emits. Each
      constructor is named after what comes next. */
  datatype Pc =
    | User
    | PairClock
    | PairUpdate(ts: nat)
    | PairLookup(call: nat, rc: nat)
    | PairNow(call: nat, rc: nat, cell: nat)      // read the clock and the cell
    | PairDelete(call: nat, rc: nat, latency: nat)
    | Reserve(call: nat, out: Payload)
    | Drop(call: nat, out: Payload)               // reserve returned NULL: count it
    | Fill(call: nat, out: Payload, slot: nat)
    | Submit(call: nat, out: Payload, slot: nat)
  {
    predicate Entering() { PairClock? || PairUpdate? }
    predicate Emitting() { Reserve? || Drop? || Fill? || Submit? }
    predicate Matching() { PairLookup? || PairNow? || PairDelete? }
    predicate InFlight() { Fill? || Submit? }
  }

  datatype Insert = Untried | Stored | Refused
  datatype Outcome = Silent | Dropped | Reported(slot: nat)

  /** One call of the traced function. `seen`: the entry program ran on it. `hooked`:
      its return will be seen, because the return program was attached when it was
      entered (a return probe cannot catch an invocation already under way).
      `inner`: another traced call began inside it. `entered` and `exited` are the
      clock values its own handlers read. */
  datatype Call = Call(arg0: nat, arg1: nat, seen: bool, hooked: bool, inner: bool,
                       entered: Option<nat>, insert: Insert,
                       rc: Option<nat>, exited: Option<nat>, outcome: Outcome)

  /** `stack` lists the open calls, outermost first. */
  datatype Thread = Thread(pid: nat, pc: Pc, calls: seq<Call>, stack: seq<nat>)

  /** A ring-buffer record: its bytes, and as history what they held when reserved,
      who reserved them, for which call, and with which header they were filled. */
  datatype Slot = Slot(raw: seq<byte>, committed: bool,
                       stale: seq<byte>, tid: nat, call: nat, out: Payload, header: Option<Header>)

  datatype State = State(
    entryOn: bool, exitOn: bool, clock: nat,
    entryTs: HashMap, threads: map<nat, Thread>,
    ring: seq<Slot>, consumed: nat, dropCount: nat,
    origin: seq<nat>, attempts: nat)

  datatype Action =
    | AttachEntry
    | AttachExit
    | Tick(d: nat)
    | FnEnter(tid: nat, arg0: nat, arg1: nat)
    | FnExit(tid: nat, rc: nat)
    /** The next helper call of the handler tid is in: whether the ring has room, what
        the reserved bytes hold, and the comm buffer the kernel fills. */
    | Step(tid: nat, room: bool, stale: seq<byte>, comm: seq<byte>)
    | Consume

  function Loaded(pids: map<nat, nat>): State {
    State(false, false, 0, EMPTY_MAP, map t | t in pids :: Thread(pids[t], User, [], []), [], 0, 0, [], 0)
  }

  predicate Admits(cfg: Config, pid: nat) {
    cfg.targetPid == 0 || pid == cfg.targetPid
  }

  // ---- the steps ----

  function With(s: State, t: nat, th: Thread): State {
    s.(threads := s.threads[t := th])
  }

  /** Thread t goes to `pc` and its call c becomes `call`. */
  function Now(s: State, t: nat, pc: Pc, c: nat, call: Call): State
    requires t in s.threads && c < |s.threads[t].calls|
  {
    var th := s.threads[t];
    With(s, t, th.(pc := pc, calls := th.calls[c := call]))
  }

  function Top(th: Thread): nat
    requires th.stack != []
  {
    th.stack[|th.stack| - 1]
  }

  /** The enclosing open call is no leaf. */
  function MarkInner(th: Thread): seq<Call> {
    if th.stack != [] && Top(th) < |th.calls|
    then th.calls[Top(th) := th.calls[Top(th)].(inner := true)] else th.calls
  }

  function Enter(cfg: Config, s: State, t: nat, arg0: nat, arg1: nat): State
    requires t in s.threads
  {
    var th := s.threads[t];
    var c := |th.calls|;
    var seen := s.entryOn && Admits(cfg, th.pid);
    var call := Call(arg0, arg1, seen, s.exitOn, false, None, Untried, None, None, Silent);
    var pc := if !seen then User else if cfg.kind.EntryExit? then PairClock else Reserve(c, Args(arg0, arg1));
    With(s, t, th.(pc := pc, calls := MarkInner(th) + [call], stack := th.stack + [c]))
  }

  function Leave(cfg: Config, s: State, t: nat, rc: nat): State
    requires t in s.threads && s.threads[t].stack != [] && Top(s.threads[t]) < |s.threads[t].calls|
  {
    var th := s.threads[t];
    var c := Top(th);
    var pc := if !(th.calls[c].hooked && Admits(cfg, th.pid)) then User
              else if cfg.kind.EntryExit? then PairLookup(c, rc) else Reserve(c, Return(rc));
    With(s, t, th.(pc := pc, calls := th.calls[c := th.calls[c].(rc := Some(rc))], stack := th.stack[..|th.stack| - 1]))
  }

  function StoreEntry(s: State, t: nat, ts: nat): State
    requires t in s.threads && s.threads[t].stack != [] && Top(s.threads[t]) < |s.threads[t].calls|
  {
    var c := Top(s.threads[t]);
    var call := s.threads[t].calls[c];
    if s.entryTs.Accepts(t, MAX_ENTRIES) then
      Now(s, t, User, c, call.(insert := Stored)).(
        entryTs := s.entryTs.Update(t, ts, MAX_ENTRIES), origin := s.origin + [c])
    else
      Now(s, t, User, c, call.(insert := Refused))
  }

  function ReserveSlot(s: State, t: nat, call: nat, out: Payload, room: bool, stale: seq<byte>): State
    requires t in s.threads && call < |s.threads[t].calls|
  {
    var c := s.threads[t].calls[call];
    if room then
      Now(s, t, Fill(call, out, |s.ring|), call, c.(outcome := Reported(|s.ring|))).(
        ring := s.ring + [Slot(stale, false, stale, t, call, out, None)], attempts := s.attempts + 1)
    else
      Now(s, t, Drop(call, out), call, c).(attempts := s.attempts + 1)
  }

  function FillSlot(cfg: Config, s: State, t: nat, pc: Pc, comm: seq<byte>): State
    requires t in s.threads && pc.Fill? && pc.slot < |s.ring|
  {
    var slot := s.ring[pc.slot];
    var h := Header(s.clock, s.threads[t].pid, t, cfg.probeId, comm);
    if !h.Valid() || |slot.raw| != SIZE || !pc.out.Valid() then s else
    With(s, t, s.threads[t].(pc := Submit(pc.call, pc.out, pc.slot))).(
      ring := s.ring[pc.slot := slot.(raw := Record(slot.raw, h, pc.out), header := Some(h))])
  }

  function CommitSlot(s: State, t: nat, k: nat): State
    requires t in s.threads && k < |s.ring|
  {
    With(s, t, s.threads[t].(pc := User)).(ring := s.ring[k := s.ring[k].(committed := true)])
  }

  /** The helper call thread t makes next inside its handler. */
  function Helper(cfg: Config, s: State, t: nat, room: bool, stale: seq<byte>, comm: seq<byte>): State
    requires t in s.threads
  {
    var th := s.threads[t];
    var n := |th.calls|;
    match th.pc
    case User => s
    case PairClock =>
      if th.stack != [] && Top(th) < n
      then Now(s, t, PairUpdate(s.clock), Top(th), th.calls[Top(th)].(entered := Some(s.clock))) else s
    case PairUpdate(ts) =>
      if th.stack != [] && Top(th) < n then StoreEntry(s, t, ts) else s
    case PairLookup(c, rc) =>
      var found := s.entryTs.Lookup(t);
      With(s, t, th.(pc := if found.Some? then PairNow(c, rc, found.value) else User))
    case PairNow(c, rc, cell) =>
      if c < n && cell < |s.entryTs.cells|
      then Now(s, t, PairDelete(c, rc, (s.clock - s.entryTs.cells[cell]) % TWO64), c,
               th.calls[c].(exited := Some(s.clock)))
      else s
    case PairDelete(c, rc, latency) =>
      With(s, t, th.(pc := Reserve(c, Pair(latency, rc)))).(entryTs := s.entryTs.Delete(t))
    case Reserve(c, out) =>
      if c < n && |stale| == SIZE then ReserveSlot(s, t, c, out, room, stale) else s
    case Drop(c, out) =>
      if c < n then Now(s, t, User, c, th.calls[c].(outcome := Dropped)).(dropCount := s.dropCount + 1) else s
    case Fill(_, _, k) => if k < |s.ring| then FillSlot(cfg, s, t, th.pc, comm) else s
    case Submit(_, _, k) => if k < |s.ring| then CommitSlot(s, t, k) else s
  }

  /** One step; an action that is not enabled changes nothing. */
  function Next(cfg: Config, s: State, a: Action): State {
    match a
    case AttachEntry => if cfg.kind.ReturnOnly? then s else s.(entryOn := true)
    case AttachExit =>
      if cfg.kind.ReturnOnly? || (cfg.kind.EntryExit? && s.entryOn) then s.(exitOn := true) else s
    case Tick(d) => if s.clock + d < TWO64 then s.(clock := s.clock + d) else s
    case FnEnter(t, arg0, arg1) =>
      if t in s.threads && s.threads[t].pc.User? then Enter(cfg, s, t, arg0 % TWO64, arg1 % TWO64) else s
    case FnExit(t, rc) =>
      if t in s.threads && s.threads[t].pc.User? && s.threads[t].stack != [] && Top(s.threads[t]) < |s.threads[t].calls|
      then Leave(cfg, s, t, rc % TWO64) else s
    case Step(t, room, stale, comm) => if t in s.threads then Helper(cfg, s, t, room, stale, comm) else s
    case Consume =>
      if s.consumed < |s.ring| && s.ring[s.consumed].committed then s.(consumed := s.consumed + 1) else s
  }

  function Run(cfg: Config, s: State, schedule: seq<Action>): State
    decreases schedule
  {
    if schedule == [] then s else Run(cfg, Next(cfg, s, schedule[0]), schedule[1..])
  }

  lemma RunCons(cfg: Config, s: State, a: Action, rest: seq<Action>)
    ensures Run(cfg, s, [a] + rest) == Run(cfg, Next(cfg, s, a), rest)
  {
    assert ([a] + rest)[1..] == rest;
  }

  lemma {:induction false} RunConcat(cfg: Config, s: State, first: seq<Action>, second: seq<Action>)
    ensures Run(cfg, s, first + second) == Run(cfg, Run(cfg, s, first), second)
    decreases first
  {
    if first == [] {
      assert first + second == second;
    } else {
      assert (first + second)[1..] == first[1..] + second;
      RunConcat(cfg, Next(cfg, s, first[0]), first[1..], second);
    }
  }
}
