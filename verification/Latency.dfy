/** The syscall latency engine of bpf/latency.bpf.c as a state machine: every
    helper call is one atomic step, and steps of different threads interleave in
    any order. */
module Latency {
  import opened Bpf
  import Log2

  const MAX_ENTRIES: nat := 10240
  const MAX_BUCKETS: nat := Log2.MAX_BUCKETS

  datatype Config = Config(targetPid: nat, targetSyscall: nat)

  /** Where a thread stands. Between EnterClock and EnterUpdate it runs
      handle_enter, from ExitLookup on it runs handle_exit; each constructor is
      named after the helper call that comes next. */
  datatype Pc =
    | Idle
    | InCall
    | EnterClock
    | EnterUpdate(ts: nat)
    | ExitLookup
    | ExitClock(cell: nat)
    | ExitRead(cell: nat, now: nat)
    | ExitDelete(cell: nat, now: nat, duration: nat)
    | ExitBucket(cell: nat, now: nat, duration: nat)
    | ExitAdd(cell: nat, now: nat, bucket: nat)
    | ExitInit(cell: nat, now: nat, bucket: nat)  // the fallback when the bucket lookup is NULL
  {
    predicate Entering() { EnterClock? || EnterUpdate? }
    predicate Exiting() { !Idle? && !InCall? && !Entering() }
    predicate HoldsEntry() { ExitClock? || ExitRead? || ExitDelete? }
    predicate Deleted() { ExitBucket? || ExitAdd? || ExitInit? }
  }

  datatype Insert = Untried | Stored | Refused

  /** One system call of a thread: its number, the clock value its handle_enter
      read, what became of the insert, whether handle_exit was attached when it
      returned, the clock value handle_exit read, and the sample it added. */
  datatype Call = Call(nr: nat, entered: Option<nat>, insert: Insert, hooked: bool,
                       exited: Option<nat>, counted: Option<nat>)

  datatype Thread = Thread(pid: nat, pc: Pc, calls: seq<Call>)

  /** One histogram increment: the call whose timestamp it consumed, the call whose
      exit made it (both as positions in the thread's calls) and the two times. */
  datatype Sample = Sample(tid: nat, entryCall: nat, exitCall: nat, start: nat, end: nat, bucket: nat)

  /** `origin[c]` is the call that allocated timestamp cell c. It, the samples and
      the three counters are history that no handler reads. */
  datatype State = State(
    enterOn: bool, exitOn: bool, clock: nat,
    entryTimes: HashMap, histogram: seq<nat>, threads: map<nat, Thread>,
    origin: seq<nat>, samples: seq<Sample>,
    admitted: nat, overwritten: nat, refused: nat)

  datatype Action =
    | AttachEnter
    | AttachExit            // only after sys_enter
    | Tick(d: nat)
    | SysEnter(tid: nat, id: int)
    | SysExit(tid: nat)
    | Step(tid: nat)        // the next helper call of the handler the thread is in

  function Loaded(pids: map<nat, nat>): State {
    State(false, false, 0, EMPTY_MAP, seq(MAX_BUCKETS, i => 0),
          map t | t in pids :: Thread(pids[t], Idle, []), [], [], 0, 0, 0)
  }

  predicate Admits(cfg: Config, pid: nat) {
    cfg.targetPid == 0 || pid == cfg.targetPid
  }

  // ---- the steps ----

  /** Thread t goes to `pc` and its current call becomes `call`. */
  function Now(s: State, t: nat, pc: Pc, call: Call): State
    requires t in s.threads && s.threads[t].calls != []
  {
    var th := s.threads[t];
    s.(threads := s.threads[t := Thread(th.pid, pc, th.calls[|th.calls| - 1 := call])])
  }

  function Current(s: State, t: nat): Call
    requires t in s.threads && s.threads[t].calls != []
  {
    s.threads[t].calls[|s.threads[t].calls| - 1]
  }

  function EnterCall(cfg: Config, s: State, t: nat, nr: nat): State
    requires t in s.threads
  {
    var th := s.threads[t];
    var hit := s.enterOn && Admits(cfg, th.pid) && nr == cfg.targetSyscall;
    s.(threads := s.threads[t := Thread(th.pid, if hit then EnterClock else InCall,
                                        th.calls + [Call(nr, None, Untried, false, None, None)])],
       admitted := s.admitted + if hit then 1 else 0)
  }

  function LeaveCall(cfg: Config, s: State, t: nat): State
    requires t in s.threads && s.threads[t].calls != []
  {
    var hooked := s.exitOn && Admits(cfg, s.threads[t].pid);
    Now(s, t, if hooked then ExitLookup else Idle, Current(s, t).(hooked := hooked))
  }

  function StoreEntry(s: State, t: nat, ts: nat): State
    requires t in s.threads && s.threads[t].calls != []
  {
    if s.entryTimes.Accepts(t, MAX_ENTRIES) then
      Now(s, t, InCall, Current(s, t).(insert := Stored)).(
        entryTimes := s.entryTimes.Update(t, ts, MAX_ENTRIES),
        origin := s.origin + [|s.threads[t].calls| - 1],
        overwritten := s.overwritten + if t in s.entryTimes.index then 1 else 0)
    else
      Now(s, t, InCall, Current(s, t).(insert := Refused)).(refused := s.refused + 1)
  }

  function DeleteEntry(s: State, t: nat, cell: nat, now: nat, duration: nat): State
    requires t in s.threads && s.threads[t].calls != []
  {
    Now(s, t, ExitBucket(cell, now, duration), Current(s, t)).(entryTimes := s.entryTimes.Delete(t))
  }

  function AddSample(s: State, t: nat, cell: nat, now: nat, bucket: nat): State
    requires t in s.threads && s.threads[t].calls != []
    requires bucket < |s.histogram| && cell < |s.origin| && cell < |s.entryTimes.cells|
  {
    Now(s, t, Idle, Current(s, t).(counted := Some(|s.samples|))).(
      histogram := s.histogram[bucket := s.histogram[bucket] + 1],
      samples := s.samples + [Sample(t, s.origin[cell], |s.threads[t].calls| - 1,
                                     s.entryTimes.cells[cell], now, bucket)])
  }

  /** The helper call thread t makes next inside its handler. */
  function Helper(s: State, t: nat): State
    requires t in s.threads
  {
    if s.threads[t].calls == [] then s else
    var call := Current(s, t);
    match s.threads[t].pc
    case Idle => s
    case InCall => s
    case EnterClock => Now(s, t, EnterUpdate(s.clock), call.(entered := Some(s.clock)))
    case EnterUpdate(ts) => StoreEntry(s, t, ts)
    case ExitLookup =>
      var found := s.entryTimes.Lookup(t);
      Now(s, t, if found.Some? then ExitClock(found.value) else Idle, call)
    case ExitClock(cell) => Now(s, t, ExitRead(cell, s.clock), call.(exited := Some(s.clock)))
    case ExitRead(cell, now) =>
      if cell >= |s.entryTimes.cells| then s
      else Now(s, t, ExitDelete(cell, now, (now - s.entryTimes.cells[cell]) % TWO64), call)
    case ExitDelete(cell, now, duration) =>
      DeleteEntry(s, t, cell, now, duration)
    case ExitBucket(cell, now, duration) =>
      var bucket := Log2.Bucket(duration);
      Now(s, t, if bucket < |s.histogram| then ExitAdd(cell, now, bucket) else ExitInit(cell, now, bucket), call)
    case ExitAdd(cell, now, bucket) =>
      if bucket < |s.histogram| && cell < |s.origin| && cell < |s.entryTimes.cells|
      then AddSample(s, t, cell, now, bucket) else s
    case ExitInit(cell, now, bucket) => Now(s, t, Idle, call)  // an array refuses an index past its end
  }

  /** One step; an action that is not enabled changes nothing. The clock never
      runs backwards and stays a u64. */
  function Next(cfg: Config, s: State, a: Action): State {
    match a
    case AttachEnter => s.(enterOn := true)
    case AttachExit => s.(exitOn := s.enterOn)
    case Tick(d) => if s.clock + d < TWO64 then s.(clock := s.clock + d) else s
    case SysEnter(t, id) =>
      if t in s.threads && s.threads[t].pc.Idle? then EnterCall(cfg, s, t, id % TWO32) else s
    case SysExit(t) =>
      if t in s.threads && s.threads[t].pc.InCall? && s.threads[t].calls != [] then LeaveCall(cfg, s, t) else s
    case Step(t) => if t in s.threads then Helper(s, t) else s
  }

  function Run(cfg: Config, s: State, schedule: seq<Action>): State
    decreases schedule
  {
    if schedule == [] then s else Run(cfg, Next(cfg, s, schedule[0]), schedule[1..])
  }

  lemma RunCons(cfg: Config, s: State, a: Action, rest: seq<Action>)
    ensures Run(cfg, s, [a] + rest) == Run(cfg, Next(cfg, s, a), rest)
  {
    assert ([a] + rest)[1..] == rest;
  }

  lemma {:induction false} RunConcat(cfg: Config, s: State, first: seq<Action>, second: seq<Action>)
    ensures Run(cfg, s, first + second) == Run(cfg, Run(cfg, s, first), second)
    decreases first
  {
    if first == [] {
      assert first + second == second;
    } else {
      assert (first + second)[1..] == first[1..] + second;
      RunConcat(cfg, Next(cfg, s, first[0]), first[1..], second);
    }
  }
}
