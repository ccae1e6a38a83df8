/** The lookup-or-initialise counter of bpf/syscall_counter.bpf.c. */
module SyscallCounter {
  import opened Bpf
  import Pool

  const MAX_ENTRIES: nat := 512

  /** Where a thread stands inside count_syscalls. */
  datatype Pc =
    | Outside
    | Add(nr: nat, cell: nat)  // the lookup hit: about to fetch-and-add
    | Init(nr: nat)            // the lookup missed: about to store 1

  /** `counts` is the shared map. The rest is history that no handler reads:
      `owner[c]` is the key cell c was allocated for, `hits` the handler runs that
      passed the pid filter, `misses` those whose lookup found nothing, `refused`
      the stores a full map turned down, and `lost` the increments that went, or
      had gone, into a cell that is no longer the key's. */
  datatype State = State(
    counts: HashMap, pcs: map<nat, Pc>, owner: seq<nat>,
    hits: multiset<nat>, misses: multiset<nat>, refused: multiset<nat>, lost: multiset<nat>)

  datatype Action =
    | Hit(tid: nat, pid: nat, id: int)  // sys_enter fires: filter, then lookup
    | Step(tid: nat)                    // the one helper call that follows

  function Init0(tids: set<nat>): State {
    State(EMPTY_MAP, map t | t in tids :: Outside, [], multiset{}, multiset{}, multiset{}, multiset{})
  }

  predicate Admits(targetPid: nat, pid: nat) {
    targetPid == 0 || pid == targetPid
  }

  function Visible(s: State, nr: nat): nat {
    if nr in s.counts.index && s.counts.index[nr] < |s.counts.cells|
    then s.counts.cells[s.counts.index[nr]] else 0
  }

  /** The filter, then bpf_map_lookup_elem. */
  function Look(s: State, t: nat, nr: nat): State {
    var hits := s.hits + multiset{nr};
    var found := s.counts.Lookup(nr);
    if found.Some? then s.(hits := hits, pcs := s.pcs[t := Add(nr, found.value)])
    else s.(hits := hits, misses := s.misses + multiset{nr}, pcs := s.pcs[t := Init(nr)])
  }

  /** __sync_fetch_and_add through the pointer the lookup returned. */
  function Bump(s: State, t: nat, nr: nat, cell: nat): State
    requires cell < |s.counts.cells|
  {
    s.(counts := s.counts.FetchAdd(cell), pcs := s.pcs[t := Outside],
       lost := if s.counts.Lookup(nr) == Some(cell) then s.lost else s.lost + multiset{nr})
  }

  /** bpf_map_update_elem with the value 1. */
  function Store(s: State, t: nat, nr: nat): State {
    if s.counts.Accepts(nr, MAX_ENTRIES) then
      s.(counts := s.counts.Update(nr, 1, MAX_ENTRIES), owner := s.owner + [nr],
         pcs := s.pcs[t := Outside], lost := s.lost[nr := s.lost[nr] + Visible(s, nr)])
    else
      s.(refused := s.refused + multiset{nr}, pcs := s.pcs[t := Outside])
  }

  /** One atomic step; an action that is not enabled changes nothing. */
  function Next(targetPid: nat, s: State, a: Action): State {
    if a.tid !in s.pcs then s
    else if a.Hit? then
      if s.pcs[a.tid].Outside? && Admits(targetPid, a.pid) then Look(s, a.tid, a.id % TWO32) else s
    else
      match s.pcs[a.tid]
      case Outside => s
      case Add(nr, cell) => if cell < |s.counts.cells| then Bump(s, a.tid, nr, cell) else s
      case Init(nr) => Store(s, a.tid, nr)
  }

  function Run(targetPid: nat, s: State, schedule: seq<Action>): State
    decreases schedule
  {
    if schedule == [] then s else Run(targetPid, Next(targetPid, s, schedule[0]), schedule[1..])
  }

  lemma {:induction false} RunConcat(targetPid: nat, s: State, first: seq<Action>, second: seq<Action>)
    ensures Run(targetPid, s, first + second) == Run(targetPid, Run(targetPid, s, first), second)
    decreases first
  {
    if first == [] {
      assert first + second == second;
    } else {
      assert (first + second)[1..] == first[1..] + second;
      RunConcat(targetPid, Next(targetPid, s, first[0]), first[1..], second);
    }
  }

  // ---- what every step keeps ----

  function On(nr: nat): Pc -> bool { (p: Pc) => !p.Outside? && p.nr == nr }
  function Missing(nr: nat): Pc -> bool { (p: Pc) => p.Init? && p.nr == nr }

  ghost function Pending(s: State, nr: nat): nat { Pool.Count(s.pcs, On(nr)) }
  ghost function PendingInit(s: State, nr: nat): nat { Pool.Count(s.pcs, Missing(nr)) }

  ghost predicate Cells(s: State) {
    var m := s.counts;
    && m.Valid() && |m.index| <= MAX_ENTRIES && |s.owner| == |m.cells|
    && (forall c :: 0 <= c < |m.cells| ==> m.cells[c] >= 1)
    && (forall k :: k in m.index ==> s.owner[m.index[k]] == k)
    && (forall t :: t in s.pcs && s.pcs[t].Add? ==>
          s.pcs[t].cell < |m.cells| && s.owner[s.pcs[t].cell] == s.pcs[t].nr && s.pcs[t].nr in m.index)
  }

  ghost predicate NoDeadPointer(s: State, nr: nat) {
    forall t :: t in s.pcs && s.pcs[t].Add? && s.pcs[t].nr == nr ==>
      s.counts.Lookup(nr) == Some(s.pcs[t].cell)
  }

  /** The books for one syscall number. */
  ghost predicate Books(s: State, nr: nat) {
    && s.hits[nr] == Visible(s, nr) + s.lost[nr] + s.refused[nr] + Pending(s, nr)
    && (nr !in s.counts.index ==>
          && s.lost[nr] == 0 && s.misses[nr] == s.refused[nr] + PendingInit(s, nr)
          && Pending(s, nr) == PendingInit(s, nr))
    && (nr in s.counts.index ==>
          && s.refused[nr] == 0
          && s.misses[nr] >= PendingInit(s, nr) + 1
          && s.lost[nr] >= s.misses[nr] - PendingInit(s, nr) - 1
          && (s.misses[nr] == 1 ==> s.lost[nr] == 0 && NoDeadPointer(s, nr)))
    && (s.refused[nr] > 0 ==> |s.counts.index| == MAX_ENTRIES)
  }

  ghost predicate Inv(s: State) {
    && Cells(s)
    && forall nr :: 0 <= nr ==> Books(s, nr)
  }

  lemma InitInv(tids: set<nat>)
    ensures Inv(Init0(tids))
  {
    var s := Init0(tids);
    forall nr | 0 <= nr ensures Books(s, nr) {
      Pool.Nobody(s.pcs, On(nr));
      Pool.Nobody(s.pcs, Missing(nr));
    }
  }

  /** How the two populations of `nr` move when thread t goes to `p`. */
  lemma Counted(s: State, t: nat, p: Pc, nr: nat)
    requires t in s.pcs
    ensures Pool.Count(s.pcs[t := p], On(nr))
         == Pending(s, nr) - (if On(nr)(s.pcs[t]) then 1 else 0) + (if On(nr)(p) then 1 else 0)
    ensures Pool.Count(s.pcs[t := p], Missing(nr))
         == PendingInit(s, nr) - (if Missing(nr)(s.pcs[t]) then 1 else 0) + (if Missing(nr)(p) then 1 else 0)
    ensures On(nr)(s.pcs[t]) ==> Pending(s, nr) >= 1
    ensures Missing(nr)(s.pcs[t]) ==> PendingInit(s, nr) >= 1
  {
    Pool.Moved(s.pcs, t, p, On(nr));
    Pool.Moved(s.pcs, t, p, Missing(nr));
    if On(nr)(s.pcs[t]) { Pool.Positive(s.pcs, t, On(nr)); }
    if Missing(nr)(s.pcs[t]) { Pool.Positive(s.pcs, t, Missing(nr)); }
  }

  lemma LookKeeps(s: State, t: nat, nr: nat)
    requires Inv(s) && t in s.pcs && s.pcs[t].Outside?
    ensures Inv(Look(s, t, nr))
  {
    forall k | 0 <= k ensures Books(Look(s, t, nr), k) {
      if k == nr { LookOwn(s, t, nr); } else { LookOther(s, t, nr, k); }
    }
  }

  lemma LookOwn(s: State, t: nat, nr: nat)
    requires Cells(s) && Books(s, nr) && t in s.pcs && s.pcs[t].Outside?
    ensures Books(Look(s, t, nr), nr)
  {
    Counted(s, t, Look(s, t, nr).pcs[t], nr);
  }

  lemma LookOther(s: State, t: nat, nr: nat, k: nat)
    requires Cells(s) && Books(s, k) && t in s.pcs && s.pcs[t].Outside? && k != nr
    ensures Books(Look(s, t, nr), k)
  {
    Counted(s, t, Look(s, t, nr).pcs[t], k);
    SameBooks(s, Look(s, t, nr), k);
  }

  /** Nothing about number k changed. */
  ghost predicate SameFor(s: State, s': State, k: nat) {
    && s'.hits[k] == s.hits[k] && s'.misses[k] == s.misses[k]
    && s'.refused[k] == s.refused[k] && s'.lost[k] == s.lost[k]
    && Visible(s', k) == Visible(s, k) && (k in s'.counts.index <==> k in s.counts.index)
    && Pending(s', k) == Pending(s, k) && PendingInit(s', k) == PendingInit(s, k)
    && |s.counts.index| <= |s'.counts.index| <= MAX_ENTRIES
    && (NoDeadPointer(s, k) ==> NoDeadPointer(s', k))
  }

  lemma SameBooks(s: State, s': State, k: nat)
    requires Books(s, k) && SameFor(s, s', k)
    ensures Books(s', k)
  {
  }

  lemma BumpKeeps(s: State, t: nat, nr: nat, cell: nat)
    requires Inv(s) && t in s.pcs && s.pcs[t] == Add(nr, cell)
    ensures cell < |s.counts.cells| && Inv(Bump(s, t, nr, cell))
  {
    forall k | 0 <= k ensures Books(Bump(s, t, nr, cell), k) {
      if k == nr { BumpOwn(s, t, nr, cell); } else { BumpOther(s, t, nr, cell, k); }
    }
  }

  lemma BumpOwn(s: State, t: nat, nr: nat, cell: nat)
    requires Cells(s) && Books(s, nr) && t in s.pcs && s.pcs[t] == Add(nr, cell)
    ensures Books(Bump(s, t, nr, cell), nr)
  {
    Counted(s, t, Outside, nr);
  }

  lemma BumpOther(s: State, t: nat, nr: nat, cell: nat, k: nat)
    requires Cells(s) && Books(s, k) && t in s.pcs && s.pcs[t] == Add(nr, cell) && k != nr
    ensures Books(Bump(s, t, nr, cell), k)
  {
    Counted(s, t, Outside, k);
    SameBooks(s, Bump(s, t, nr, cell), k);
  }

  lemma StoreKeeps(s: State, t: nat, nr: nat)
    requires Inv(s) && t in s.pcs && s.pcs[t] == Init(nr)
    ensures Inv(Store(s, t, nr))
  {
    StoreCells(s, t, nr);
    forall k | 0 <= k ensures Books(Store(s, t, nr), k) {
      if k == nr { StoreOwn(s, t, nr); } else { StoreOther(s, t, nr, k); }
    }
  }

  lemma StoreCells(s: State, t: nat, nr: nat)
    requires Cells(s) && t in s.pcs && s.pcs[t] == Init(nr)
    ensures Cells(Store(s, t, nr))
  {
    if s.counts.Accepts(nr, MAX_ENTRIES) {
      NewCell(s, Store(s, t, nr), t, nr);
    } else {
      assert Store(s, t, nr).counts == s.counts && Store(s, t, nr).owner == s.owner;
    }
  }

  /** Giving nr a fresh cell that holds 1. */
  lemma NewCell(s: State, s': State, t: nat, nr: nat)
    requires Cells(s) && t in s.pcs
    requires s'.counts.Valid() && |s'.counts.index| <= MAX_ENTRIES
    requires s'.counts == HashMap(s.counts.index[nr := |s.counts.cells|], s.counts.cells + [1])
    requires s'.owner == s.owner + [nr] && s'.pcs == s.pcs[t := Outside]
    ensures Cells(s')
  {
    NewOwner(s, s', nr);
    forall u | u in s'.pcs && s'.pcs[u].Add?
      ensures s'.pcs[u].cell < |s'.counts.cells|
      ensures s'.owner[s'.pcs[u].cell] == s'.pcs[u].nr && s'.pcs[u].nr in s'.counts.index
    {
      assert s'.pcs[u] == s.pcs[u];
    }
  }

  lemma NewOwner(s: State, s': State, nr: nat)
    requires Cells(s)
    requires s'.counts == HashMap(s.counts.index[nr := |s.counts.cells|], s.counts.cells + [1])
    requires s'.owner == s.owner + [nr]
    ensures |s'.owner| == |s'.counts.cells|
    ensures forall k :: k in s'.counts.index ==>
      s'.counts.index[k] < |s'.owner| && s'.owner[s'.counts.index[k]] == k
  {
  }

  lemma StoreOwn(s: State, t: nat, nr: nat)
    requires Cells(s) && Books(s, nr) && t in s.pcs && s.pcs[t] == Init(nr)
    ensures Books(Store(s, t, nr), nr)
  {
    Counted(s, t, Outside, nr);
    if nr in s.counts.index {
      assert s.misses[nr] >= 2;
    }
  }

  lemma StoreOther(s: State, t: nat, nr: nat, k: nat)
    requires Cells(s) && Books(s, k) && t in s.pcs && s.pcs[t] == Init(nr) && k != nr
    ensures Books(Store(s, t, nr), k)
  {
    Counted(s, t, Outside, k);
    StoreKeepsOther(s, t, nr, k);
    SameBooks(s, Store(s, t, nr), k);
  }

  lemma StoreKeepsOther(s: State, t: nat, nr: nat, k: nat)
    requires Cells(s) && t in s.pcs && s.pcs[t] == Init(nr) && k != nr
    ensures var s' := Store(s, t, nr);
      && Visible(s', k) == Visible(s, k) && s'.counts.Lookup(k) == s.counts.Lookup(k)
      && |s.counts.index| <= |s'.counts.index| <= MAX_ENTRIES
  {
    var s' := Store(s, t, nr);
    if s.counts.Accepts(nr, MAX_ENTRIES) {
      assert s'.counts.index == s.counts.index[nr := |s.counts.cells|];
      assert s'.counts.index.Keys == s.counts.index.Keys + {nr};
    }
  }

  lemma {:induction false} RunKeeps(targetPid: nat, s: State, schedule: seq<Action>)
    requires Inv(s)
    ensures Inv(Run(targetPid, s, schedule))
    decreases schedule
  {
    if schedule == [] {
    } else {
      NextKeeps(targetPid, s, schedule[0]);
      RunKeeps(targetPid, Next(targetPid, s, schedule[0]), schedule[1..]);
    }
  }

  lemma NextKeeps(targetPid: nat, s: State, a: Action)
    requires Inv(s)
    ensures Inv(Next(targetPid, s, a))
  {
    if a.tid in s.pcs {
      if a.Hit? && s.pcs[a.tid].Outside? {
        LookKeeps(s, a.tid, a.id % TWO32);
      } else if a.Step? {
        match s.pcs[a.tid]
        case Outside =>
        case Add(nr, cell) => BumpKeeps(s, a.tid, nr, cell);
        case Init(nr) => StoreKeeps(s, a.tid, nr);
      }
    }
  }

  // ---- the results ----

  /** In every reachable state no count exceeds the hits, the map respects its
      bound, and every hit is visible, lost, refused or still in a handler. */
  lemma NeverOvercounts(targetPid: nat, tids: set<nat>, schedule: seq<Action>, nr: nat)
    ensures var s := Run(targetPid, Init0(tids), schedule);
      && Visible(s, nr) <= s.hits[nr]
      && s.hits[nr] == Visible(s, nr) + s.lost[nr] + s.refused[nr] + Pending(s, nr)
      && |s.counts.index| <= MAX_ENTRIES
  {
    InitInv(tids);
    RunKeeps(targetPid, Init0(tids), schedule);
    assert Books(Run(targetPid, Init0(tids), schedule), nr);
  }

  /** Once no handler is working on `nr`, its count is exact if and only if the
      initialising branch was taken for it at most once and was never turned
      down: its first hit overlapped no other lookup miss and found room. */
  lemma ExactIff(targetPid: nat, tids: set<nat>, schedule: seq<Action>, nr: nat)
    ensures var s := Run(targetPid, Init0(tids), schedule);
      Pending(s, nr) == 0 ==>
        (Visible(s, nr) == s.hits[nr] <==> s.misses[nr] <= 1 && s.refused[nr] == 0)
  {
    InitInv(tids);
    RunKeeps(targetPid, Init0(tids), schedule);
    var s := Run(targetPid, Init0(tids), schedule);
    assert Books(s, nr);
    forall t | t in s.pcs && Pending(s, nr) == 0 ensures !Missing(nr)(s.pcs[t]) {
      if Missing(nr)(s.pcs[t]) { Pool.Positive(s.pcs, t, On(nr)); }
    }
    if Pending(s, nr) == 0 { Pool.Nobody(s.pcs, Missing(nr)); }
  }

  /** A key that made it into the map with a single miss is exact at every moment
      up to the increments still in flight; a refused key never gets in. */
  lemma ExactAfterLoneMiss(targetPid: nat, tids: set<nat>, schedule: seq<Action>, nr: nat)
    ensures var s := Run(targetPid, Init0(tids), schedule);
      && (nr in s.counts.index && s.misses[nr] == 1 ==>
            s.hits[nr] == Visible(s, nr) + Pending(s, nr))
      && (s.refused[nr] > 0 ==> nr !in s.counts.index && |s.counts.index| == MAX_ENTRIES)
  {
    InitInv(tids);
    RunKeeps(targetPid, Init0(tids), schedule);
    assert Books(Run(targetPid, Init0(tids), schedule), nr);
  }

  lemma RunStep(targetPid: nat, s: State, a: Action, rest: seq<Action>)
    ensures Run(targetPid, s, [a] + rest) == Run(targetPid, Next(targetPid, s, a), rest)
  {
    assert ([a] + rest)[1..] == rest;
  }

  // ---- whose calls are counted ----

  predicate IsTargetHit(targetPid: nat, s: State, a: Action, nr: nat) {
    && a.Hit? && a.tid in s.pcs && s.pcs[a.tid].Outside? && a.id % TWO32 == nr
    && (targetPid == 0 || a.pid == targetPid)
  }

  /** How often a schedule enters system call nr in the target process, in a thread that
      is not already in the handler. */
  function TargetHits(targetPid: nat, s: State, schedule: seq<Action>, nr: nat): nat
    decreases schedule
  {
    if schedule == [] then 0 else
    var a := schedule[0];
    (if IsTargetHit(targetPid, s, a, nr) then 1 else 0)
    + TargetHits(targetPid, Next(targetPid, s, a), schedule[1..], nr)
  }

  /** The hits the books speak of are exactly the target's system calls. */
  lemma {:induction false} HitsAreTargets(targetPid: nat, s: State, schedule: seq<Action>, nr: nat)
    ensures Run(targetPid, s, schedule).hits[nr] == s.hits[nr] + TargetHits(targetPid, s, schedule, nr)
    decreases schedule
  {
    if schedule == [] {
    } else {
      OneHit(targetPid, s, schedule[0], nr);
      HitsAreTargets(targetPid, Next(targetPid, s, schedule[0]), schedule[1..], nr);
    }
  }

  lemma OneHit(targetPid: nat, s: State, a: Action, nr: nat)
    ensures Next(targetPid, s, a).hits[nr] == s.hits[nr] + if IsTargetHit(targetPid, s, a, nr) then 1 else 0
  {
  }

  predicate IsForeign(targetPid: nat, a: Action) {
    a.Hit? ==> targetPid != 0 && a.pid != targetPid
  }

  lemma {:induction false} ForeignHitsNothing(targetPid: nat, s: State, schedule: seq<Action>, nr: nat)
    requires forall i :: 0 <= i < |schedule| ==> IsForeign(targetPid, schedule[i])
    ensures TargetHits(targetPid, s, schedule, nr) == 0
    decreases schedule
  {
    if schedule != [] {
      assert IsForeign(targetPid, schedule[0]);
      ForeignHitsNothing(targetPid, Next(targetPid, s, schedule[0]), schedule[1..], nr);
    }
  }

  /** What other processes do leaves the map empty. */
  lemma OthersAreNotCounted(targetPid: nat, tids: set<nat>, schedule: seq<Action>)
    requires forall i :: 0 <= i < |schedule| ==> IsForeign(targetPid, schedule[i])
    ensures Run(targetPid, Init0(tids), schedule).counts.index == map[]
  {
    InitInv(tids);
    RunKeeps(targetPid, Init0(tids), schedule);
    var s := Run(targetPid, Init0(tids), schedule);
    forall nr: nat ensures nr !in s.counts.index {
      HitsAreTargets(targetPid, Init0(tids), schedule, nr);
      ForeignHitsNothing(targetPid, Init0(tids), schedule, nr);
      KeysWereHit(s, nr);
    }
  }

  lemma KeysWereHit(s: State, nr: nat)
    requires Inv(s)
    ensures nr in s.counts.index ==> s.hits[nr] >= 1
  {
    assert Books(s, nr);
  }

  /** A system call of the target that nobody disturbs raises its number's count by one,
      from nothing if need be, as long as the number is in the map or there is room. */
  lemma UndisturbedHit(targetPid: nat, tids: set<nat>, before: seq<Action>, t: nat, pid: nat, id: int)
    requires var s := Run(targetPid, Init0(tids), before);
      t in s.pcs && s.pcs[t].Outside? && (id % TWO32 in s.counts.index || |s.counts.index| < MAX_ENTRIES)
    requires targetPid == 0 || pid == targetPid
    ensures var s := Run(targetPid, Init0(tids), before);
      var s' := Run(targetPid, s, [Hit(t, pid, id)] + ([Step(t)] + []));
      && Visible(s', id % TWO32) == Visible(s, id % TWO32) + 1
      && forall k :: k != id % TWO32 ==> Visible(s', k) == Visible(s, k)
  {
    InitInv(tids);
    RunKeeps(targetPid, Init0(tids), before);
    var s := Run(targetPid, Init0(tids), before);
    var s1 := Look(s, t, id % TWO32);
    RunStep(targetPid, s, Hit(t, pid, id), [Step(t)] + []);
    RunStep(targetPid, s1, Step(t), []);
    HitThenStep(s, t, id % TWO32, targetPid);
  }

  lemma HitThenStep(s: State, t: nat, nr: nat, targetPid: nat)
    requires Cells(s) && t in s.pcs && (nr in s.counts.index || |s.counts.index| < MAX_ENTRIES)
    ensures var s' := Next(targetPid, Look(s, t, nr), Step(t));
      Visible(s', nr) == Visible(s, nr) + 1 && forall k :: k != nr ==> Visible(s', k) == Visible(s, k)
  {
    var s1 := Look(s, t, nr);
    if nr in s.counts.index {
      assert s1.pcs[t] == Add(nr, s.counts.index[nr]);
    } else {
      assert s1.pcs[t] == Init(nr);
      assert Next(targetPid, s1, Step(t)) == Store(s1, t, nr);
    }
  }

  // ---- the damage is over once the overlap is ----

  /** The key is in, nobody is about to initialise it, and nobody holds a dead cell. */
  ghost predicate Steady(s: State, nr: nat) {
    && nr in s.counts.index && NoDeadPointer(s, nr)
    && forall t :: t in s.pcs ==> s.pcs[t] != Init(nr)
  }

  lemma LookSteady(s: State, t: nat, k: nat, nr: nat)
    requires Cells(s) && t in s.pcs && Steady(s, nr)
    ensures Steady(Look(s, t, k), nr) && Look(s, t, k).lost[nr] == s.lost[nr]
  {
  }

  lemma BumpSteady(s: State, t: nat, nr: nat)
    requires Cells(s) && t in s.pcs && s.pcs[t].Add? && Steady(s, nr)
    ensures var s' := Bump(s, t, s.pcs[t].nr, s.pcs[t].cell);
      Steady(s', nr) && s'.lost[nr] == s.lost[nr]
  {
  }

  lemma StoreSteady(s: State, t: nat, nr: nat)
    requires Cells(s) && t in s.pcs && s.pcs[t].Init? && Steady(s, nr)
    ensures var s' := Store(s, t, s.pcs[t].nr);
      Steady(s', nr) && s'.lost[nr] == s.lost[nr]
  {
    assert s.pcs[t].nr != nr;
  }

  lemma NextSteady(targetPid: nat, s: State, a: Action, nr: nat)
    requires Cells(s) && Steady(s, nr)
    ensures Steady(Next(targetPid, s, a), nr) && Next(targetPid, s, a).lost[nr] == s.lost[nr]
  {
    if a.tid in s.pcs {
      if a.Hit? { LookSteady(s, a.tid, a.id % TWO32, nr); }
      else if s.pcs[a.tid].Add? { BumpSteady(s, a.tid, nr); }
      else if s.pcs[a.tid].Init? { StoreSteady(s, a.tid, nr); }
    }
  }

  lemma {:induction false} RunSteady(targetPid: nat, s: State, rest: seq<Action>, nr: nat)
    requires Inv(s) && Steady(s, nr)
    ensures Steady(Run(targetPid, s, rest), nr) && Run(targetPid, s, rest).lost[nr] == s.lost[nr]
    decreases rest
  {
    if rest == [] {
    } else {
      NextKeeps(targetPid, s, rest[0]);
      NextSteady(targetPid, s, rest[0], nr);
      RunSteady(targetPid, Next(targetPid, s, rest[0]), rest[1..], nr);
    }
  }

  /** Whatever overlapping first hits lost, they lose no more: once the key is in and no
      handler can still initialise it or add to a replaced cell, every later hit is
      counted, in every continuation. */
  lemma LossIsFinal(targetPid: nat, tids: set<nat>, before: seq<Action>, rest: seq<Action>, nr: nat)
    requires Steady(Run(targetPid, Init0(tids), before), nr)
    ensures var s := Run(targetPid, Init0(tids), before);
      var s' := Run(targetPid, s, rest);
      && s'.lost[nr] == s.lost[nr] && s'.refused[nr] == 0
      && s'.hits[nr] + (Visible(s, nr) + Pending(s, nr)) == s.hits[nr] + (Visible(s', nr) + Pending(s', nr))
  {
    InitInv(tids);
    RunKeeps(targetPid, Init0(tids), before);
    var s := Run(targetPid, Init0(tids), before);
    RunKeeps(targetPid, s, rest);
    RunSteady(targetPid, s, rest, nr);
    assert Books(s, nr) && Books(Run(targetPid, s, rest), nr);
  }

  ghost predicate NeverLosesMore(targetPid: nat, s: State, nr: nat) {
    forall rest :: Run(targetPid, s, rest).lost[nr] == s.lost[nr]
  }

  /** One more step of a thread that can still do damage does it. */
  lemma StepLoses(targetPid: nat, s: State, t: nat, nr: nat)
    requires Cells(s) && nr in s.counts.index && t in s.pcs
    requires s.pcs[t] == Init(nr) || (s.pcs[t].Add? && s.pcs[t].nr == nr && s.counts.Lookup(nr) != Some(s.pcs[t].cell))
    ensures !NeverLosesMore(targetPid, s, nr)
  {
    RunStep(targetPid, s, Step(t), []);
    assert Next(targetPid, s, Step(t)).lost[nr] > s.lost[nr];
  }

  /** The condition is exact: a key in the map loses no further hit, in any
      continuation, if and only if it is steady. */
  lemma LossIsFinalIff(targetPid: nat, tids: set<nat>, before: seq<Action>, nr: nat)
    requires nr in Run(targetPid, Init0(tids), before).counts.index
    ensures var s := Run(targetPid, Init0(tids), before);
      NeverLosesMore(targetPid, s, nr) <==> Steady(s, nr)
  {
    InitInv(tids);
    RunKeeps(targetPid, Init0(tids), before);
    var s := Run(targetPid, Init0(tids), before);
    if Steady(s, nr) {
      forall rest ensures Run(targetPid, s, rest).lost[nr] == s.lost[nr] {
        RunSteady(targetPid, s, rest, nr);
      }
    } else {
      var t :| t in s.pcs && (s.pcs[t] == Init(nr) ||
        (s.pcs[t].Add? && s.pcs[t].nr == nr && s.counts.Lookup(nr) != Some(s.pcs[t].cell)));
      StepLoses(targetPid, s, t, nr);
    }
  }

  /** The two lookups that miss. */
  lemma BothMiss(s: State)
    requires s == Look(Look(Init0({1, 2}), 1, 63), 2, 63)
    ensures s.counts == EMPTY_MAP && s.hits[63] == 2
    ensures s.pcs == map[1 := Init(63), 2 := Init(63)]
  {
    assert Look(Init0({1, 2}), 1, 63).counts == EMPTY_MAP;
  }

  /** The two stores, the second replacing the first one's cell. */
  lemma BothStore(s: State)
    requires s.counts == EMPTY_MAP && s.pcs == map[1 := Init(63), 2 := Init(63)]
    ensures var s' := Store(Store(s, 1, 63), 2, 63);
      s'.hits == s.hits && Visible(s', 63) == 1 && s'.pcs == map[1 := Outside, 2 := Outside]
  {
    var s1 := Store(s, 1, 63);
    assert s1.counts == HashMap(map[63 := 0], [1]);
    var s2 := Store(s1, 2, 63);
    assert s2.counts == HashMap(map[63 := 1], [1, 1]);
  }

  /** Some continuation ends with two hits of 63 behind a count of 1, at rest. */
  ghost predicate CanLose(s: State) {
    exists rest :: var r := Run(0, s, rest); r.hits[63] == 2 && Visible(r, 63) == 1 && Pending(r, 63) == 0
  }

  lemma LoseBack(s: State, a: Action)
    requires CanLose(Next(0, s, a))
    ensures CanLose(s)
  {
    var rest :| var r := Run(0, Next(0, s, a), rest);
      r.hits[63] == 2 && Visible(r, 63) == 1 && Pending(r, 63) == 0;
    RunStep(0, s, a, rest);
  }

  lemma LoseNow(s: State)
    requires s.hits[63] == 2 && Visible(s, 63) == 1 && Pending(s, 63) == 0
    ensures CanLose(s)
  {
    assert s == Run(0, s, []);
  }

  /** Two threads whose first hits of a number overlap: two hits, count 1. */
  lemma OverlapLoses()
    ensures CanLose(Init0({1, 2}))
  {
    var s0 := Init0({1, 2});
    var s1 := Look(s0, 1, 63);
    var s2 := Look(s1, 2, 63);
    BothMiss(s2);
    StoresLose(s2);
    LoseBack(s1, Hit(2, 7, 63));
    LoseBack(s0, Hit(1, 7, 63));
  }

  lemma StoresLose(s: State)
    requires s.counts == EMPTY_MAP && s.hits[63] == 2 && s.pcs == map[1 := Init(63), 2 := Init(63)]
    ensures CanLose(s)
  {
    BothStore(s);
    var s' := Store(Store(s, 1, 63), 2, 63);
    Pool.Nobody(s'.pcs, On(63));
    LoseNow(s');
    LoseBack(Store(s, 1, 63), Step(2));
    LoseBack(s, Step(1));
  }
}
