/** count_syscalls of bpf/syscall_counter.bpf.c as it is written, over the shared
    map, with other threads free to act between its two helper calls. Each run of it
    is a run of the state machine of module SyscallCounter, so what is proved there
    of all runs holds of this body. */
module SyscallCounterProgram {
  import opened Bpf
  import opened SyscallCounter

  predicate NoneBy(schedule: seq<Action>, t: nat) {
    forall i :: 0 <= i < |schedule| ==> schedule[i].tid != t
  }

  /** What other threads do leaves thread t where it stands. */
  lemma {:induction false} OthersStay(targetPid: nat, s: State, others: seq<Action>, t: nat)
    requires t in s.pcs && NoneBy(others, t)
    ensures t in Run(targetPid, s, others).pcs && Run(targetPid, s, others).pcs[t] == s.pcs[t]
    decreases others
  {
    if others == [] {
    } else {
      assert others[0].tid != t;
      OthersStay(targetPid, Next(targetPid, s, others[0]), others[1..], t);
    }
  }

  class Program {
    const targetPid: nat
    const tids: set<nat>
    var counts: HashMap            // syscall_counts
    var world: State               // where every thread stands, and the books
    ghost var trace: seq<Action>   // everything that happened so far

    ghost predicate Valid()
      reads this
    {
      world == Run(targetPid, Init0(tids), trace) && counts == world.counts
    }

    constructor (targetPid: nat, tids: set<nat>)
      ensures Valid() && this.targetPid == targetPid && this.tids == tids && trace == []
    {
      this.targetPid, this.tids, trace := targetPid, tids, [];
      world, counts := Init0(tids), EMPTY_MAP;
    }

    /** Any schedule of the other threads. */
    method Others(tid: nat, others: seq<Action>)
      requires Valid() && tid in world.pcs && NoneBy(others, tid)
      modifies this
      ensures Valid() && trace == old(trace) + others
      ensures tid in world.pcs && world.pcs[tid] == old(world.pcs[tid])
    {
      OthersStay(targetPid, world, others, tid);
      RunConcat(targetPid, Init0(tids), trace, others);
      world, trace := Run(targetPid, world, others), trace + others;
      counts := world.counts;
    }

    /** The machine takes the step the handler just made. */
    method Advance(a: Action)
      requires world == Run(targetPid, Init0(tids), trace) && counts == Next(targetPid, world, a).counts
      modifies this
      ensures Valid() && trace == old(trace) + [a]
      ensures world == Next(targetPid, old(world), a) && counts == old(counts)
    {
      RunConcat(targetPid, Init0(tids), trace, [a]);
      assert Run(targetPid, world, [a]) == Next(targetPid, world, a);
      world, trace := Next(targetPid, world, a), trace + [a];
    }

    lemma PointerHolds(tid: nat)
      requires Valid() && tid in world.pcs && world.pcs[tid].Add?
      ensures world.pcs[tid].cell < |counts.cells|
    {
      InitInv(tids);
      RunKeeps(targetPid, Init0(tids), trace);
    }

    /** bpf_map_lookup_elem(&syscall_counts, &syscall_nr), behind the filter. */
    method LookupCount(tid: nat, pid: nat, id: int) returns (count: Option<nat>)
      requires Valid() && tid in world.pcs && world.pcs[tid].Outside? && Admits(targetPid, pid)
      modifies this
      ensures Valid() && trace == old(trace) + [Hit(tid, pid, id)] && tid in world.pcs
      ensures world.pcs[tid] == if count.Some? then Add(id % TWO32, count.value) else Init(id % TWO32)
    {
      count := counts.Lookup(id % TWO32);
      Advance(Hit(tid, pid, id));
    }

    /** __sync_fetch_and_add(count, 1). */
    method AddOne(tid: nat, nr: nat, cell: nat)
      requires Valid() && tid in world.pcs && world.pcs[tid] == Add(nr, cell)
      modifies this
      ensures Valid() && trace == old(trace) + [Step(tid)] && tid in world.pcs && world.pcs[tid].Outside?
    {
      PointerHolds(tid);
      counts := counts.FetchAdd(cell);
      Advance(Step(tid));
    }

    /** bpf_map_update_elem(&syscall_counts, &syscall_nr, &init, BPF_ANY), with init 1. */
    method InitOne(tid: nat, nr: nat)
      requires Valid() && tid in world.pcs && world.pcs[tid] == Init(nr)
      modifies this
      ensures Valid() && trace == old(trace) + [Step(tid)] && tid in world.pcs && world.pcs[tid].Outside?
    {
      counts := counts.Update(nr, 1, MAX_ENTRIES);
      Advance(Step(tid));
    }

    /** count_syscalls. It is the machine's two steps of this thread with everybody
        else's in between, and the thread is done after it. */
    method CountSyscalls(tid: nat, pid: nat, id: int, others: seq<Action>)
      requires Valid() && tid in world.pcs && world.pcs[tid].Outside? && NoneBy(others, tid)
      modifies this
      ensures Valid() && tid in world.pcs && world.pcs[tid].Outside?
      ensures trace == old(trace)
        + if targetPid == 0 || pid == targetPid then [Hit(tid, pid, id)] + others + [Step(tid)] else []
    {
      if targetPid != 0 && pid != targetPid { return; }
      var nr := id % TWO32;
      var count := LookupCount(tid, pid, id);
      Others(tid, others);
      if count.Some? {
        AddOne(tid, nr, count.value);
      } else {
        InitOne(tid, nr);
      }
    }

    /** What userspace reads for a number never exceeds its hits, and what is missing
        was lost, refused or is still in a handler. */
    method Count(nr: nat) returns (n: nat)
      requires Valid()
      ensures n <= world.hits[nr] && |counts.index| <= MAX_ENTRIES
      ensures world.hits[nr] == n + world.lost[nr] + world.refused[nr] + Pending(world, nr)
      ensures Pending(world, nr) == 0 ==>
        (n == world.hits[nr] <==> world.misses[nr] <= 1 && world.refused[nr] == 0)
    {
      NeverOvercounts(targetPid, tids, trace, nr);
      ExactIff(targetPid, tids, trace, nr);
      n := 0;
      var found := counts.Lookup(nr);
      if found.Some? && found.value < |counts.cells| { n := counts.cells[found.value]; }
    }
  }
}
