/** The kernel objects the BPF programs share, with exactly the guarantees the
    programs rely on: a bounded hash map whose elements are cells reached by
    reference. */
module Bpf {
  const TWO32: nat := 0x1_0000_0000
  const TWO64: nat := 0x1_0000_0000_0000_0000

  datatype Option<+T> = None | Some(value: T)

  /** A BPF_MAP_TYPE_HASH. `index` says which cell a key names now, `cells` holds
      every cell ever allocated. Replacing or deleting an element leaves its old
      cell behind, so a pointer taken earlier still points at the dead cell and
      never at somebody else's. */
  datatype HashMap = HashMap(index: map<nat, nat>, cells: seq<nat>) {

    /** Distinct keys name distinct, allocated cells. */
    ghost predicate Valid() {
      && (forall k :: k in index ==> index[k] < |cells|)
      && (forall k, l :: k in index && l in index && k != l ==> index[k] != index[l])
    }

    /** bpf_map_lookup_elem: a pointer to the live cell, or NULL. */
    function Lookup(k: nat): Option<nat> {
      if k in index then Some(index[k]) else None
    }

    /** An update with BPF_ANY fails only for a new key in a full map. */
    predicate Accepts(k: nat, capacity: nat) {
      k in index || |index| < capacity
    }

    /** bpf_map_update_elem with BPF_ANY. */
    function Update(k: nat, v: nat, capacity: nat): (m: HashMap)
      ensures Valid() ==> m.Valid()
      ensures |index| <= capacity ==> |m.index| <= capacity
    {
      if Accepts(k, capacity) then
        assert |index[k := |cells|]| <= |index| + 1 by {
          assert index[k := |cells|].Keys == index.Keys + {k};
        }
        assert k in index ==> index[k := |cells|].Keys == index.Keys;
        HashMap(index[k := |cells|], cells + [v])
      else this
    }

    /** bpf_map_delete_elem. */
    function Delete(k: nat): (m: HashMap)
      ensures Valid() ==> m.Valid()
      ensures |m.index| == if k in index then |index| - 1 else |index|
    {
      assert (index - {k}).Keys == index.Keys - {k};
      HashMap(index - {k}, cells)
    }

    /** __sync_fetch_and_add(pointer, 1). */
    function FetchAdd(cell: nat): (m: HashMap)
      requires cell < |cells|
      ensures Valid() ==> m.Valid()
    {
      HashMap(index, cells[cell := cells[cell] + 1])
    }
  }

  const EMPTY_MAP := HashMap(map[], [])

  /** What only ever grows keeps what it had. */
  ghost predicate Prefix<T>(a: seq<T>, b: seq<T>) {
    |a| <= |b| && forall i :: 0 <= i < |a| ==> a[i] == b[i]
  }
}

/** Totals of counters. */
module Totals {
  function Sum(s: seq<int>): int {
    if s == [] then 0 else Sum(s[..|s| - 1]) + s[|s| - 1]
  }

  lemma {:induction false} SumBump(s: seq<int>, b: nat)
    requires b < |s|
    ensures Sum(s[b := s[b] + 1]) == Sum(s) + 1
  {
    var s' := s[b := s[b] + 1];
    if b == |s| - 1 {
      assert s'[..|s| - 1] == s[..|s| - 1];
    } else {
      assert s'[..|s| - 1] == s[..|s| - 1][b := s[b] + 1];
      SumBump(s[..|s| - 1], b);
    }
  }

  lemma {:induction false} SumConcat(a: seq<int>, b: seq<int>)
    ensures Sum(a + b) == Sum(a) + Sum(b)
    decreases |b|
  {
    if b == [] {
      assert a + b == a;
    } else {
      assert (a + b)[..|a + b| - 1] == a + b[..|b| - 1];
      SumConcat(a, b[..|b| - 1]);
    }
  }

  lemma {:induction false} SumZeros(s: seq<int>)
    requires forall i :: 0 <= i < |s| ==> s[i] == 0
    ensures Sum(s) == 0
  {
    if s != [] { SumZeros(s[..|s| - 1]); }
  }

  lemma {:induction false} SumAtMost(s: seq<int>, t: seq<int>)
    requires |s| == |t| && forall i :: 0 <= i < |s| ==> s[i] <= t[i]
    ensures Sum(s) <= Sum(t)
  {
    if s != [] { SumAtMost(s[..|s| - 1], t[..|t| - 1]); }
  }
}

/** How many threads of a pool are at a program point. */
module Pool {
  ghost function Members<P(!new)>(pool: map<nat, P>, at: P -> bool): set<nat> {
    set t | t in pool && at(pool[t])
  }

  ghost function Count<P(!new)>(pool: map<nat, P>, at: P -> bool): nat {
    |Members(pool, at)|
  }

  lemma Apart<P(!new)>(pool: map<nat, P>, t: nat, at: P -> bool)
    requires t in pool
    ensures Count(pool, at) == |Members(pool, at) - {t}| + if at(pool[t]) then 1 else 0
  {
    var all := Members(pool, at);
    assert all == if at(pool[t]) then (all - {t}) + {t} else all - {t};
  }

  lemma Moved<P(!new)>(pool: map<nat, P>, t: nat, p: P, at: P -> bool)
    requires t in pool
    ensures Count(pool[t := p], at)
         == Count(pool, at) - (if at(pool[t]) then 1 else 0) + (if at(p) then 1 else 0)
  {
    Apart(pool, t, at);
    Apart(pool[t := p], t, at);
    SameRest(pool, t, p, at);
  }

  lemma SameRest<P(!new)>(pool: map<nat, P>, t: nat, p: P, at: P -> bool)
    requires t in pool
    ensures Members(pool[t := p], at) - {t} == Members(pool, at) - {t}
  {
  }

  lemma Positive<P(!new)>(pool: map<nat, P>, t: nat, at: P -> bool)
    requires t in pool && at(pool[t])
    ensures Count(pool, at) >= 1
  {
    assert t in Members(pool, at);
  }

  lemma Nobody<P(!new)>(pool: map<nat, P>, at: P -> bool)
    requires forall t :: t in pool ==> !at(pool[t])
    ensures Count(pool, at) == 0
  {
    assert Members(pool, at) == {};
  }

  lemma Smaller(a: set<nat>, b: set<nat>, t: nat)
    requires a <= b && t in b && t !in a
    ensures |a| < |b|
  {
    Fewer(a, b - {t});
  }

  lemma {:induction false} Fewer(a: set<nat>, b: set<nat>)
    requires a <= b
    ensures |a| <= |b|
    decreases a
  {
    if a != {} {
      var x :| x in a;
      Fewer(a - {x}, b - {x});
    }
  }
}
