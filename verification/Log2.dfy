/** log2_bucket of bpf/latency.bpf.c and the label bounds latency.go gives the
    buckets. */
module Log2 {
  import opened Bpf

  const MAX_BUCKETS: nat := 32

  function Pow2(n: nat): (p: nat)
    ensures p >= 1
  {
    if n == 0 then 1 else 2 * Pow2(n - 1)
  }

  /** How many right shifts bring v down to 0 or 1. */
  function Shifts(v: nat): nat {
    if v <= 1 then 0 else 1 + Shifts(v / 2)
  }

  function Bucket(v: nat): (b: nat)
    ensures b < MAX_BUCKETS
  {
    if Shifts(v) >= MAX_BUCKETS then MAX_BUCKETS - 1 else Shifts(v)
  }

  /** The loop of the source: it shifts at most 63 times on any u64. */
  method Log2Bucket(value: nat) returns (bucket: nat, shifts: nat)
    requires value < TWO64
    ensures bucket == Bucket(value)
    ensures shifts == Shifts(value) <= 63
  {
    bucket, shifts := 0, 0;
    ShiftsOfU64(value);
    if value == 0 { return; }
    var v := value;
    while v > 1
      invariant v >= 1 && bucket == shifts && bucket + Shifts(v) == Shifts(value)
    {
      v := v / 2;
      bucket := bucket + 1;
      shifts := shifts + 1;
    }
    if bucket >= MAX_BUCKETS { bucket := MAX_BUCKETS - 1; }
  }

  lemma {:induction false} Pow2Monotone(m: nat, n: nat)
    requires m <= n
    ensures Pow2(m) <= Pow2(n)
  {
    if m < n { Pow2Monotone(m, n - 1); }
  }

  /** A positive v lies between the powers of two its shift count names. */
  lemma {:induction false} ShiftsBounds(v: nat)
    requires v >= 1
    ensures Pow2(Shifts(v)) <= v < Pow2(Shifts(v) + 1)
  {
    if v > 1 { ShiftsBounds(v / 2); }
  }

  lemma ShiftsOfU64(v: nat)
    requires v < TWO64
    ensures Shifts(v) <= 63
  {
    Pow2Values();
    if v >= 1 {
      ShiftsBounds(v);
      if Shifts(v) >= 64 { Pow2Monotone(64, Shifts(v)); }
    }
  }

  lemma Pow2Values()
    ensures Pow2(31) == 0x8000_0000 && Pow2(32) == TWO32 && Pow2(64) == TWO64
  {
    assert Pow2(8) == 0x100;
    assert Pow2(16) == 0x1_0000;
    assert Pow2(24) == 0x100_0000;
    assert Pow2(32) == TWO32;
    assert Pow2(40) == 0x100_0000_0000;
    assert Pow2(48) == 0x1_0000_0000_0000;
    assert Pow2(56) == 0x100_0000_0000_0000;
  }

  lemma {:induction false} ShiftsMonotone(v: nat, w: nat)
    requires v <= w
    ensures Shifts(v) <= Shifts(w)
  {
    if v > 1 { ShiftsMonotone(v / 2, w / 2); }
  }

  lemma BucketMonotone(v: nat, w: nat)
    requires v <= w
    ensures Bucket(v) <= Bucket(w)
  {
    ShiftsMonotone(v, w);
  }

  /** The numbers in a bucket's label: "0 - 1ns" for bucket 0, else the powers of
      two before they are rounded to a unit. */
  function LabelBounds(bucket: nat): (int, int) {
    if bucket == 0 then (0, 1) else (Pow2(bucket), Pow2(bucket + 1))
  }

  /** Bucket 0's label names its two values; the others end below their bound. */
  predicate InLabel(bucket: nat, v: nat) {
    var (low, high) := LabelBounds(bucket);
    low <= v && (v < high || (bucket == 0 && v == high))
  }

  lemma {:induction false} ShiftsUnique(v: nat, n: nat)
    requires v >= 1 && Pow2(n) <= v < Pow2(n + 1)
    ensures Shifts(v) == n
  {
    ShiftsBounds(v);
    if Shifts(v) < n { Pow2Monotone(Shifts(v) + 1, n); }
    if n < Shifts(v) { Pow2Monotone(n + 1, Shifts(v)); }
  }

  /** Exactly which values a bucket collects. */
  lemma BucketRange(v: nat, b: nat)
    requires b < MAX_BUCKETS
    ensures Bucket(v) == b <==>
      if b == 0 then v <= 1 else if b < 31 then Pow2(b) <= v < Pow2(b + 1) else v >= Pow2(31)
  {
    if v >= 1 {
      ShiftsRange(v, b);
      ShiftsAtLeast(v, MAX_BUCKETS - 1);
    }
  }

  lemma ShiftsRange(v: nat, n: nat)
    requires v >= 1
    ensures Shifts(v) == n <==> Pow2(n) <= v < Pow2(n + 1)
  {
    ShiftsBounds(v);
    if Pow2(n) <= v < Pow2(n + 1) { ShiftsUnique(v, n); }
  }

  lemma ShiftsAtLeast(v: nat, n: nat)
    requires v >= 1
    ensures Shifts(v) >= n <==> v >= Pow2(n)
  {
    ShiftsBounds(v);
    if Shifts(v) >= n { Pow2Monotone(n, Shifts(v)); } else { Pow2Monotone(Shifts(v) + 1, n); }
  }

  /** A duration lies inside the label of bucket b exactly when it was counted
      there and is below 2^32 ns: only the last bucket's label is too narrow. */
  lemma LabelTellsBucket(v: nat, b: nat)
    requires b < MAX_BUCKETS
    ensures InLabel(b, v) <==> Bucket(v) == b && v < TWO32
  {
    BucketRange(v, b);
    HighestBound(b);
  }

  lemma HighestBound(b: nat)
    requires b < MAX_BUCKETS
    ensures Pow2(b + 1) <= TWO32 && (b == 31 ==> Pow2(b + 1) == TWO32)
  {
    Pow2Values();
    Pow2Monotone(b + 1, 32);
  }
}
