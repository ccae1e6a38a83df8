/** internal/output/flamegraph.go and the sample collection of trace.go: stacks of
    labels become stacks of indices into a table of distinct frames. */
module Flamegraph {
  import opened Bpf
  import opened Totals
  import opened Wire
  import Symbols

  datatype StackSample = StackSample(frames: seq<string>, weight: int)

  /** The part of the Speedscope file the samples determine. */
  datatype Profile = Profile(frames: seq<string>, samples: seq<seq<nat>>, weights: seq<int>, endValue: int)

  // ---- what the two passes should compute ----

  function AllFrames(samples: seq<StackSample>): seq<string> {
    if samples == [] then [] else AllFrames(samples[..|samples| - 1]) + samples[|samples| - 1].frames
  }

  /** The distinct elements of s, each where it first occurs. */
  function Distinct(s: seq<string>): seq<string> {
    if s == [] then [] else
    var d, last := Distinct(s[..|s| - 1]), s[|s| - 1];
    if last in d then d else d + [last]
  }

  /** The stack a list of indices stands for. */
  predicate Denotes(table: seq<string>, indices: seq<nat>, stack: seq<string>) {
    |indices| == |stack| && forall i :: 0 <= i < |stack| ==> indices[i] < |table| && table[indices[i]] == stack[i]
  }

  /** `index` is the inverse of the table. */
  ghost predicate Inverts(index: map<string, nat>, table: seq<string>) {
    && (forall f :: f in index ==> index[f] < |table| && table[index[f]] == f)
    && (forall i :: 0 <= i < |table| ==> table[i] in index && index[table[i]] == i)
  }

  /** WriteFlamegraph up to the struct it writes; None is the error for no samples. */
  method WriteFlamegraph(samples: seq<StackSample>) returns (out: Option<Profile>)
    ensures out.None? <==> samples == []
    ensures out.Some? ==> Faithful(samples, out.value)
  {
    if |samples| == 0 { return None; }
    var frameIndex: map<string, nat> := map[];
    var frames: seq<string> := [];
    for i := 0 to |samples|
      invariant frames == Distinct(AllFrames(samples[..i])) && Inverts(frameIndex, frames)
    {
      frameIndex, frames := InternStack(frameIndex, frames, samples[..i], samples[i]);
      AllFramesNext(samples, i);
    }
    assert samples[..|samples|] == samples;
    var samplesList, weights, endValue := IndexSamples(frameIndex, frames, samples);
    out := Some(Profile(frames, samplesList, weights, endValue));
  }

  lemma AllFramesNext(samples: seq<StackSample>, i: nat)
    requires i < |samples|
    ensures AllFrames(samples[..i + 1]) == AllFrames(samples[..i]) + samples[i].frames
  {
    assert samples[..i + 1][..i] == samples[..i];
  }

  /** The second pass. */
  method IndexSamples(frameIndex: map<string, nat>, ghost frames: seq<string>, samples: seq<StackSample>)
    returns (samplesList: seq<seq<nat>>, weights: seq<int>, endValue: int)
    requires Inverts(frameIndex, frames) && frames == Distinct(AllFrames(samples))
    ensures |samplesList| == |weights| == |samples| && endValue == Sum(weights)
    ensures forall k :: 0 <= k < |samples| ==>
      weights[k] == samples[k].weight && Denotes(frames, samplesList[k], samples[k].frames)
  {
    samplesList, weights, endValue := [], [], 0;
    for i := 0 to |samples|
      invariant |samplesList| == |weights| == i && endValue == Sum(weights)
      invariant forall k :: 0 <= k < i ==>
        weights[k] == samples[k].weight && Denotes(frames, samplesList[k], samples[k].frames)
    {
      AllInterned(samples, i);
      var indices := IndexStack(frameIndex, frames, samples[i]);
      samplesList := samplesList + [indices];
      weights := weights + [samples[i].weight];
      endValue := endValue + samples[i].weight;
      assert weights[..i] + [samples[i].weight] == weights;
    }
  }

  /** The inner loop of the first pass. */
  method InternStack(frameIndex0: map<string, nat>, frames0: seq<string>, ghost before: seq<StackSample>,
                     s: StackSample)
    returns (frameIndex: map<string, nat>, frames: seq<string>)
    requires Inverts(frameIndex0, frames0) && frames0 == Distinct(AllFrames(before))
    ensures Inverts(frameIndex, frames) && frames == Distinct(AllFrames(before) + s.frames)
  {
    frameIndex, frames := frameIndex0, frames0;
    assert AllFrames(before) + s.frames[..0] == AllFrames(before);
    for j := 0 to |s.frames|
      invariant Inverts(frameIndex, frames) && frames == Distinct(AllFrames(before) + s.frames[..j])
    {
      var f := s.frames[j];
      DistinctNext(AllFrames(before), s.frames, j);
      Interned(frameIndex, frames, f);
      if f !in frameIndex {
        frameIndex := frameIndex[f := |frames|];
        frames := frames + [f];
      }
    }
    assert s.frames[..|s.frames|] == s.frames;
  }

  lemma DistinctNext(before: seq<string>, s: seq<string>, j: nat)
    requires j < |s|
    ensures var d := Distinct(before + s[..j]);
      Distinct(before + s[..j + 1]) == if s[j] in d then d else d + [s[j]]
  {
    var seen := before + s[..j + 1];
    assert seen[..|seen| - 1] == before + s[..j];
  }

  /** The index knows exactly the table's frames, and one more keeps it so. */
  lemma Interned(index: map<string, nat>, table: seq<string>, f: string)
    requires Inverts(index, table)
    ensures f in index <==> f in table
    ensures f !in index ==> Inverts(index[f := |table|], table + [f])
  {
    if f in table {
      var i :| 0 <= i < |table| && table[i] == f;
      assert table[i] in index;
    }
  }

  /** The inner loop of the second pass. */
  method IndexStack(frameIndex: map<string, nat>, ghost frames: seq<string>, s: StackSample) returns (indices: seq<nat>)
    requires Inverts(frameIndex, frames) && forall j :: 0 <= j < |s.frames| ==> s.frames[j] in frames
    ensures Denotes(frames, indices, s.frames)
  {
    indices := [];
    for j := 0 to |s.frames|
      invariant Denotes(frames, indices, s.frames[..j])
    {
      indices := indices + [frameIndex[s.frames[j]]];
    }
    assert s.frames[..|s.frames|] == s.frames;
  }

  // ---- what that means ----

  /** The profile says exactly what the samples say. */
  ghost predicate Faithful(samples: seq<StackSample>, p: Profile) {
    && p.frames == Distinct(AllFrames(samples))
    && |p.samples| == |p.weights| == |samples|
    && (forall k :: 0 <= k < |samples| ==> Denotes(p.frames, p.samples[k], samples[k].frames))
    && (forall k :: 0 <= k < |samples| ==> p.weights[k] == samples[k].weight)
    && p.endValue == Sum(p.weights)
  }

  lemma {:induction false} DistinctHasAll(s: seq<string>)
    ensures forall f :: f in Distinct(s) <==> f in s
    ensures forall i, j :: 0 <= i < j < |Distinct(s)| ==> Distinct(s)[i] != Distinct(s)[j]
  {
    if s != [] {
      DistinctHasAll(s[..|s| - 1]);
      assert s == s[..|s| - 1] + [s[|s| - 1]];
    }
  }

  lemma {:induction false} AllInterned(samples: seq<StackSample>, k: nat)
    requires k < |samples|
    ensures forall j :: 0 <= j < |samples[k].frames| ==> samples[k].frames[j] in Distinct(AllFrames(samples))
  {
    DistinctHasAll(AllFrames(samples));
    InAllFrames(samples, k);
  }

  lemma {:induction false} InAllFrames(samples: seq<StackSample>, k: nat)
    requires k < |samples|
    ensures forall j :: 0 <= j < |samples[k].frames| ==> samples[k].frames[j] in AllFrames(samples)
  {
    if k < |samples| - 1 {
      InAllFrames(samples[..|samples| - 1], k);
    }
  }

  /** Where f first occurs in s. */
  function First(s: seq<string>, f: string): (n: nat)
    requires f in s
    ensures n < |s| && s[n] == f && forall k :: 0 <= k < n ==> s[k] != f
  {
    if s[0] == f then 0 else 1 + First(s[1..], f)
  }

  lemma FirstInPrefix(s: seq<string>, n: nat, f: string)
    requires n <= |s| && f in s[..n]
    ensures f in s && First(s, f) == First(s[..n], f) < n
  {
    var k := First(s[..n], f);
    assert s[k] == f && s[..n][..k] == s[..k];
    var m := First(s, f);
    assert m == k;
  }

  /** Frames stand in the order of their first occurrence. */
  lemma {:induction false} DistinctKeepsOrder(s: seq<string>, i: nat, j: nat)
    requires i < j < |Distinct(s)|
    ensures Distinct(s)[i] in s && Distinct(s)[j] in s && First(s, Distinct(s)[i]) < First(s, Distinct(s)[j])
  {
    var n := |s| - 1;
    var d := Distinct(s[..n]);
    DistinctHasAll(s);
    DistinctHasAll(s[..n]);
    if j < |d| {
      DistinctKeepsOrder(s[..n], i, j);
      FirstInPrefix(s, n, d[i]);
      FirstInPrefix(s, n, d[j]);
    } else {
      assert d[i] in d;
      FirstInPrefix(s, n, d[i]);
      assert s[n] !in s[..n];
      assert First(s, s[n]) == n;
    }
  }

  /** A faithful profile has pairwise distinct frames in first-occurrence order, so two
      positions get one index exactly when they carry one label. */
  lemma SameIndexIff(samples: seq<StackSample>, p: Profile, k: nat, i: nat, l: nat, j: nat)
    requires Faithful(samples, p) && k < |samples| && l < |samples|
    requires i < |samples[k].frames| && j < |samples[l].frames|
    ensures |p.samples[k]| == |samples[k].frames| && |p.samples[l]| == |samples[l].frames|
    ensures p.samples[k][i] == p.samples[l][j] <==> samples[k].frames[i] == samples[l].frames[j]
  {
    DistinctHasAll(AllFrames(samples));
    assert Denotes(p.frames, p.samples[k], samples[k].frames) && Denotes(p.frames, p.samples[l], samples[l].frames);
  }

  // ---- from raw addresses to the profile ----

  const STACK_EVENT_SIZE: nat := 36

  /** The stack id of a ring-buffer record, a signed 32-bit field at offset 16; None if
      the record is too short to decode. */
  function StackId(record: seq<byte>): Option<int> {
    if |record| < STACK_EVENT_SIZE then None else
    var u := U32At(record, 16);
    Some(if u < 0x8000_0000 then u else u - TWO32)
  }

  /** The stack a record names: None if the record does not decode, carries an error
      code for an id, or the stack map has nothing under its id. */
  function StackOf(record: seq<byte>, stacks: map<int, seq<nat>>): Option<seq<nat>> {
    var id := StackId(record);
    if id.Some? && id.value >= 0 && id.value in stacks then Some(stacks[id.value]) else None
  }

  /** What capture_stack submits: a timestamp, the thread, the stack's id, which is a
      negative error code if there is none, and a name. */
  function StackRecord(ts: nat, pid: nat, tid: nat, id: int, comm: seq<byte>): (record: seq<byte>)
    requires ts < TWO64 && pid < TWO32 && tid < TWO32 && -0x8000_0000 <= id < 0x8000_0000 && |comm| == 16
    ensures |record| == 36
  {
    Encode(ts, 8) + Encode(pid, 4) + Encode(tid, 4) + Encode(if id < 0 then id + TWO32 else id, 4) + comm
  }

  /** Such a record, whatever follows it, names its own stack, and is of use exactly if the
      id is no error code and its stack has an address before any zero. */
  lemma RecordNamesStack(ts: nat, pid: nat, tid: nat, id: int, comm: seq<byte>, trailing: seq<byte>,
                         stacks: map<int, seq<nat>>)
    requires ts < TWO64 && pid < TWO32 && tid < TWO32 && -0x8000_0000 <= id < 0x8000_0000 && |comm| == 16
    ensures var record := StackRecord(ts, pid, tid, id, comm) + trailing;
      && StackId(record) == Some(id)
      && StackOf(record, stacks) == (if id >= 0 && id in stacks then Some(stacks[id]) else None)
      && (Usable(record, stacks) <==> id >= 0 && id in stacks && stacks[id] != [] && stacks[id][0] != 0)
  {
    var record := StackRecord(ts, pid, tid, id, comm) + trailing;
    var u := if id < 0 then id + TWO32 else id;
    Widths();
    DecodeEncode(u, 4);
    assert Get(record, 16, 4) == Encode(u, 4);
  }

  /** The sample loop of runTrace. `kept[k]` is the record sample k came from. */
  method CollectSamples(records: seq<seq<byte>>, stacks: map<int, seq<nat>>, regions: seq<Symbols.MemRegion>)
    returns (samples: seq<StackSample>, kept: seq<nat>)
    ensures |samples| == |kept|
    ensures forall k :: 0 <= k < |kept| ==>
      kept[k] < |records| && CameFrom(samples[k], records[kept[k]], stacks, regions)
    ensures forall k, l :: 0 <= k < l < |kept| ==> kept[k] < kept[l]
    ensures forall n :: 0 <= n < |records| ==> (n in kept <==> Usable(records[n], stacks))
  {
    samples, kept := [], [];
    for n := 0 to |records|
      invariant |samples| == |kept|
      invariant forall k :: 0 <= k < |kept| ==>
        kept[k] < n && CameFrom(samples[k], records[kept[k]], stacks, regions)
      invariant forall k, l :: 0 <= k < l < |kept| ==> kept[k] < kept[l]
      invariant forall m :: 0 <= m < n ==> (m in kept <==> Usable(records[m], stacks))
    {
      var id := StackId(records[n]);
      if id.None? { continue; }
      if id.value < 0 { continue; }
      if id.value !in stacks { continue; }
      var frames := Symbols.ResolveStack(stacks[id.value], regions);
      if |frames| == 0 { continue; }
      samples := samples + [StackSample(frames, 1)];
      kept := kept + [n];
    }
  }

  /** The record names a stack that has an address before any zero. */
  predicate Usable(record: seq<byte>, stacks: map<int, seq<nat>>) {
    var addrs := StackOf(record, stacks);
    addrs.Some? && addrs.value != [] && addrs.value[0] != 0
  }

  /** The sample labels the addresses before the first zero, in order. */
  predicate CameFrom(s: StackSample, record: seq<byte>, stacks: map<int, seq<nat>>, regions: seq<Symbols.MemRegion>) {
    var addrs := StackOf(record, stacks);
    && addrs.Some? && s.weight == 1 && 0 < |s.frames| <= |addrs.value|
    && (|s.frames| < |addrs.value| ==> addrs.value[|s.frames|] == 0)
    && forall i :: 0 <= i < |s.frames| ==>
         addrs.value[i] != 0 && s.frames[i] == Symbols.FormatAddress(addrs.value[i], regions)
  }

  /** Two sampled addresses get the same frame index exactly when they resolve to the
      same base name and file offset, or are the same unresolved address. */
  lemma SameFrameIff(samples: seq<StackSample>, p: Profile, stacks: map<int, seq<nat>>, regions: seq<Symbols.MemRegion>,
                     k: nat, d: seq<byte>, i: nat, l: nat, e: seq<byte>, j: nat)
    requires Faithful(samples, p) && k < |samples| && l < |samples|
    requires CameFrom(samples[k], d, stacks, regions) && CameFrom(samples[l], e, stacks, regions)
    requires i < |samples[k].frames| && j < |samples[l].frames|
    ensures |p.samples[k]| == |samples[k].frames| && |p.samples[l]| == |samples[l].frames|
    ensures p.samples[k][i] == p.samples[l][j] <==>
      Symbols.MeaningOf(StackOf(d, stacks).value[i], regions) == Symbols.MeaningOf(StackOf(e, stacks).value[j], regions)
  {
    SameIndexIff(samples, p, k, i, l, j);
    Symbols.SameLabelIff(StackOf(d, stacks).value[i], StackOf(e, stacks).value[j], regions);
  }

  /** So different addresses of one mapped region, of at most 2^64 bytes, are different
      frames of the graph. */
  lemma FrameTellsAddress(samples: seq<StackSample>, p: Profile, stacks: map<int, seq<nat>>,
                          regions: seq<Symbols.MemRegion>, r: nat,
                          k: nat, d: seq<byte>, i: nat, l: nat, e: seq<byte>, j: nat)
    requires Faithful(samples, p) && k < |samples| && l < |samples|
    requires CameFrom(samples[k], d, stacks, regions) && CameFrom(samples[l], e, stacks, regions)
    requires i < |samples[k].frames| && j < |samples[l].frames|
    requires Symbols.Disjoint(regions) && r < |regions| && regions[r].end - regions[r].start <= TWO64
    requires regions[r].start <= StackOf(d, stacks).value[i] < regions[r].end
    requires regions[r].start <= StackOf(e, stacks).value[j] < regions[r].end
    ensures |p.samples[k]| == |samples[k].frames| && |p.samples[l]| == |samples[l].frames|
    ensures p.samples[k][i] == p.samples[l][j] <==> StackOf(d, stacks).value[i] == StackOf(e, stacks).value[j]
  {
    SameIndexIff(samples, p, k, i, l, j);
    Symbols.LabelTellsAddress(StackOf(d, stacks).value[i], StackOf(e, stacks).value[j], regions, r);
  }
}
