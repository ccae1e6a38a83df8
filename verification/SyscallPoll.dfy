/** The table PollSyscallCounts of internal/bpf/poll.go makes of the counters while the
    kernel counts on. */
module SyscallPoll {
  import opened Bpf
  import opened SyscallCounter
  import Pool

  datatype Row = Row(nr: nat, name: string, count: nat)

  /** One step of the map iterator: it meets number nr after `at` kernel actions. */
  datatype Visit = Visit(nr: nat, at: nat)

  /** The iterator meets keys that are in the map, each at most once, as time passes. */
  ghost predicate Iterates(targetPid: nat, s: State, schedule: seq<Action>, visits: seq<Visit>) {
    && (forall i :: 0 <= i < |visits| ==>
          visits[i].at <= |schedule| && visits[i].nr in At(targetPid, s, schedule, visits[i].at).counts.index)
    && (forall i, j :: 0 <= i < j < |visits| ==> visits[i].nr != visits[j].nr && visits[i].at <= visits[j].at)
  }

  /** The counter after the first n actions of a schedule. */
  function At(targetPid: nat, s: State, schedule: seq<Action>, n: nat): State {
    Run(targetPid, s, if n <= |schedule| then schedule[..n] else schedule)
  }

  function RowOf(targetPid: nat, s: State, schedule: seq<Action>, nameOf: nat -> string, v: Visit): Row {
    Row(v.nr, nameOf(v.nr), Visible(At(targetPid, s, schedule, v.at), v.nr))
  }

  /** The rows in the order the iterator meets them. */
  function RowsOf(targetPid: nat, s: State, schedule: seq<Action>, nameOf: nat -> string,
                  visits: seq<Visit>): seq<Row>
  {
    seq(|visits|, i requires 0 <= i < |visits| => RowOf(targetPid, s, schedule, nameOf, visits[i]))
  }

  predicate Descending(rows: seq<Row>) {
    forall i, j :: 0 <= i < j < |rows| ==> rows[i].count >= rows[j].count
  }

  /** Where a row belongs in a descending table. */
  function Place(rows: seq<Row>, r: Row): (n: nat)
    ensures n <= |rows|
    ensures forall i :: 0 <= i < n ==> rows[i].count >= r.count
    ensures n < |rows| ==> rows[n].count < r.count
  {
    if rows == [] || rows[0].count < r.count then 0 else 1 + Place(rows[1..], r)
  }

  function Inserted(rows: seq<Row>, r: Row, n: nat): seq<Row>
    requires n <= |rows|
  {
    rows[..n] + [r] + rows[n..]
  }

  lemma InsertedDescends(rows: seq<Row>, r: Row, n: nat)
    requires Descending(rows) && n <= |rows|
    requires forall i :: 0 <= i < n ==> rows[i].count >= r.count
    requires n < |rows| ==> rows[n].count < r.count
    ensures Descending(Inserted(rows, r, n))
  {
    var more := Inserted(rows, r, n);
    forall i, j | 0 <= i < j < |more| ensures more[i].count >= more[j].count {
      assert more[i] == if i < n then rows[i] else if i == n then r else rows[i - 1];
      assert more[j] == if j < n then rows[j] else if j == n then r else rows[j - 1];
    }
  }

  lemma InsertedHasBoth(rows: seq<Row>, r: Row, n: nat)
    requires n <= |rows|
    ensures multiset(Inserted(rows, r, n)) == multiset(rows) + multiset{r}
  {
    assert rows == rows[..n] + rows[n..];
  }

  lemma OneRowMore(rows: seq<Row>, i: nat)
    requires i < |rows|
    ensures multiset(rows[..i + 1]) == multiset(rows[..i]) + multiset{rows[i]}
  {
    assert rows[..i + 1] == rows[..i] + [rows[i]];
  }

  /** One tick. None is a failed iteration, which the loop skips; otherwise the rows read,
      largest count first. */
  method PollSyscallCounts(targetPid: nat, s: State, schedule: seq<Action>, nameOf: nat -> string,
                           visits: seq<Visit>, failed: bool)
    returns (table: Option<seq<Row>>)
    requires Iterates(targetPid, s, schedule, visits)
    ensures table.None? <==> failed
    ensures table.Some? ==> Descending(table.value)
    ensures table.Some? ==> multiset(table.value) == multiset(RowsOf(targetPid, s, schedule, nameOf, visits))
  {
    var counts: seq<Row> := [];
    for i := 0 to |visits|
      invariant |counts| == i
      invariant forall k :: 0 <= k < i ==> counts[k] == RowOf(targetPid, s, schedule, nameOf, visits[k])
    {
      counts := counts + [RowOf(targetPid, s, schedule, nameOf, visits[i])];
    }
    assert counts == RowsOf(targetPid, s, schedule, nameOf, visits);
    if failed { return None; }
    counts := Sorted(counts);
    table := Some(counts);
  }

  /** sort.Slice with the larger count first. */
  method Sorted(rows: seq<Row>) returns (sorted: seq<Row>)
    ensures Descending(sorted) && multiset(sorted) == multiset(rows)
  {
    sorted := [];
    for i := 0 to |rows|
      invariant Descending(sorted) && multiset(sorted) == multiset(rows[..i])
    {
      var n := Place(sorted, rows[i]);
      InsertedDescends(sorted, rows[i], n);
      InsertedHasBoth(sorted, rows[i], n);
      sorted := Inserted(sorted, rows[i], n);
      OneRowMore(rows, i);
    }
    assert rows[..|rows|] == rows;
  }

  // ---- what the table says ----

  /** Nothing is ever forgotten: keys stay and hits only grow. */
  ghost predicate Grows(s: State, s': State) {
    s.counts.index.Keys <= s'.counts.index.Keys && forall nr :: s.hits[nr] <= s'.hits[nr]
  }

  lemma NextGrows(targetPid: nat, s: State, a: Action)
    ensures Grows(s, Next(targetPid, s, a))
  {
  }

  lemma {:induction false} RunGrows(targetPid: nat, s: State, schedule: seq<Action>)
    ensures Grows(s, Run(targetPid, s, schedule))
    decreases schedule
  {
    if schedule == [] {
    } else {
      NextGrows(targetPid, s, schedule[0]);
      RunGrows(targetPid, Next(targetPid, s, schedule[0]), schedule[1..]);
    }
  }

  lemma AtGrows(targetPid: nat, s: State, schedule: seq<Action>, n: nat)
    requires n <= |schedule|
    ensures Grows(At(targetPid, s, schedule, n), Run(targetPid, s, schedule))
  {
    assert schedule == schedule[..n] + schedule[n..];
    RunConcat(targetPid, s, schedule[..n], schedule[n..]);
    RunGrows(targetPid, At(targetPid, s, schedule, n), schedule[n..]);
  }

  function Numbers(visits: seq<Visit>): set<nat> {
    set i | 0 <= i < |visits| :: visits[i].nr
  }

  lemma {:induction false} AllDistinct(visits: seq<Visit>)
    requires forall i, j :: 0 <= i < j < |visits| ==> visits[i].nr != visits[j].nr
    ensures |Numbers(visits)| == |visits|
  {
    if visits != [] {
      var n := |visits| - 1;
      AllDistinct(visits[..n]);
      assert Numbers(visits) == Numbers(visits[..n]) + {visits[n].nr};
    }
  }

  /** A row says how often its number was seen, up to the increments that were lost or in
      flight when it was read; it never says more, and there are at most 512 rows. */
  lemma TableIsHonest(targetPid: nat, tids: set<nat>, schedule: seq<Action>, nameOf: nat -> string,
                      visits: seq<Visit>, i: nat)
    requires Iterates(targetPid, Init0(tids), schedule, visits) && i < |visits|
    ensures var row := RowsOf(targetPid, Init0(tids), schedule, nameOf, visits)[i];
      var s := At(targetPid, Init0(tids), schedule, visits[i].at);
      && row.nr == visits[i].nr && row.name == nameOf(visits[i].nr) && row.count >= 1
      && s.hits[row.nr] == row.count + s.lost[row.nr] + Pending(s, row.nr)
      && row.count <= Run(targetPid, Init0(tids), schedule).hits[row.nr]
    ensures |visits| <= MAX_ENTRIES
  {
    InitInv(tids);
    var s, end := At(targetPid, Init0(tids), schedule, visits[i].at), Run(targetPid, Init0(tids), schedule);
    RunKeeps(targetPid, Init0(tids), schedule[..visits[i].at]);
    RunKeeps(targetPid, Init0(tids), schedule);
    assert Books(s, visits[i].nr);
    AtGrows(targetPid, Init0(tids), schedule, visits[i].at);
    AllDistinct(visits);
    forall k | 0 <= k < |visits| ensures visits[k].nr in end.counts.index {
      AtGrows(targetPid, Init0(tids), schedule, visits[k].at);
    }
    Pool.Fewer(Numbers(visits), end.counts.index.Keys);
  }
}
