/** The dashboard's state (internal/tui/model.go), its event tail
    (internal/tui/events_view.go) and the histogram window of latency.go. */
module Dashboard {
  import opened Bpf
  import opened Totals
  import Log2

  const EVENT_LIMIT: nat := 200
  const TAIL_LIMIT: nat := 20

  /** The payloads are whatever the pollers send. */
  datatype Model<!S, !B, !E> =
    Model(active: int, syscalls: seq<S>, buckets: seq<B>, events: seq<E>, width: int, height: int)

  datatype Msg<!S, !B, !E> =
    | WindowSize(width: int, height: int)
    | Key(name: string)
    | SyscallData(rows: seq<S>)
    | LatencyData(table: seq<B>)
    | EventData(event: E)
    | TickMsg

  function NewModel<S, B, E>(): Model<S, B, E> {
    Model(0, [], [], [], 0, 0)
  }

  /** The command a message leads to: none, quitting, or the next tick. */
  datatype Cmd = NoCmd | Quit | TickEvery

  predicate IsQuit(name: string) { name == "q" || name == "ctrl+c" }

  /** The view a key leads to. */
  function ViewAfter(active: int, name: string): (view: int)
    ensures 0 <= active < 3 ==> 0 <= view < 3
  {
    if name == "1" then 0 else if name == "2" then 1 else if name == "3" then 2
    else if name == "tab" then (active + 1) % 3 else active
  }

  /** Model.Update on its copied receiver. */
  method Update<S, B, E>(m: Model<S, B, E>, msg: Msg<S, B, E>) returns (next: Model<S, B, E>, cmd: Cmd)
    ensures next == Updated(m, msg)
    ensures cmd.Quit? <==> msg == Key("q") || msg == Key("ctrl+c")
    ensures cmd.TickEvery? <==> msg.TickMsg?
  {
    next, cmd := m, NoCmd;
    match msg
    case WindowSize(w, h) =>
      next := next.(width := w, height := h);
    case Key(name) =>
      if IsQuit(name) { return next, Quit; }
      next := next.(active := ViewAfter(next.active, name));
    case SyscallData(rows) =>
      next := next.(syscalls := rows);
    case LatencyData(table) =>
      next := next.(buckets := table);
    case EventData(event) =>
      next := next.(events := next.events + [event]);
      if |next.events| > EVENT_LIMIT {
        next := next.(events := next.events[|next.events| - EVENT_LIMIT..]);
      }
    case TickMsg =>
      cmd := TickEvery;
  }

  function Updated<S, B, E>(m: Model<S, B, E>, msg: Msg<S, B, E>): Model<S, B, E> {
    match msg
    case WindowSize(w, h) => m.(width := w, height := h)
    case Key(name) => m.(active := ViewAfter(m.active, name))
    case SyscallData(rows) => m.(syscalls := rows)
    case LatencyData(table) => m.(buckets := table)
    case EventData(event) => m.(events := Last(m.events + [event], EVENT_LIMIT))
    case TickMsg => m
  }

  /** The last n elements of s, or all of them. */
  function Last<T>(s: seq<T>, n: nat): seq<T> {
    if |s| > n then s[|s| - n..] else s
  }

  /** renderEvents: which events get a line. */
  method RenderEvents<E>(events: seq<E>) returns (shown: seq<E>)
    ensures shown == Last(events, TAIL_LIMIT)
  {
    shown := [];
    if |events| == 0 { return; }
    var start := 0;
    if |events| > TAIL_LIMIT { start := |events| - TAIL_LIMIT; }
    for i := start to |events|
      invariant shown == events[start..i]
    {
      shown := shown + [events[i]];
    }
  }

  function After<S, B, E>(msgs: seq<Msg<S, B, E>>): Model<S, B, E> {
    if msgs == [] then NewModel() else Updated(After(msgs[..|msgs| - 1]), msgs[|msgs| - 1])
  }

  /** Every event received, oldest first. */
  function Received<S, B, E>(msgs: seq<Msg<S, B, E>>): seq<E> {
    if msgs == [] then [] else
    Received(msgs[..|msgs| - 1]) + if msgs[|msgs| - 1].EventData? then [msgs[|msgs| - 1].event] else []
  }

  lemma LastOfLast<T>(s: seq<T>, m: nat, n: nat)
    requires n <= m
    ensures Last(Last(s, m), n) == Last(s, n)
  {
  }

  lemma LastGrows<T>(s: seq<T>, x: T, n: nat)
    requires n >= 1
    ensures Last(Last(s, n) + [x], n) == Last(s + [x], n)
  {
  }

  /** After any messages the buffer holds the last 200 events received and the active
      view is one of the three. */
  lemma {:induction false} BufferIsRecent<S, B, E>(msgs: seq<Msg<S, B, E>>)
    ensures After(msgs).events == Last(Received(msgs), 200) && 0 <= After(msgs).active < 3
  {
    if msgs != [] {
      var n := |msgs| - 1;
      BufferIsRecent(msgs[..n]);
      if msgs[n].EventData? { LastGrows(Received(msgs[..n]), msgs[n].event, EVENT_LIMIT); }
      else { assert Received(msgs) == Received(msgs[..n]); }
    }
  }

  /** Trimming the buffer never shows: the rendered tail is that of the whole history. */
  lemma {:induction false} TailIsRecent<S, B, E>(msgs: seq<Msg<S, B, E>>)
    ensures Last(After(msgs).events, TAIL_LIMIT) == Last(Received(msgs), 20)
  {
    BufferIsRecent(msgs);
    LastOfLast(Received(msgs), EVENT_LIMIT, TAIL_LIMIT);
  }

  // ---- what the other messages leave behind ----

  predicate ChoosesView<S, B, E>(msg: Msg<S, B, E>) {
    msg.Key? && (msg.name == "1" || msg.name == "2" || msg.name == "3")
  }

  /** How often tab was pressed. */
  function Tabs<S, B, E>(msgs: seq<Msg<S, B, E>>): nat {
    if msgs == [] then 0 else Tabs(msgs[..|msgs| - 1]) + if msgs[|msgs| - 1] == Key("tab") then 1 else 0
  }

  /** The tabs after the last key that chose a view turn through the three views. */
  lemma {:induction false} TabsTurn<S, B, E>(before: seq<Msg<S, B, E>>, rest: seq<Msg<S, B, E>>)
    requires forall i :: 0 <= i < |rest| ==> !ChoosesView(rest[i])
    ensures After(before + rest).active == (After(before).active + Tabs(rest)) % 3
  {
    BufferIsRecent(before);
    if rest == [] {
      assert before + rest == before;
    } else {
      var n := |rest| - 1;
      assert (before + rest)[..|before + rest| - 1] == before + rest[..n];
      TabsTurn(before, rest[..n]);
      BufferIsRecent(before + rest[..n]);
      OneTurn(After(before + rest[..n]), rest[n]);
      Turns(After(before).active, Tabs(rest[..n]), if rest[n] == Key("tab") then 1 else 0);
    }
  }

  lemma OneTurn<S, B, E>(m: Model<S, B, E>, msg: Msg<S, B, E>)
    requires 0 <= m.active < 3 && !ChoosesView(msg)
    ensures Updated(m, msg).active == (m.active + if msg == Key("tab") then 1 else 0) % 3
  {
  }

  lemma Turns(view: int, tabs: nat, more: nat)
    ensures ((view + tabs) % 3 + more) % 3 == (view + (tabs + more)) % 3
  {
  }

  /** The active view: the first one before any view is chosen, then the chosen one, and
      each tab leads to the next, around. */
  lemma ActiveView<S, B, E>(before: seq<Msg<S, B, E>>, key: string, rest: seq<Msg<S, B, E>>)
    requires forall i :: 0 <= i < |rest| ==> !ChoosesView(rest[i])
    ensures After(rest).active == Tabs(rest) % 3
    ensures key == "1" ==> After(before + [Key(key)] + rest).active == Tabs(rest) % 3
    ensures key == "2" ==> After(before + [Key(key)] + rest).active == (1 + Tabs(rest)) % 3
    ensures key == "3" ==> After(before + [Key(key)] + rest).active == (2 + Tabs(rest)) % 3
  {
    var none: seq<Msg<S, B, E>> := [];
    TabsTurn(none, rest);
    assert none + rest == rest;
    TabsTurn(before + [Key(key)], rest);
    assert (before + [Key(key)])[..|before|] == before;
  }

  /** The tables and the size shown are the ones received last. */
  lemma {:induction false} LastOnesStay<S, B, E>(before: seq<Msg<S, B, E>>, rest: seq<Msg<S, B, E>>)
    ensures (forall i :: 0 <= i < |rest| ==> !rest[i].SyscallData?) ==>
      After(before + rest).syscalls == After(before).syscalls
    ensures (forall i :: 0 <= i < |rest| ==> !rest[i].LatencyData?) ==>
      After(before + rest).buckets == After(before).buckets
    ensures (forall i :: 0 <= i < |rest| ==> !rest[i].WindowSize?) ==>
      After(before + rest).width == After(before).width && After(before + rest).height == After(before).height
  {
    if rest == [] {
      assert before + rest == before;
    } else {
      var n := |rest| - 1;
      assert (before + rest)[..|before + rest| - 1] == before + rest[..n];
      LastOnesStay(before, rest[..n]);
    }
  }

  lemma LastOnesShown<S, B, E>(before: seq<Msg<S, B, E>>, msg: Msg<S, B, E>, rest: seq<Msg<S, B, E>>)
    ensures msg.SyscallData? && (forall i :: 0 <= i < |rest| ==> !rest[i].SyscallData?) ==>
      After(before + [msg] + rest).syscalls == msg.rows
    ensures msg.LatencyData? && (forall i :: 0 <= i < |rest| ==> !rest[i].LatencyData?) ==>
      After(before + [msg] + rest).buckets == msg.table
    ensures msg.WindowSize? && (forall i :: 0 <= i < |rest| ==> !rest[i].WindowSize?) ==>
      After(before + [msg] + rest).width == msg.width && After(before + [msg] + rest).height == msg.height
  {
    LastOnesStay(before + [msg], rest);
    assert (before + [msg])[..|before|] == before;
  }

  // ---- the histogram window ----

  predicate Empty(b: seq<nat>) { forall i :: 0 <= i < |b| ==> b[i] == 0 }

  /** The rows printHistogram shows; None is its "no data yet". */
  method HistogramWindow(buckets: seq<nat>) returns (window: Option<(int, int)>, maxCount: nat)
    requires |buckets| == Log2.MAX_BUCKETS
    ensures window.None? <==> Empty(buckets)
    ensures forall i :: 0 <= i < |buckets| ==> buckets[i] <= maxCount
    ensures window.Some? ==> maxCount in buckets && maxCount > 0
    ensures window.Some? ==> exists first, last {:trigger Spans(buckets, first, last)} ::
      Spans(buckets, first, last) && TwoAround(window.value.0, window.value.1, first, last)
  {
    maxCount := 0;
    for i := 0 to |buckets|
      invariant forall k :: 0 <= k < i ==> buckets[k] <= maxCount
      invariant maxCount > 0 ==> maxCount in buckets[..i]
    {
      if buckets[i] > maxCount { maxCount := buckets[i]; }
    }
    var first, last := -1, -1;
    for i := 0 to |buckets|
      invariant first == -1 <==> Empty(buckets[..i])
      invariant first == -1 ==> last == -1
      invariant first != -1 ==> 0 <= first <= last < i && buckets[first] > 0 && buckets[last] > 0
      invariant forall k :: 0 <= k < i && buckets[k] > 0 ==> first <= k <= last
    {
      if buckets[i] > 0 {
        if first == -1 { first := i; }
        last := i;
      }
    }
    assert buckets[..|buckets|] == buckets;
    if first == -1 { return None, maxCount; }
    var showFrom := first - 2;
    if showFrom < 0 { showFrom := 0; }
    var showTo := last + 2;
    if showTo >= Log2.MAX_BUCKETS { showTo := Log2.MAX_BUCKETS - 1; }
    assert Spans(buckets, first, last);
    window := Some((showFrom, showTo));
  }

  /** The data lie exactly between rows first and last. */
  predicate Spans(b: seq<nat>, first: nat, last: nat) {
    && first <= last < |b| && b[first] > 0 && b[last] > 0
    && forall k :: 0 <= k < |b| && b[k] > 0 ==> first <= k <= last
  }

  /** Rows from to `end` are the data and two more rows on either side, as far as there
      are rows, which are numbered 0 to 31. */
  predicate TwoAround(from: int, end: int, first: nat, last: nat) {
    && first - from == (if first < 2 then first else 2)
    && end - last == (if 31 - last < 2 then 31 - last else 2)
  }

  lemma SumInThree(b: seq<int>, from: nat, end: nat)
    requires from <= end <= |b|
    ensures Sum(b) == Sum(b[..from]) + Sum(b[from..end]) + Sum(b[end..])
  {
    SumCut(b, end);
    SumCut(b[..end], from);
    assert b[..end][..from] == b[..from] && b[..end][from..] == b[from..end];
  }

  lemma SumCut(b: seq<int>, k: nat)
    requires k <= |b|
    ensures Sum(b) == Sum(b[..k]) + Sum(b[k..])
  {
    SumConcat(b[..k], b[k..]);
    assert b == b[..k] + b[k..];
  }

  lemma SumOfMiddle(b: seq<nat>, from: nat, end: nat)
    requires from <= end <= |b| && Empty(b[..from]) && Empty(b[end..])
    ensures Sum(b[from..end]) == Sum(b)
  {
    SumInThree(b, from, end);
    SumZeros(b[..from]);
    SumZeros(b[end..]);
  }

  lemma SumOfRows(b: seq<nat>, first: nat, last: nat, from: nat, end: nat)
    requires Spans(b, first, last) && from <= first && last < end <= |b|
    ensures Sum(b[from..end]) == Sum(b)
  {
    OnlyEmptyLeftOut(b, first, last, from, end);
    SumOfMiddle(b, from, end);
  }

  lemma OnlyEmptyLeftOut(b: seq<nat>, first: nat, last: nat, from: nat, end: nat)
    requires Spans(b, first, last) && from <= first && last < end <= |b|
    ensures Empty(b[..from]) && Empty(b[end..])
  {
    forall k | 0 <= k < |b| - end ensures b[end..][k] == 0 {
      assert b[end..][k] == b[end + k];
    }
  }

  /** The counts shown add up to all the samples. */
  lemma WindowShowsAll(b: seq<nat>, first: nat, last: nat, from: int, end: int)
    requires |b| == Log2.MAX_BUCKETS && Spans(b, first, last) && TwoAround(from, end, first, last)
    ensures 0 <= from <= end < |b| && Sum(b[from..end + 1]) == Sum(b)
  {
    SumOfRows(b, first, last, from, end + 1);
  }
}
