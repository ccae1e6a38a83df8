/** What every step of the uprobe programs keeps. */
module UprobePairing {
  import opened Bpf
  import opened Wire
  import opened UprobeWire
  import opened Uprobe

  // ---- what holds of one thread ----

  /** Call ids on the stack grow outward-in, every open call but the last has an inner
      one, and returns are caught from some depth on. While a return is being
      handled every call still open has had an inner one. */
  ghost predicate StackOk(kind: Kind, exitOn: bool, returning: bool, cs: seq<Call>, st: seq<nat>) {
    && (forall i :: 0 <= i < |st| ==>
          st[i] < |cs| && cs[st[i]].rc.None? && (!kind.EntryOnly? ==> cs[st[i]].outcome.Silent?))
    && (forall i, j :: 0 <= i < j < |st| ==> st[i] < st[j] && (cs[st[i]].hooked ==> cs[st[j]].hooked))
    && (forall i :: 0 <= i < |st| - 1 ==> cs[st[i]].inner)
    && (forall c :: 0 <= c < |cs| && cs[c].hooked ==> exitOn)
    && (kind.EntryExit? && returning ==> forall i :: 0 <= i < |st| ==> cs[st[i]].inner)
  }

  ghost predicate Stacked(cfg: Config, s: State, t: nat)
    requires t in s.threads
  {
    var th := s.threads[t];
    StackOk(cfg.kind, s.exitOn, th.pc.Matching() || th.pc.Emitting(), th.calls, th.stack)
  }

  ghost predicate TopHooked(th: Thread) {
    th.stack != [] && Top(th) < |th.calls| && th.calls[Top(th)].hooked
  }

  /** Cell `cell` holds the time the enter handler of t's call origin[cell] read. */
  ghost predicate Stamped(s: State, t: nat, cell: nat)
    requires t in s.threads
  {
    var cs := s.threads[t].calls;
    && cell < |s.entryTs.cells| == |s.origin| && s.origin[cell] < |cs|
    && cs[s.origin[cell]].entered == Some(s.entryTs.cells[cell]) && cs[s.origin[cell]].insert.Stored?
    && s.entryTs.cells[cell] <= s.clock < TWO64
  }

  /** Whose timestamp is in the map: the innermost open call's if its return will be
      caught, otherwise that of a call whose return is never caught. */
  ghost predicate Entry(cfg: Config, s: State, t: nat)
    requires t in s.threads
  {
    t in s.entryTs.index ==>
      var th := s.threads[t]; var cs := th.calls; var cell := s.entryTs.index[t];
      && cfg.kind.EntryExit? && Admits(cfg, th.pid) && Stamped(s, t, cell)
      && !th.pc.Emitting()
      && (th.pc.Matching() ==> s.origin[cell] == th.pc.call && th.pc.call < |cs| && !cs[th.pc.call].inner)
      && (th.pc.User? ==>
            if TopHooked(th) then s.origin[cell] == Top(th) && !cs[Top(th)].inner
            else !cs[s.origin[cell]].hooked)
  }

  /** What the handler t is in holds in its locals. */
  ghost predicate Locals(cfg: Config, s: State, t: nat)
    requires t in s.threads
  {
    var th := s.threads[t]; var cs := th.calls; var pc := th.pc; var n := |cs|;
    && (pc.Entering() ==>
          && cfg.kind.EntryExit? && Admits(cfg, th.pid) && th.stack != [] && Top(th) == n - 1
          && cs[n - 1].seen && !cs[n - 1].inner && cs[n - 1].insert.Untried?)
    && (pc.PairUpdate? ==> cs[n - 1].entered == Some(pc.ts) && pc.ts <= s.clock)
    && (pc.Matching() ==>
          && cfg.kind.EntryExit? && pc.call < n && cs[pc.call].rc == Some(pc.rc) && pc.rc < TWO64
          && cs[pc.call].hooked && cs[pc.call].outcome.Silent?)
    && (pc.PairNow? ==> t in s.entryTs.index && s.entryTs.index[t] == pc.cell)
    && ((pc.PairNow? || pc.PairDelete?) ==> !cs[pc.call].inner)
    && (pc.PairDelete? ==> OwnTimes(cs[pc.call]) && pc.latency == cs[pc.call].exited.value - cs[pc.call].entered.value)
    && (pc.Emitting() ==>
          && pc.call < n && pc.out.Valid() && Carries(cfg, cs[pc.call], pc.out)
          && ((pc.Reserve? || pc.Drop?) ==> cs[pc.call].outcome.Silent?)
          && (pc.InFlight() ==> cs[pc.call].outcome == Reported(pc.slot)))
  }

  ghost predicate OwnTimes(c: Call) {
    c.insert.Stored? && c.entered.Some? && c.exited.Some? && c.entered.value <= c.exited.value < TWO64
  }

  /** `out` is what an event about call c has to say: for a pair, that c was a leaf,
      its own duration and its own return value. */
  ghost predicate Carries(cfg: Config, c: Call, out: Payload) {
    match cfg.kind
    case EntryOnly => c.seen && out == Args(c.arg0, c.arg1)
    case ReturnOnly => c.hooked && c.rc.Some? && out == Return(c.rc.value)
    case EntryExit =>
      && c.hooked && !c.inner && OwnTimes(c) && c.rc.Some?
      && out == Pair(c.exited.value - c.entered.value, c.rc.value)
  }

  /** Call c of t is over and no handler is working on it. */
  ghost predicate Finished(th: Thread, c: nat) {
    && c < |th.calls| && c !in th.stack
    && !((th.pc.Matching() || th.pc.Emitting()) && th.pc.call == c)
  }

  /** What must become of each call. */
  ghost predicate Fate(cfg: Config, th: Thread, c: nat)
    requires c < |th.calls|
  {
    var call := th.calls[c];
    match cfg.kind
    case EntryOnly => call.seen && !(th.pc.Emitting() && th.pc.call == c) ==> !call.outcome.Silent?
    case ReturnOnly => call.hooked && Admits(cfg, th.pid) && Finished(th, c) ==> !call.outcome.Silent?
    case EntryExit =>
      && (call.inner || c in th.stack ==> call.outcome.Silent?)
      && (call.hooked && Admits(cfg, th.pid) ==> call.seen)
      && (call.seen && !(th.pc.Entering() && c == |th.calls| - 1) ==> !call.insert.Untried?)
      && (call.insert.Refused? ==> call.outcome.Silent?)
      && (call.hooked && Admits(cfg, th.pid) && Finished(th, c) && !call.inner && call.insert.Stored? ==>
            !call.outcome.Silent?)
  }

  /** A stored leaf's timestamp waits in the map until its return finds it. */
  ghost predicate Waiting(cfg: Config, s: State, t: nat)
    requires t in s.threads
  {
    var th := s.threads[t]; var cs := th.calls;
    cfg.kind.EntryExit? ==>
      && (th.pc.User? && TopHooked(th) && !cs[Top(th)].inner && cs[Top(th)].insert.Stored? ==>
            t in s.entryTs.index)
      && (th.pc.PairLookup? && th.pc.call < |cs| && !cs[th.pc.call].inner && cs[th.pc.call].insert.Stored? ==>
            t in s.entryTs.index)
  }

  ghost predicate Own(cfg: Config, s: State, t: nat)
    requires t in s.threads
  {
    && Stacked(cfg, s, t) && Entry(cfg, s, t) && Locals(cfg, s, t) && Waiting(cfg, s, t)
    && forall c :: 0 <= c < |s.threads[t].calls| ==> Fate(cfg, s.threads[t], c)
  }

  // ---- what holds of the ring ----

  ghost predicate SlotOk(cfg: Config, s: State, k: nat)
    requires k < |s.ring|
  {
    var x := s.ring[k];
    && x.tid in s.threads && x.call < |s.threads[x.tid].calls|
    && s.threads[x.tid].calls[x.call].outcome == Reported(k)
    && Carries(cfg, s.threads[x.tid].calls[x.call], x.out) && x.out.Valid()
    && |x.stale| == SIZE && |x.raw| == SIZE
    && (x.header.None? ==> x.raw == x.stale && !x.committed)
    && (x.header.Some? ==>
          && x.header.value.Valid() && x.raw == Record(x.stale, x.header.value, x.out)
          && x.header.value.pid == s.threads[x.tid].pid && x.header.value.tid == x.tid
          && x.header.value.probeId == cfg.probeId)
    && (!x.committed ==> s.threads[x.tid].pc.InFlight() && s.threads[x.tid].pc.slot == k)
  }

  /** The slot a thread is working on is its own and not yet committed. */
  ghost predicate Holds(s: State, t: nat)
    requires t in s.threads
  {
    var pc := s.threads[t].pc;
    pc.InFlight() ==>
      && pc.slot < |s.ring| && s.ring[pc.slot].tid == t && s.ring[pc.slot].call == pc.call
      && s.ring[pc.slot].out == pc.out && !s.ring[pc.slot].committed
      && (pc.Submit? <==> s.ring[pc.slot].header.Some?)
  }

  /** A reported call's slot is its own. */
  ghost predicate Named(s: State, t: nat)
    requires t in s.threads
  {
    var cs := s.threads[t].calls;
    forall c :: 0 <= c < |cs| && cs[c].outcome.Reported? ==>
      && cs[c].outcome.slot < |s.ring|
      && s.ring[cs[c].outcome.slot].tid == t && s.ring[cs[c].outcome.slot].call == c
  }

  ghost predicate Shared(cfg: Config, s: State) {
    && s.entryTs.Valid() && |s.entryTs.cells| == |s.origin| && |s.entryTs.index| <= MAX_ENTRIES
    && s.clock < TWO64 && (cfg.kind.EntryExit? && s.exitOn ==> s.entryOn)
    && (cfg.kind.ReturnOnly? ==> !s.entryOn) && (cfg.kind.EntryOnly? ==> !s.exitOn)
    && s.consumed <= |s.ring|
    && (forall k :: 0 <= k < s.consumed ==> s.ring[k].committed)
  }

  ghost predicate Inv(cfg: Config, s: State) {
    && Shared(cfg, s)
    && (forall t :: t in s.threads ==> Own(cfg, s, t) && Holds(s, t))
    && (forall k :: 0 <= k < |s.ring| ==> SlotOk(cfg, s, k))
  }

  // ---- a step of one thread leaves the others alone ----

  /** Calls that were reported stay as they are, up to what happens after an entry
      event was emitted. */
  ghost predicate Settled(cfg: Config, th: Thread, th': Thread) {
    && th'.pid == th.pid && |th.calls| <= |th'.calls|
    && forall c :: 0 <= c < |th.calls| && th.calls[c].outcome.Reported? ==>
         if cfg.kind.EntryOnly?
         then th'.calls[c].(inner := th.calls[c].inner, rc := th.calls[c].rc) == th.calls[c]
         else th'.calls[c] == th.calls[c]
  }

  ghost predicate OnlyMoved(cfg: Config, s: State, s': State, t: nat) {
    && s'.threads.Keys == s.threads.Keys
    && (forall u :: u in s.threads && u != t ==> s'.threads[u] == s.threads[u])
    && (forall u :: u != t ==> s'.entryTs.Lookup(u) == s.entryTs.Lookup(u))
    && Prefix(s.entryTs.cells, s'.entryTs.cells) && Prefix(s.origin, s'.origin)
    && s.clock <= s'.clock && (s.exitOn ==> s'.exitOn)
    && |s.ring| <= |s'.ring|
    && (forall k :: 0 <= k < |s.ring| && (s.ring[k].tid != t || s.ring[k].committed) ==> s'.ring[k] == s.ring[k])
    && (t in s.threads ==> Settled(cfg, s.threads[t], s'.threads[t]))
  }

  lemma OthersKeep(cfg: Config, s: State, s': State, t: nat, u: nat)
    requires Shared(cfg, s) && Shared(cfg, s') && OnlyMoved(cfg, s, s', t)
    requires u != t && u in s.threads && Own(cfg, s, u)
    ensures Own(cfg, s', u)
  {
    assert s'.entryTs.Lookup(u) == s.entryTs.Lookup(u);
    assert forall c :: 0 <= c < |s.threads[u].calls| ==> Fate(cfg, s.threads[u], c);
  }

  lemma OthersHold(cfg: Config, s: State, s': State, t: nat, u: nat)
    requires OnlyMoved(cfg, s, s', t) && u != t && u in s.threads && Holds(s, u)
    ensures Holds(s', u)
  {
  }

  lemma SlotsKeep(cfg: Config, s: State, s': State, t: nat, k: nat)
    requires OnlyMoved(cfg, s, s', t) && k < |s.ring| && SlotOk(cfg, s, k)
    requires s.ring[k].tid != t || s.ring[k].committed
    ensures SlotOk(cfg, s', k)
  {
    var x := s.ring[k];
    var c, c' := s.threads[x.tid].calls[x.call], s'.threads[x.tid].calls[x.call];
    if cfg.kind.EntryOnly? { assert c'.outcome == c.outcome && c'.seen == c.seen; }
  }

  // ---- a step keeps what holds of the thread that takes it ----

  lemma Marked(th: Thread, c: nat)
    requires c < |th.calls|
    ensures |MarkInner(th)| == |th.calls|
    ensures var m, o := MarkInner(th)[c], th.calls[c];
      m.hooked == o.hooked && m.rc == o.rc && m.outcome == o.outcome && (o.inner ==> m.inner)
  {
  }

  lemma PushOk(kind: Kind, exitOn: bool, cs: seq<Call>, st: seq<nat>, cs': seq<Call>, call: Call, emitting: bool)
    requires StackOk(kind, exitOn, false, cs, st) && |cs'| == |cs|
    requires forall c :: 0 <= c < |cs| ==>
      && cs'[c].hooked == cs[c].hooked && cs'[c].rc == cs[c].rc && cs'[c].outcome == cs[c].outcome
      && (cs[c].inner ==> cs'[c].inner)
    requires st != [] ==> cs'[st[|st| - 1]].inner
    requires call.hooked == exitOn && call.rc.None? && call.outcome.Silent? && (kind.EntryExit? ==> !emitting)
    ensures StackOk(kind, exitOn, emitting, cs' + [call], st + [|cs|])
  {
  }

  lemma EnterStacked(cfg: Config, s: State, t: nat, arg0: nat, arg1: nat)
    requires Shared(cfg, s) && t in s.threads && Stacked(cfg, s, t) && s.threads[t].pc.User?
    ensures Stacked(cfg, Enter(cfg, s, t, arg0, arg1), t)
  {
    var th, th' := s.threads[t], Enter(cfg, s, t, arg0, arg1).threads[t];
    forall c | 0 <= c < |th.calls|
      ensures var m, o := MarkInner(th)[c], th.calls[c];
        m.hooked == o.hooked && m.rc == o.rc && m.outcome == o.outcome && (o.inner ==> m.inner)
    {
      Marked(th, c);
    }
    PushOk(cfg.kind, s.exitOn, th.calls, th.stack, MarkInner(th), th'.calls[|th.calls|], th'.pc.Emitting());
  }

  lemma EnterKeeps(cfg: Config, s: State, t: nat, arg0: nat, arg1: nat)
    requires Shared(cfg, s) && t in s.threads && Own(cfg, s, t) && s.threads[t].pc.User?
    requires arg0 < TWO64 && arg1 < TWO64
    ensures var s' := Enter(cfg, s, t, arg0, arg1); Entry(cfg, s', t) && Locals(cfg, s', t) && Waiting(cfg, s', t)
  {
  }

  lemma EnterFate(cfg: Config, s: State, t: nat, arg0: nat, arg1: nat, c: nat)
    requires Shared(cfg, s) && t in s.threads && Own(cfg, s, t) && s.threads[t].pc.User?
    requires c <= |s.threads[t].calls|
    ensures var s' := Enter(cfg, s, t, arg0, arg1); c < |s'.threads[t].calls| && Fate(cfg, s'.threads[t], c)
  {
    if c < |s.threads[t].calls| { assert Fate(cfg, s.threads[t], c); }
  }

  lemma LeaveStacked(cfg: Config, s: State, t: nat, rc: nat)
    requires Shared(cfg, s) && t in s.threads && Stacked(cfg, s, t) && s.threads[t].stack != []
    ensures Stacked(cfg, Leave(cfg, s, t, rc), t)
  {
  }

  lemma LeaveEntry(cfg: Config, s: State, t: nat, rc: nat)
    requires Shared(cfg, s) && t in s.threads && Own(cfg, s, t) && s.threads[t].pc.User? && s.threads[t].stack != []
    ensures var s' := Leave(cfg, s, t, rc); Entry(cfg, s', t) && Waiting(cfg, s', t)
  {
  }

  lemma LeaveLocals(cfg: Config, s: State, t: nat, rc: nat)
    requires Shared(cfg, s) && t in s.threads && Own(cfg, s, t) && s.threads[t].pc.User? && s.threads[t].stack != []
    requires rc < TWO64
    ensures Locals(cfg, Leave(cfg, s, t, rc), t)
  {
  }

  lemma LeaveFate(cfg: Config, s: State, t: nat, rc: nat, c: nat)
    requires Shared(cfg, s) && t in s.threads && Own(cfg, s, t) && s.threads[t].pc.User? && s.threads[t].stack != []
    requires c < |s.threads[t].calls|
    ensures Fate(cfg, Leave(cfg, s, t, rc).threads[t], c)
  {
    assert Fate(cfg, s.threads[t], c);
  }

  /** The four parts other than the fates, after a helper call. */
  ghost predicate Body(cfg: Config, s: State, t: nat)
    requires t in s.threads
  {
    Stacked(cfg, s, t) && Entry(cfg, s, t) && Locals(cfg, s, t) && Waiting(cfg, s, t)
  }

  ghost predicate Fates(cfg: Config, th: Thread) {
    forall c :: 0 <= c < |th.calls| ==> Fate(cfg, th, c)
  }

  lemma ClockBody(cfg: Config, s: State, t: nat)
    requires Shared(cfg, s) && t in s.threads && Body(cfg, s, t) && s.threads[t].pc.PairClock?
    ensures var c := Top(s.threads[t]);
      && c < |s.threads[t].calls|
      && Body(cfg, Now(s, t, PairUpdate(s.clock), c, s.threads[t].calls[c].(entered := Some(s.clock))), t)
  {
    ClockStacked(cfg, s, t);
  }

  lemma ClockStacked(cfg: Config, s: State, t: nat)
    requires t in s.threads && Stacked(cfg, s, t) && Locals(cfg, s, t) && s.threads[t].pc.PairClock?
    ensures var c := Top(s.threads[t]);
      && c < |s.threads[t].calls|
      && Stacked(cfg, Now(s, t, PairUpdate(s.clock), c, s.threads[t].calls[c].(entered := Some(s.clock))), t)
  {
  }

  lemma StoreAccepted(cfg: Config, s: State, t: nat)
    requires Shared(cfg, s) && t in s.threads && Body(cfg, s, t) && s.threads[t].pc.PairUpdate?
    requires s.entryTs.Accepts(t, MAX_ENTRIES)
    ensures Body(cfg, StoreEntry(s, t, s.threads[t].pc.ts), t)
  {
    AcceptedStacked(cfg, s, t);
    AcceptedLocals(cfg, s, t);
    var s' := StoreEntry(s, t, s.threads[t].pc.ts);
    assert s'.entryTs.index[t] == |s.origin| && s'.origin[|s.origin|] == Top(s.threads[t]);
    assert Stamped(s', t, |s.origin|);
  }

  lemma AcceptedStacked(cfg: Config, s: State, t: nat)
    requires t in s.threads && Stacked(cfg, s, t) && Locals(cfg, s, t) && s.threads[t].pc.PairUpdate?
    requires s.entryTs.Accepts(t, MAX_ENTRIES)
    ensures Stacked(cfg, StoreEntry(s, t, s.threads[t].pc.ts), t)
  {
  }

  lemma AcceptedLocals(cfg: Config, s: State, t: nat)
    requires t in s.threads && Locals(cfg, s, t) && s.threads[t].pc.PairUpdate?
    requires s.entryTs.Accepts(t, MAX_ENTRIES)
    ensures var s' := StoreEntry(s, t, s.threads[t].pc.ts); Locals(cfg, s', t) && Waiting(cfg, s', t)
  {
  }

  lemma StoreRefused(cfg: Config, s: State, t: nat)
    requires Shared(cfg, s) && t in s.threads && Body(cfg, s, t) && s.threads[t].pc.PairUpdate?
    requires !s.entryTs.Accepts(t, MAX_ENTRIES)
    ensures Body(cfg, StoreEntry(s, t, s.threads[t].pc.ts), t)
  {
  }

  lemma EnteringFate(cfg: Config, s: State, t: nat, room: bool, stale: seq<byte>, comm: seq<byte>, c: nat)
    requires Shared(cfg, s) && t in s.threads && Body(cfg, s, t) && s.threads[t].pc.Entering()
    requires c < |s.threads[t].calls| && Fate(cfg, s.threads[t], c)
    ensures var th := Helper(cfg, s, t, room, stale, comm).threads[t];
      |th.calls| == |s.threads[t].calls| && Fate(cfg, th, c)
  {
    if s.threads[t].pc.PairUpdate? { StoreFate(cfg, s, t, room, stale, comm, c); }
  }

  lemma StoreFate(cfg: Config, s: State, t: nat, room: bool, stale: seq<byte>, comm: seq<byte>, c: nat)
    requires t in s.threads && Body(cfg, s, t) && s.threads[t].pc.PairUpdate?
    requires c < |s.threads[t].calls| && Fate(cfg, s.threads[t], c)
    ensures var th := Helper(cfg, s, t, room, stale, comm).threads[t];
      |th.calls| == |s.threads[t].calls| && Fate(cfg, th, c)
  {
  }

  lemma LookupBody(cfg: Config, s: State, t: nat)
    requires Shared(cfg, s) && t in s.threads && Body(cfg, s, t) && s.threads[t].pc.PairLookup?
    ensures var pc := s.threads[t].pc; var found := s.entryTs.Lookup(t);
      Body(cfg, With(s, t, s.threads[t].(pc := if found.Some? then PairNow(pc.call, pc.rc, found.value) else User)), t)
  {
  }

  lemma NowBody(cfg: Config, s: State, t: nat)
    requires Shared(cfg, s) && t in s.threads && Body(cfg, s, t) && s.threads[t].pc.PairNow?
    ensures var pc := s.threads[t].pc;
      && pc.call < |s.threads[t].calls| && pc.cell < |s.entryTs.cells|
      && Body(cfg, Now(s, t, PairDelete(pc.call, pc.rc, (s.clock - s.entryTs.cells[pc.cell]) % TWO64),
                       pc.call, s.threads[t].calls[pc.call].(exited := Some(s.clock))), t)
  {
    var pc := s.threads[t].pc;
    assert Stamped(s, t, pc.cell);
    TimedBody(cfg, s, t, s.clock - s.entryTs.cells[pc.cell]);
    assert (s.clock - s.entryTs.cells[pc.cell]) % TWO64 == s.clock - s.entryTs.cells[pc.cell];
  }

  lemma TimedBody(cfg: Config, s: State, t: nat, latency: nat)
    requires Shared(cfg, s) && t in s.threads && Body(cfg, s, t) && s.threads[t].pc.PairNow?
    requires Stamped(s, t, s.threads[t].pc.cell) && latency == s.clock - s.entryTs.cells[s.threads[t].pc.cell]
    ensures var pc := s.threads[t].pc;
      && pc.call < |s.threads[t].calls|
      && Body(cfg, Now(s, t, PairDelete(pc.call, pc.rc, latency),
                       pc.call, s.threads[t].calls[pc.call].(exited := Some(s.clock))), t)
  {
  }

  lemma DeleteBody(cfg: Config, s: State, t: nat, room: bool, stale: seq<byte>, comm: seq<byte>)
    requires Shared(cfg, s) && t in s.threads && Body(cfg, s, t) && s.threads[t].pc.PairDelete?
    ensures Body(cfg, Helper(cfg, s, t, room, stale, comm), t)
  {
    var pc, s' := s.threads[t].pc, Helper(cfg, s, t, room, stale, comm);
    assert s'.threads[t] == s.threads[t].(pc := Reserve(pc.call, Pair(pc.latency, pc.rc)));
    assert t !in s'.entryTs.index;
    assert Stacked(cfg, s', t);
  }

  lemma MatchingFate(cfg: Config, s: State, t: nat, room: bool, stale: seq<byte>, comm: seq<byte>, c: nat)
    requires Shared(cfg, s) && t in s.threads && Body(cfg, s, t) && s.threads[t].pc.Matching()
    requires c < |s.threads[t].calls| && Fate(cfg, s.threads[t], c)
    ensures var th := Helper(cfg, s, t, room, stale, comm).threads[t];
      |th.calls| == |s.threads[t].calls| && Fate(cfg, th, c)
  {
  }

  lemma ReserveBody(cfg: Config, s: State, t: nat, room: bool, stale: seq<byte>)
    requires Shared(cfg, s) && t in s.threads && Body(cfg, s, t) && s.threads[t].pc.Reserve?
    ensures var pc := s.threads[t].pc;
      pc.call < |s.threads[t].calls| && Body(cfg, ReserveSlot(s, t, pc.call, pc.out, room, stale), t)
  {
    if room { ReservedBody(cfg, s, t, stale); } else { FullBody(cfg, s, t, stale); }
  }

  lemma ReservedBody(cfg: Config, s: State, t: nat, stale: seq<byte>)
    requires Shared(cfg, s) && t in s.threads && Body(cfg, s, t) && s.threads[t].pc.Reserve?
    ensures var pc := s.threads[t].pc;
      pc.call < |s.threads[t].calls| && Body(cfg, ReserveSlot(s, t, pc.call, pc.out, true, stale), t)
  {
    ReservedStacked(cfg, s, t, stale);
  }

  lemma ReservedStacked(cfg: Config, s: State, t: nat, stale: seq<byte>)
    requires t in s.threads && Stacked(cfg, s, t) && Locals(cfg, s, t) && s.threads[t].pc.Reserve?
    requires s.threads[t].pc.call < |s.threads[t].calls|
    ensures var pc := s.threads[t].pc; Stacked(cfg, ReserveSlot(s, t, pc.call, pc.out, true, stale), t)
  {
  }

  lemma FullBody(cfg: Config, s: State, t: nat, stale: seq<byte>)
    requires Shared(cfg, s) && t in s.threads && Body(cfg, s, t) && s.threads[t].pc.Reserve?
    ensures var pc := s.threads[t].pc;
      pc.call < |s.threads[t].calls| && Body(cfg, ReserveSlot(s, t, pc.call, pc.out, false, stale), t)
  {
  }

  lemma DropBody(cfg: Config, s: State, t: nat, room: bool, stale: seq<byte>, comm: seq<byte>)
    requires Shared(cfg, s) && t in s.threads && Body(cfg, s, t) && s.threads[t].pc.Drop?
    ensures Body(cfg, Helper(cfg, s, t, room, stale, comm), t)
  {
    var c := s.threads[t].pc.call;
    var call := s.threads[t].calls[c].(outcome := Dropped);
    DroppedBody(cfg, s, Now(s, t, User, c, call).(dropCount := s.dropCount + 1), t);
  }

  lemma DroppedBody(cfg: Config, s: State, s': State, t: nat)
    requires Shared(cfg, s) && t in s.threads && Body(cfg, s, t) && s.threads[t].pc.Drop?
    requires var c := s.threads[t].pc.call;
      s' == Now(s, t, User, c, s.threads[t].calls[c].(outcome := Dropped)).(dropCount := s.dropCount + 1)
    ensures Body(cfg, s', t)
  {
  }

  lemma FillBody(cfg: Config, s: State, t: nat, comm: seq<byte>)
    requires Shared(cfg, s) && t in s.threads && Body(cfg, s, t) && s.threads[t].pc.Fill?
    requires s.threads[t].pc.slot < |s.ring|
    ensures Body(cfg, FillSlot(cfg, s, t, s.threads[t].pc, comm), t)
  {
  }

  lemma CommitBody(cfg: Config, s: State, t: nat)
    requires Shared(cfg, s) && t in s.threads && Body(cfg, s, t) && s.threads[t].pc.Submit?
    requires s.threads[t].pc.slot < |s.ring|
    ensures Body(cfg, CommitSlot(s, t, s.threads[t].pc.slot), t)
  {
  }

  lemma EmittingFate(cfg: Config, s: State, t: nat, room: bool, stale: seq<byte>, comm: seq<byte>, c: nat)
    requires Shared(cfg, s) && t in s.threads && Body(cfg, s, t) && s.threads[t].pc.Emitting()
    requires c < |s.threads[t].calls| && Fate(cfg, s.threads[t], c)
    ensures var th := Helper(cfg, s, t, room, stale, comm).threads[t];
      |th.calls| == |s.threads[t].calls| && Fate(cfg, th, c)
  {
    if s.threads[t].pc.InFlight() { InFlightFate(cfg, s, t, room, stale, comm, c); }
    else if s.threads[t].pc.Drop? { DropFate(cfg, s, t, room, stale, comm, c); }
    else { ReserveFate(cfg, s, t, room, stale, comm, c); }
  }

  lemma InFlightFate(cfg: Config, s: State, t: nat, room: bool, stale: seq<byte>, comm: seq<byte>, c: nat)
    requires Shared(cfg, s) && t in s.threads && Locals(cfg, s, t) && s.threads[t].pc.InFlight()
    requires c < |s.threads[t].calls| && Fate(cfg, s.threads[t], c)
    ensures var th := Helper(cfg, s, t, room, stale, comm).threads[t];
      |th.calls| == |s.threads[t].calls| && Fate(cfg, th, c)
  {
  }

  lemma DropFate(cfg: Config, s: State, t: nat, room: bool, stale: seq<byte>, comm: seq<byte>, c: nat)
    requires t in s.threads && Body(cfg, s, t) && s.threads[t].pc.Drop?
    requires c < |s.threads[t].calls| && Fate(cfg, s.threads[t], c)
    ensures var th := Helper(cfg, s, t, room, stale, comm).threads[t];
      |th.calls| == |s.threads[t].calls| && Fate(cfg, th, c)
  {
  }

  lemma ReserveFate(cfg: Config, s: State, t: nat, room: bool, stale: seq<byte>, comm: seq<byte>, c: nat)
    requires t in s.threads && Body(cfg, s, t) && s.threads[t].pc.Reserve?
    requires c < |s.threads[t].calls| && Fate(cfg, s.threads[t], c)
    ensures var th := Helper(cfg, s, t, room, stale, comm).threads[t];
      |th.calls| == |s.threads[t].calls| && Fate(cfg, th, c)
  {
  }

  // ---- what the moving thread does to the shared state ----

  /** A helper call that stays inside thread t's own record. */
  lemma LocalMoves(cfg: Config, s: State, t: nat, th: Thread)
    requires Shared(cfg, s) && t in s.threads && Settled(cfg, s.threads[t], th)
    ensures Shared(cfg, With(s, t, th)) && OnlyMoved(cfg, s, With(s, t, th), t)
  {
  }

  lemma EnterMoves(cfg: Config, s: State, t: nat, arg0: nat, arg1: nat)
    requires Shared(cfg, s) && t in s.threads && Own(cfg, s, t)
    ensures Shared(cfg, Enter(cfg, s, t, arg0, arg1)) && OnlyMoved(cfg, s, Enter(cfg, s, t, arg0, arg1), t)
  {
    LocalMoves(cfg, s, t, Enter(cfg, s, t, arg0, arg1).threads[t]);
  }

  lemma LeaveMoves(cfg: Config, s: State, t: nat, rc: nat)
    requires Shared(cfg, s) && t in s.threads && Own(cfg, s, t) && s.threads[t].stack != []
    ensures Shared(cfg, Leave(cfg, s, t, rc)) && OnlyMoved(cfg, s, Leave(cfg, s, t, rc), t)
  {
    LocalMoves(cfg, s, t, Leave(cfg, s, t, rc).threads[t]);
  }

  lemma StoreMoves(cfg: Config, s: State, t: nat)
    requires Shared(cfg, s) && t in s.threads && Own(cfg, s, t) && s.threads[t].pc.PairUpdate?
    ensures var s' := StoreEntry(s, t, s.threads[t].pc.ts); Shared(cfg, s') && OnlyMoved(cfg, s, s', t)
  {
    var s' := StoreEntry(s, t, s.threads[t].pc.ts);
    LocalMoves(cfg, s, t, s'.threads[t]);
    if s.entryTs.Accepts(t, MAX_ENTRIES) {
      assert s'.entryTs.index == s.entryTs.index[t := |s.entryTs.cells|];
    }
  }

  lemma DeleteMoves(cfg: Config, s: State, t: nat, room: bool, stale: seq<byte>, comm: seq<byte>)
    requires Shared(cfg, s) && t in s.threads && Own(cfg, s, t) && s.threads[t].pc.PairDelete?
    ensures var s' := Helper(cfg, s, t, room, stale, comm); Shared(cfg, s') && OnlyMoved(cfg, s, s', t)
  {
    var pc := s.threads[t].pc;
    LocalMoves(cfg, s, t, s.threads[t].(pc := Reserve(pc.call, Pair(pc.latency, pc.rc))));
  }

  lemma ReserveMoves(cfg: Config, s: State, t: nat, room: bool, stale: seq<byte>)
    requires Shared(cfg, s) && t in s.threads && Own(cfg, s, t) && s.threads[t].pc.Reserve? && |stale| == SIZE
    ensures var pc := s.threads[t].pc; var s' := ReserveSlot(s, t, pc.call, pc.out, room, stale);
      && Shared(cfg, s') && OnlyMoved(cfg, s, s', t) && Holds(s', t)
      && (room ==> |s'.ring| == |s.ring| + 1 && SlotOk(cfg, s', |s.ring|))
      && (!room ==> s'.ring == s.ring)
  {
    var pc := s.threads[t].pc;
    LocalMoves(cfg, s, t, ReserveSlot(s, t, pc.call, pc.out, room, stale).threads[t]);
  }

  /** Writing into the slot a thread holds disturbs nothing else. */
  lemma WriteMoves(cfg: Config, s: State, t: nat, x: Slot)
    requires Shared(cfg, s) && t in s.threads && Own(cfg, s, t) && Holds(s, t) && s.threads[t].pc.Fill?
    requires var y := s.ring[s.threads[t].pc.slot];
      x.tid == y.tid && x.call == y.call && x.out == y.out && x.committed == y.committed && x.header.Some?
    ensures var th := s.threads[t];
      var s' := With(s, t, th.(pc := Submit(th.pc.call, th.pc.out, th.pc.slot))).(ring := s.ring[th.pc.slot := x]);
      Shared(cfg, s') && OnlyMoved(cfg, s, s', t) && Holds(s', t) && |s'.ring| == |s.ring|
  {
    var th := s.threads[t];
    LocalMoves(cfg, s, t, th.(pc := Submit(th.pc.call, th.pc.out, th.pc.slot)));
  }

  lemma FillMoves(cfg: Config, s: State, t: nat, comm: seq<byte>)
    requires Shared(cfg, s) && t in s.threads && Own(cfg, s, t) && Holds(s, t) && s.threads[t].pc.Fill?
    ensures var s' := FillSlot(cfg, s, t, s.threads[t].pc, comm);
      Shared(cfg, s') && OnlyMoved(cfg, s, s', t) && Holds(s', t) && |s'.ring| == |s.ring|
  {
    var s' := FillSlot(cfg, s, t, s.threads[t].pc, comm);
    if s' == s { LocalMoves(cfg, s, t, s.threads[t]); } else { WriteMoves(cfg, s, t, s'.ring[s.threads[t].pc.slot]); }
  }

  lemma FilledSlotOk(cfg: Config, s: State, t: nat, comm: seq<byte>)
    requires t in s.threads && Holds(s, t) && s.threads[t].pc.Fill? && SlotOk(cfg, s, s.threads[t].pc.slot)
    ensures var s' := FillSlot(cfg, s, t, s.threads[t].pc, comm);
      s.threads[t].pc.slot < |s'.ring| && SlotOk(cfg, s', s.threads[t].pc.slot)
  {
  }

  lemma CommitMoves(cfg: Config, s: State, t: nat)
    requires Shared(cfg, s) && t in s.threads && Own(cfg, s, t) && Holds(s, t) && s.threads[t].pc.Submit?
    requires SlotOk(cfg, s, s.threads[t].pc.slot)
    ensures var s' := CommitSlot(s, t, s.threads[t].pc.slot);
      && Shared(cfg, s') && OnlyMoved(cfg, s, s', t) && Holds(s', t)
      && |s'.ring| == |s.ring| && SlotOk(cfg, s', s.threads[t].pc.slot)
  {
    LocalMoves(cfg, s, t, s.threads[t].(pc := User));
  }

  // ---- every step keeps the invariant ----

  /** What the moving thread's own step gives. */
  ghost predicate Moves(cfg: Config, s: State, s': State, t: nat)
    requires t in s.threads
  {
    && Shared(cfg, s') && OnlyMoved(cfg, s, s', t) && Own(cfg, s', t) && Holds(s', t)
    && (forall k :: |s.ring| <= k < |s'.ring| ==> SlotOk(cfg, s', k))
    && (s.threads[t].pc.InFlight() && s.threads[t].pc.slot < |s.ring| ==>
          s.threads[t].pc.slot < |s'.ring| && SlotOk(cfg, s', s.threads[t].pc.slot))
  }

  lemma EnterCall(cfg: Config, s: State, t: nat, arg0: nat, arg1: nat)
    requires Shared(cfg, s) && t in s.threads && Own(cfg, s, t) && s.threads[t].pc.User?
    requires arg0 < TWO64 && arg1 < TWO64
    ensures Moves(cfg, s, Enter(cfg, s, t, arg0, arg1), t)
  {
    EnterMoves(cfg, s, t, arg0, arg1);
    EnterStacked(cfg, s, t, arg0, arg1);
    EnterKeeps(cfg, s, t, arg0, arg1);
    var s' := Enter(cfg, s, t, arg0, arg1);
    forall c | 0 <= c < |s'.threads[t].calls| ensures Fate(cfg, s'.threads[t], c) {
      EnterFate(cfg, s, t, arg0, arg1, c);
    }
  }

  lemma LeaveCall(cfg: Config, s: State, t: nat, rc: nat)
    requires Shared(cfg, s) && t in s.threads && Own(cfg, s, t) && s.threads[t].pc.User? && s.threads[t].stack != []
    requires rc < TWO64
    ensures Moves(cfg, s, Leave(cfg, s, t, rc), t)
  {
    LeaveMoves(cfg, s, t, rc);
    LeaveStacked(cfg, s, t, rc);
    LeaveEntry(cfg, s, t, rc);
    LeaveLocals(cfg, s, t, rc);
    var s' := Leave(cfg, s, t, rc);
    forall c | 0 <= c < |s'.threads[t].calls| ensures Fate(cfg, s'.threads[t], c) {
      LeaveFate(cfg, s, t, rc, c);
    }
  }

  lemma HelperFates(cfg: Config, s: State, t: nat, room: bool, stale: seq<byte>, comm: seq<byte>)
    requires Shared(cfg, s) && t in s.threads && Own(cfg, s, t) && !s.threads[t].pc.User?
    ensures t in Helper(cfg, s, t, room, stale, comm).threads
    ensures Fates(cfg, Helper(cfg, s, t, room, stale, comm).threads[t])
  {
    HelperStays(cfg, s, t, room, stale, comm);
    forall c | 0 <= c < |s.threads[t].calls|
      ensures Fate(cfg, Helper(cfg, s, t, room, stale, comm).threads[t], c)
    {
      assert Fate(cfg, s.threads[t], c);
      HelperFate(cfg, s, t, room, stale, comm, c);
    }
  }

  lemma HelperStays(cfg: Config, s: State, t: nat, room: bool, stale: seq<byte>, comm: seq<byte>)
    requires t in s.threads && !s.threads[t].pc.User?
    ensures t in Helper(cfg, s, t, room, stale, comm).threads
    ensures |Helper(cfg, s, t, room, stale, comm).threads[t].calls| == |s.threads[t].calls|
  {
    if s.threads[t].pc.Emitting() { EmittingStays(cfg, s, t, room, stale, comm); }
    else { MatchingStays(cfg, s, t, room, stale, comm); }
  }

  lemma EmittingStays(cfg: Config, s: State, t: nat, room: bool, stale: seq<byte>, comm: seq<byte>)
    requires t in s.threads && s.threads[t].pc.Emitting()
    ensures t in Helper(cfg, s, t, room, stale, comm).threads
    ensures |Helper(cfg, s, t, room, stale, comm).threads[t].calls| == |s.threads[t].calls|
  {
  }

  lemma MatchingStays(cfg: Config, s: State, t: nat, room: bool, stale: seq<byte>, comm: seq<byte>)
    requires t in s.threads && !s.threads[t].pc.Emitting()
    ensures t in Helper(cfg, s, t, room, stale, comm).threads
    ensures |Helper(cfg, s, t, room, stale, comm).threads[t].calls| == |s.threads[t].calls|
  {
  }

  lemma HelperFate(cfg: Config, s: State, t: nat, room: bool, stale: seq<byte>, comm: seq<byte>, c: nat)
    requires Shared(cfg, s) && t in s.threads && Body(cfg, s, t) && !s.threads[t].pc.User?
    requires c < |s.threads[t].calls| && Fate(cfg, s.threads[t], c)
    ensures var th := Helper(cfg, s, t, room, stale, comm).threads[t];
      |th.calls| == |s.threads[t].calls| && Fate(cfg, th, c)
  {
    if s.threads[t].pc.Entering() { EnteringFate(cfg, s, t, room, stale, comm, c); }
    else if s.threads[t].pc.Matching() { MatchingFate(cfg, s, t, room, stale, comm, c); }
    else { EmittingFate(cfg, s, t, room, stale, comm, c); }
  }

  lemma EnteringMoves(cfg: Config, s: State, t: nat, room: bool, stale: seq<byte>, comm: seq<byte>)
    requires Shared(cfg, s) && t in s.threads && Own(cfg, s, t) && s.threads[t].pc.Entering()
    ensures Moves(cfg, s, Helper(cfg, s, t, room, stale, comm), t)
  {
    if s.threads[t].pc.PairClock? {
      ClockMoves(cfg, s, t, room, stale, comm);
    } else {
      StoringMoves(cfg, s, t, room, stale, comm);
    }
  }

  lemma ClockMoves(cfg: Config, s: State, t: nat, room: bool, stale: seq<byte>, comm: seq<byte>)
    requires Shared(cfg, s) && t in s.threads && Own(cfg, s, t) && s.threads[t].pc.PairClock?
    ensures Moves(cfg, s, Helper(cfg, s, t, room, stale, comm), t)
  {
    HelperFates(cfg, s, t, room, stale, comm);
    ClockBody(cfg, s, t);
    LocalMoves(cfg, s, t, Helper(cfg, s, t, room, stale, comm).threads[t]);
  }

  lemma StoringMoves(cfg: Config, s: State, t: nat, room: bool, stale: seq<byte>, comm: seq<byte>)
    requires Shared(cfg, s) && t in s.threads && Own(cfg, s, t) && s.threads[t].pc.PairUpdate?
    ensures Moves(cfg, s, Helper(cfg, s, t, room, stale, comm), t)
  {
    HelperFates(cfg, s, t, room, stale, comm);
    StoreMoves(cfg, s, t);
    StoreBody(cfg, s, t);
    StoreStep(cfg, s, t, room, stale, comm);
  }

  lemma StoreStep(cfg: Config, s: State, t: nat, room: bool, stale: seq<byte>, comm: seq<byte>)
    requires t in s.threads && s.threads[t].pc.PairUpdate?
    requires s.threads[t].stack != [] && Top(s.threads[t]) < |s.threads[t].calls|
    ensures Helper(cfg, s, t, room, stale, comm) == StoreEntry(s, t, s.threads[t].pc.ts)
  {
  }

  lemma StoreBody(cfg: Config, s: State, t: nat)
    requires Shared(cfg, s) && t in s.threads && Body(cfg, s, t) && s.threads[t].pc.PairUpdate?
    ensures Body(cfg, StoreEntry(s, t, s.threads[t].pc.ts), t)
  {
    if s.entryTs.Accepts(t, MAX_ENTRIES) { StoreAccepted(cfg, s, t); } else { StoreRefused(cfg, s, t); }
  }

  lemma LookupMoves(cfg: Config, s: State, t: nat, room: bool, stale: seq<byte>, comm: seq<byte>)
    requires Shared(cfg, s) && t in s.threads && Own(cfg, s, t) && s.threads[t].pc.PairLookup?
    ensures Moves(cfg, s, Helper(cfg, s, t, room, stale, comm), t)
  {
    HelperFates(cfg, s, t, room, stale, comm);
    LookupBody(cfg, s, t);
    LocalMoves(cfg, s, t, Helper(cfg, s, t, room, stale, comm).threads[t]);
  }

  lemma MatchedMoves(cfg: Config, s: State, t: nat, room: bool, stale: seq<byte>, comm: seq<byte>)
    requires Shared(cfg, s) && t in s.threads && Own(cfg, s, t) && s.threads[t].pc.PairNow?
    ensures Moves(cfg, s, Helper(cfg, s, t, room, stale, comm), t)
  {
    HelperFates(cfg, s, t, room, stale, comm);
    NowBody(cfg, s, t);
    var pc := s.threads[t].pc;
    var call := s.threads[t].calls[pc.call].(exited := Some(s.clock));
    var s' := Now(s, t, PairDelete(pc.call, pc.rc, (s.clock - s.entryTs.cells[pc.cell]) % TWO64), pc.call, call);
    LocalMoves(cfg, s, t, s'.threads[t]);
    assert Helper(cfg, s, t, room, stale, comm) == s';
  }

  lemma DeletingMoves(cfg: Config, s: State, t: nat, room: bool, stale: seq<byte>, comm: seq<byte>)
    requires Shared(cfg, s) && t in s.threads && Own(cfg, s, t) && s.threads[t].pc.PairDelete?
    ensures Moves(cfg, s, Helper(cfg, s, t, room, stale, comm), t)
  {
    HelperFates(cfg, s, t, room, stale, comm);
    DeleteMoves(cfg, s, t, room, stale, comm);
    DeleteBody(cfg, s, t, room, stale, comm);
  }

  lemma ReservingMoves(cfg: Config, s: State, t: nat, room: bool, stale: seq<byte>, comm: seq<byte>)
    requires Shared(cfg, s) && t in s.threads && Own(cfg, s, t) && (s.threads[t].pc.Reserve? || s.threads[t].pc.Drop?)
    ensures Helper(cfg, s, t, room, stale, comm) == s || Moves(cfg, s, Helper(cfg, s, t, room, stale, comm), t)
  {
    if s.threads[t].pc.Drop? {
      DroppingMoves(cfg, s, t, room, stale, comm);
    } else if |stale| == SIZE {
      HelperFates(cfg, s, t, room, stale, comm);
      ReserveMoves(cfg, s, t, room, stale);
      ReserveBody(cfg, s, t, room, stale);
    }
  }

  lemma DroppingMoves(cfg: Config, s: State, t: nat, room: bool, stale: seq<byte>, comm: seq<byte>)
    requires Shared(cfg, s) && t in s.threads && Own(cfg, s, t) && s.threads[t].pc.Drop?
    ensures Moves(cfg, s, Helper(cfg, s, t, room, stale, comm), t)
  {
    HelperFates(cfg, s, t, room, stale, comm);
    DropBody(cfg, s, t, room, stale, comm);
    LocalMoves(cfg, s, t, Helper(cfg, s, t, room, stale, comm).threads[t]);
  }

  lemma InFlightMoves(cfg: Config, s: State, t: nat, room: bool, stale: seq<byte>, comm: seq<byte>)
    requires Shared(cfg, s) && t in s.threads && Own(cfg, s, t) && Holds(s, t) && s.threads[t].pc.InFlight()
    requires SlotOk(cfg, s, s.threads[t].pc.slot)
    ensures Moves(cfg, s, Helper(cfg, s, t, room, stale, comm), t)
  {
    HelperFates(cfg, s, t, room, stale, comm);
    if s.threads[t].pc.Fill? {
      FillMoves(cfg, s, t, comm);
      FilledSlotOk(cfg, s, t, comm);
      FillBody(cfg, s, t, comm);
    } else {
      CommitMoves(cfg, s, t);
      CommitBody(cfg, s, t);
    }
  }

  lemma ThreadMoves(cfg: Config, s: State, a: Action)
    requires Shared(cfg, s) && (a.FnEnter? || a.FnExit? || a.Step?)
    requires a.tid in s.threads && Own(cfg, s, a.tid) && Holds(s, a.tid)
    requires s.threads[a.tid].pc.InFlight() ==> SlotOk(cfg, s, s.threads[a.tid].pc.slot)
    ensures Next(cfg, s, a) == s || Moves(cfg, s, Next(cfg, s, a), a.tid)
  {
    var t, pc := a.tid, s.threads[a.tid].pc;
    if pc.User? {
      if a.FnEnter? { EnterCall(cfg, s, t, a.arg0 % TWO64, a.arg1 % TWO64); }
      else if a.FnExit? && s.threads[t].stack != [] { LeaveCall(cfg, s, t, a.rc % TWO64); }
    } else if a.Step? {
      if pc.Entering() { EnteringMoves(cfg, s, t, a.room, a.stale, a.comm); }
      else if pc.PairDelete? { DeletingMoves(cfg, s, t, a.room, a.stale, a.comm); }
      else if pc.PairLookup? { LookupMoves(cfg, s, t, a.room, a.stale, a.comm); }
      else if pc.PairNow? { MatchedMoves(cfg, s, t, a.room, a.stale, a.comm); }
      else if pc.InFlight() { InFlightMoves(cfg, s, t, a.room, a.stale, a.comm); }
      else { ReservingMoves(cfg, s, t, a.room, a.stale, a.comm); }
    }
  }

  lemma MovesKeepInv(cfg: Config, s: State, s': State, t: nat)
    requires Inv(cfg, s) && t in s.threads && Moves(cfg, s, s', t)
    ensures Inv(cfg, s')
  {
    forall u | u in s'.threads ensures Own(cfg, s', u) && Holds(s', u) {
      if u != t {
        OthersKeep(cfg, s, s', t, u);
        OthersHold(cfg, s, s', t, u);
      }
    }
    forall k | 0 <= k < |s'.ring| ensures SlotOk(cfg, s', k) {
      if k < |s.ring| {
        assert SlotOk(cfg, s, k);
        if s.ring[k].tid != t || s.ring[k].committed { SlotsKeep(cfg, s, s', t, k); }
      }
    }
  }

  lemma EnvironmentMoves(cfg: Config, s: State, a: Action, t: nat)
    requires Shared(cfg, s) && (a.AttachEntry? || a.AttachExit? || a.Tick? || a.Consume?)
    ensures var s' := Next(cfg, s, a);
      Shared(cfg, s') && s'.ring == s.ring && s'.threads == s.threads && OnlyMoved(cfg, s, s', t)
  {
    var s' := Next(cfg, s, a);
    assert s'.entryTs == s.entryTs && s'.threads == s.threads && s'.ring == s.ring && s'.origin == s.origin;
  }

  lemma EnvironmentKeeps(cfg: Config, s: State, a: Action)
    requires Inv(cfg, s) && (a.AttachEntry? || a.AttachExit? || a.Tick? || a.Consume?)
    ensures Inv(cfg, Next(cfg, s, a))
  {
    var s' := Next(cfg, s, a);
    EnvironmentMoves(cfg, s, a, 0);
    forall u | u in s'.threads ensures Own(cfg, s', u) && Holds(s', u) {
      ThreadReady(cfg, s, u);
      EnvironmentMoves(cfg, s, a, u + 1);
      OthersKeep(cfg, s, s', u + 1, u);
    }
    forall k | 0 <= k < |s'.ring| ensures SlotOk(cfg, s', k) {
      assert SlotOk(cfg, s, k);
    }
  }

  lemma NextKeeps(cfg: Config, s: State, a: Action)
    requires Inv(cfg, s)
    ensures Inv(cfg, Next(cfg, s, a))
  {
    if a.AttachEntry? || a.AttachExit? || a.Tick? || a.Consume? {
      EnvironmentKeeps(cfg, s, a);
    } else if a.tid in s.threads {
      ThreadReady(cfg, s, a.tid);
      ThreadMoves(cfg, s, a);
      if Next(cfg, s, a) != s { MovesKeepInv(cfg, s, Next(cfg, s, a), a.tid); }
    }
  }

  lemma ThreadReady(cfg: Config, s: State, t: nat)
    requires Inv(cfg, s) && t in s.threads
    ensures Shared(cfg, s) && Own(cfg, s, t) && Holds(s, t)
    ensures s.threads[t].pc.InFlight() ==> SlotOk(cfg, s, s.threads[t].pc.slot)
  {
  }

  lemma LoadedInv(cfg: Config, pids: map<nat, nat>)
    ensures Inv(cfg, Loaded(pids))
  {
  }

  lemma {:induction false} RunKeeps(cfg: Config, s: State, schedule: seq<Action>)
    requires Inv(cfg, s)
    ensures Inv(cfg, Run(cfg, s, schedule))
    decreases schedule
  {
    if schedule == [] {
    } else {
      NextKeeps(cfg, s, schedule[0]);
      RunKeeps(cfg, Next(cfg, s, schedule[0]), schedule[1..]);
    }
  }

  lemma Reached(cfg: Config, pids: map<nat, nat>, schedule: seq<Action>)
    ensures Inv(cfg, Run(cfg, Loaded(pids), schedule))
  {
    LoadedInv(cfg, pids);
    RunKeeps(cfg, Loaded(pids), schedule);
  }

  // ---- reported calls and their slots ----

  /** Slots are never taken over. */
  ghost predicate SameOwners(s: State, s': State) {
    && |s.ring| <= |s'.ring|
    && forall k :: 0 <= k < |s.ring| ==> s'.ring[k].tid == s.ring[k].tid && s'.ring[k].call == s.ring[k].call
  }

  lemma OwnersStay(cfg: Config, s: State, a: Action)
    ensures SameOwners(s, Next(cfg, s, a))
  {
    if a.Step? && a.tid in s.threads {
      if s.threads[a.tid].pc.Emitting() { EmittingOwners(cfg, s, a); } else { MatchingOwners(cfg, s, a); }
    } else {
      assert Next(cfg, s, a).ring == s.ring;
    }
  }

  lemma EmittingOwners(cfg: Config, s: State, a: Action)
    requires a.Step? && a.tid in s.threads && s.threads[a.tid].pc.Emitting()
    ensures SameOwners(s, Next(cfg, s, a))
  {
  }

  lemma MatchingOwners(cfg: Config, s: State, a: Action)
    requires a.Step? && a.tid in s.threads && !s.threads[a.tid].pc.Emitting()
    ensures SameOwners(s, Next(cfg, s, a))
  {
  }

  /** Only reserving a slot makes a call reported. */
  ghost predicate NoNewReports(th: Thread, th': Thread) {
    forall c :: 0 <= c < |th'.calls| && th'.calls[c].outcome.Reported? ==>
      c < |th.calls| && th.calls[c].outcome == th'.calls[c].outcome
  }

  lemma CallsReportNothing(cfg: Config, s: State, a: Action)
    requires (a.FnEnter? || a.FnExit?) && a.tid in s.threads
    ensures NoNewReports(s.threads[a.tid], Next(cfg, s, a).threads[a.tid])
  {
  }

  lemma MatchingReportsNothing(cfg: Config, s: State, a: Action)
    requires a.Step? && a.tid in s.threads && !s.threads[a.tid].pc.Emitting()
    ensures NoNewReports(s.threads[a.tid], Next(cfg, s, a).threads[a.tid])
  {
  }

  lemma EmittingReportsNothing(cfg: Config, s: State, a: Action)
    requires a.Step? && a.tid in s.threads && s.threads[a.tid].pc.Emitting() && !s.threads[a.tid].pc.Reserve?
    ensures NoNewReports(s.threads[a.tid], Next(cfg, s, a).threads[a.tid])
  {
  }

  lemma NamedQuiet(s: State, s': State, t: nat)
    requires t in s.threads && t in s'.threads && Named(s, t) && SameOwners(s, s')
    requires NoNewReports(s.threads[t], s'.threads[t])
    ensures Named(s', t)
  {
  }

  lemma NamedReserve(s: State, t: nat, call: nat, out: Payload, room: bool, stale: seq<byte>)
    requires t in s.threads && call < |s.threads[t].calls| && Named(s, t)
    ensures Named(ReserveSlot(s, t, call, out, room, stale), t)
  {
  }

  lemma NamedOwn(cfg: Config, s: State, a: Action)
    requires (a.FnEnter? || a.FnExit? || a.Step?) && a.tid in s.threads && Named(s, a.tid)
    ensures a.tid in Next(cfg, s, a).threads && Named(Next(cfg, s, a), a.tid)
  {
    var pc := s.threads[a.tid].pc;
    NextOneThread(cfg, s, a);
    OwnersStay(cfg, s, a);
    if a.Step? && pc.Reserve? {
      if pc.call < |s.threads[a.tid].calls| { NamedReserve(s, a.tid, pc.call, pc.out, a.room, a.stale); }
    } else {
      if !a.Step? { CallsReportNothing(cfg, s, a); }
      else if pc.Emitting() { EmittingReportsNothing(cfg, s, a); }
      else { MatchingReportsNothing(cfg, s, a); }
      NamedQuiet(s, Next(cfg, s, a), a.tid);
    }
  }

  /** No action touches another thread's record, or moves a thread between processes. */
  ghost predicate OneThread(s: State, s': State, t: nat)
    requires t in s.threads
  {
    && t in s'.threads && s'.threads == s.threads[t := s'.threads[t]]
    && s'.threads[t].pid == s.threads[t].pid
  }

  lemma MatchingOneThread(cfg: Config, s: State, a: Action)
    requires a.Step? && a.tid in s.threads && !s.threads[a.tid].pc.Emitting()
    ensures OneThread(s, Next(cfg, s, a), a.tid)
  {
    if s.threads[a.tid].pc.Entering() { EnteringOneThread(cfg, s, a); }
  }

  lemma EnteringOneThread(cfg: Config, s: State, a: Action)
    requires a.Step? && a.tid in s.threads && s.threads[a.tid].pc.Entering()
    ensures OneThread(s, Next(cfg, s, a), a.tid)
  {
  }

  lemma EmittingOneThread(cfg: Config, s: State, a: Action)
    requires a.Step? && a.tid in s.threads && s.threads[a.tid].pc.Emitting()
    ensures OneThread(s, Next(cfg, s, a), a.tid)
  {
  }

  lemma NextOneThread(cfg: Config, s: State, a: Action)
    requires (a.FnEnter? || a.FnExit? || a.Step?) && a.tid in s.threads
    ensures OneThread(s, Next(cfg, s, a), a.tid)
  {
    if a.Step? {
      if s.threads[a.tid].pc.Emitting() { EmittingOneThread(cfg, s, a); } else { MatchingOneThread(cfg, s, a); }
    }
  }

  lemma NobodyMoves(cfg: Config, s: State, a: Action)
    requires !((a.FnEnter? || a.FnExit? || a.Step?) && a.tid in s.threads)
    ensures var s' := Next(cfg, s, a);
      && s'.threads == s.threads && s'.entryTs == s.entryTs && s'.ring == s.ring
      && s'.dropCount == s.dropCount && s'.attempts == s.attempts
  {
  }

  ghost predicate AllNamed(s: State) {
    forall t :: t in s.threads ==> Named(s, t)
  }

  lemma NamedNext(cfg: Config, s: State, a: Action)
    requires AllNamed(s)
    ensures AllNamed(Next(cfg, s, a))
  {
    var s' := Next(cfg, s, a);
    OwnersStay(cfg, s, a);
    if (a.FnEnter? || a.FnExit? || a.Step?) && a.tid in s.threads {
      NextOneThread(cfg, s, a);
      NamedOwn(cfg, s, a);
    } else {
      assert s'.threads == s.threads;
    }
    forall u | u in s'.threads ensures Named(s', u) {
      if !((a.FnEnter? || a.FnExit? || a.Step?) && a.tid == u) {
        assert Named(s, u);
        NamedQuiet(s, s', u);
      }
    }
  }

  lemma {:induction false} NamedRun(cfg: Config, s: State, schedule: seq<Action>)
    requires AllNamed(s)
    ensures AllNamed(Run(cfg, s, schedule))
    decreases schedule
  {
    if schedule == [] {
    } else {
      NamedNext(cfg, s, schedule[0]);
      NamedRun(cfg, Next(cfg, s, schedule[0]), schedule[1..]);
    }
  }
}
