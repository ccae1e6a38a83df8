/** The ring and the drop counter against the calls themselves: how many calls were
    reported, and how many were dropped. */
module UprobeTally {
  import opened Bpf
  import opened Wire
  import opened UprobeWire
  import opened Uprobe
  import opened UprobePairing

  function Reported(): Call -> bool { (c: Call) => c.outcome.Reported? }
  function Dropped(): Call -> bool { (c: Call) => c.outcome.Dropped? }

  /** The calls, as thread and position, of which p holds. */
  ghost function CallsWith(s: State, p: Call -> bool): set<(nat, nat)> {
    set t, c | t in s.threads && 0 <= c < |s.threads[t].calls| && p(s.threads[t].calls[c]) :: (t, c)
  }

  ghost predicate Has(th: Thread, p: Call -> bool, c: nat) {
    c < |th.calls| && p(th.calls[c])
  }

  ghost predicate Keeps(th: Thread, th': Thread, p: Call -> bool) {
    forall c: nat :: Has(th', p, c) <==> Has(th, p, c)
  }

  ghost predicate Gains(th: Thread, th': Thread, p: Call -> bool, d: nat) {
    Has(th', p, d) && !Has(th, p, d) && forall c: nat :: c != d ==> (Has(th', p, c) <==> Has(th, p, c))
  }

  lemma SameCalls(s: State, s': State, t: nat, p: Call -> bool)
    requires t in s.threads && OneThread(s, s', t) && Keeps(s.threads[t], s'.threads[t], p)
    ensures CallsWith(s', p) == CallsWith(s, p)
  {
    forall u, c: nat ensures (u, c) in CallsWith(s', p) <==> (u, c) in CallsWith(s, p) {
      if u == t { assert Has(s'.threads[t], p, c) <==> Has(s.threads[t], p, c); }
    }
  }

  lemma OneMoreCall(s: State, s': State, t: nat, p: Call -> bool, d: nat)
    requires t in s.threads && OneThread(s, s', t) && Gains(s.threads[t], s'.threads[t], p, d)
    ensures |CallsWith(s', p)| == |CallsWith(s, p)| + 1
  {
    forall u, c: nat ensures (u, c) in CallsWith(s', p) <==> (u, c) in CallsWith(s, p) + {(t, d)} {
      if u == t { assert c != d ==> (Has(s'.threads[t], p, c) <==> Has(s.threads[t], p, c)); }
    }
    assert CallsWith(s', p) == CallsWith(s, p) + {(t, d)};
    assert (t, d) !in CallsWith(s, p) by { assert !Has(s.threads[t], p, d); }
  }

  /** Each slot is a reported call's, each count of drop_count a dropped call's. */
  ghost predicate Tallied(s: State) {
    |CallsWith(s, Reported())| == |s.ring| && |CallsWith(s, Dropped())| == s.dropCount
  }

  /** A step of t decided nothing. */
  ghost predicate Undecided(s: State, s': State, t: nat)
    requires t in s.threads
  {
    && OneThread(s, s', t) && |s'.ring| == |s.ring| && s'.dropCount == s.dropCount
    && Keeps(s.threads[t], s'.threads[t], Reported()) && Keeps(s.threads[t], s'.threads[t], Dropped())
  }

  lemma UndecidedTallies(s: State, s': State, t: nat)
    requires t in s.threads && Tallied(s) && Undecided(s, s', t)
    ensures Tallied(s')
  {
    SameCalls(s, s', t, Reported());
    SameCalls(s, s', t, Dropped());
  }

  lemma CallUndecided(cfg: Config, s: State, a: Action)
    requires (a.FnEnter? || a.FnExit?) && a.tid in s.threads
    ensures Undecided(s, Next(cfg, s, a), a.tid)
  {
  }

  lemma MatchingUndecided(cfg: Config, s: State, a: Action)
    requires a.Step? && a.tid in s.threads && !s.threads[a.tid].pc.Emitting()
    ensures Undecided(s, Next(cfg, s, a), a.tid)
  {
    if s.threads[a.tid].pc.Entering() { EnteringUndecided(cfg, s, a); }
  }

  lemma EnteringUndecided(cfg: Config, s: State, a: Action)
    requires a.Step? && a.tid in s.threads && s.threads[a.tid].pc.Entering()
    ensures Undecided(s, Next(cfg, s, a), a.tid)
  {
    if s.threads[a.tid].pc.PairUpdate? { StoreUndecided(cfg, s, a); }
  }

  lemma StoreUndecided(cfg: Config, s: State, a: Action)
    requires a.Step? && a.tid in s.threads && s.threads[a.tid].pc.PairUpdate?
    ensures Undecided(s, Next(cfg, s, a), a.tid)
  {
  }

  lemma InFlightUndecided(cfg: Config, s: State, a: Action)
    requires a.Step? && a.tid in s.threads && s.threads[a.tid].pc.InFlight()
    ensures Undecided(s, Next(cfg, s, a), a.tid)
  {
  }

  lemma ReserveTallies(s: State, t: nat, call: nat, out: Payload, room: bool, stale: seq<byte>)
    requires t in s.threads && call < |s.threads[t].calls| && s.threads[t].calls[call].outcome.Silent? && Tallied(s)
    ensures Tallied(ReserveSlot(s, t, call, out, room, stale))
  {
    var s' := ReserveSlot(s, t, call, out, room, stale);
    if room {
      assert Gains(s.threads[t], s'.threads[t], Reported(), call);
      OneMoreCall(s, s', t, Reported(), call);
      SameCalls(s, s', t, Dropped());
    } else {
      UndecidedTallies(s, s', t);
    }
  }

  lemma DropTallies(cfg: Config, s: State, a: Action)
    requires a.Step? && a.tid in s.threads && s.threads[a.tid].pc.Drop? && Tallied(s)
    requires var pc := s.threads[a.tid].pc;
      pc.call < |s.threads[a.tid].calls| && s.threads[a.tid].calls[pc.call].outcome.Silent?
    ensures Tallied(Next(cfg, s, a))
  {
    var s', t := Next(cfg, s, a), a.tid;
    assert Gains(s.threads[t], s'.threads[t], Dropped(), s.threads[t].pc.call);
    OneMoreCall(s, s', t, Dropped(), s.threads[t].pc.call);
    SameCalls(s, s', t, Reported());
  }

  /** What a thread about to decide a call's outcome knows of that call. */
  lemma Pending(cfg: Config, s: State, t: nat)
    requires Inv(cfg, s) && t in s.threads && (s.threads[t].pc.Reserve? || s.threads[t].pc.Drop?)
    ensures var th := s.threads[t];
      th.pc.call < |th.calls| && th.calls[th.pc.call].outcome.Silent?
  {
    ThreadReady(cfg, s, t);
  }

  lemma StepTallies(cfg: Config, s: State, a: Action)
    requires Inv(cfg, s) && Tallied(s) && a.Step? && a.tid in s.threads
    ensures Tallied(Next(cfg, s, a))
  {
    var t, pc := a.tid, s.threads[a.tid].pc;
    if pc.Drop? {
      Pending(cfg, s, t);
      DropTallies(cfg, s, a);
    } else if pc.Reserve? {
      Pending(cfg, s, t);
      ReserveTallies(s, t, pc.call, pc.out, a.room, a.stale);
      assert Next(cfg, s, a) == s || Next(cfg, s, a) == ReserveSlot(s, t, pc.call, pc.out, a.room, a.stale);
    } else {
      if pc.Emitting() { InFlightUndecided(cfg, s, a); } else { MatchingUndecided(cfg, s, a); }
      UndecidedTallies(s, Next(cfg, s, a), t);
    }
  }

  lemma NextTallies(cfg: Config, s: State, a: Action)
    requires Inv(cfg, s) && Tallied(s)
    ensures Tallied(Next(cfg, s, a))
  {
    if (a.FnEnter? || a.FnExit?) && a.tid in s.threads {
      CallUndecided(cfg, s, a);
      UndecidedTallies(s, Next(cfg, s, a), a.tid);
    } else if a.Step? && a.tid in s.threads {
      StepTallies(cfg, s, a);
    } else {
      NobodyMoves(cfg, s, a);
      SameTally(s, Next(cfg, s, a));
    }
  }

  lemma SameTally(s: State, s': State)
    requires Tallied(s) && s'.threads == s.threads && s'.ring == s.ring && s'.dropCount == s.dropCount
    ensures Tallied(s')
  {
    assert CallsWith(s', Reported()) == CallsWith(s, Reported());
    assert CallsWith(s', Dropped()) == CallsWith(s, Dropped());
  }

  lemma {:induction false} RunTallies(cfg: Config, s: State, schedule: seq<Action>)
    requires Inv(cfg, s) && Tallied(s)
    ensures Tallied(Run(cfg, s, schedule))
    decreases schedule
  {
    if schedule == [] {
    } else {
      NextKeeps(cfg, s, schedule[0]);
      NextTallies(cfg, s, schedule[0]);
      RunTallies(cfg, Next(cfg, s, schedule[0]), schedule[1..]);
    }
  }

  /** In every reachable state of every uprobe program the drop counter is the number of
      calls whose event was dropped, and the ring has one record for each call whose
      event was not. */
  lemma RingTally(cfg: Config, pids: map<nat, nat>, schedule: seq<Action>)
    ensures var s := Run(cfg, Loaded(pids), schedule);
      s.dropCount == |CallsWith(s, Dropped())| && |s.ring| == |CallsWith(s, Reported())|
  {
    LoadedInv(cfg, pids);
    assert CallsWith(Loaded(pids), Reported()) == {} && CallsWith(Loaded(pids), Dropped()) == {};
    RunTallies(cfg, Loaded(pids), schedule);
  }
}
