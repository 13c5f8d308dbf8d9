/** What becomes of a write that was refused: in which states some continuation still applies it. */
module RefusedWrites {
  import opened Collections
  import opened Dedup
  import opened ExactlyOnce
  import opened ExactlyOnceRuns
  import opened ExactlyOnceLimits

  lemma IssuedAndFailed() returns (x: World)
    ensures Reachable(x, Limits(1, 1)) && x.log == [] && x.clients == map["a" := NewClient().Issued()]
    ensures Write("a", 1, 0) in x.sent && Ack("a", 1, false) in x.answers
    ensures x.registry.WindowOf("a") == NewWindow()
  {
    var lim, w := Limits(1, 1), Write("a", 1, 0);
    assert Run([], lim) == Start();
    OneMoreEvent(Start(), Issue("a"), lim);
    var y := Next(Start(), Issue("a"), lim);
    OneMoreEvent(y, Deliver(w, false), lim);
    HostedWindow(y.registry, w, false, 1, 1);
    x := Next(y, Deliver(w, false), lim);
  }

  /** A refused write may still be applied, by a copy of it that arrives later. */
  lemma RefusedYetApplied() returns (x: World)
    ensures Reachable(x, Limits(1, 1)) && x.ClientOf("a").outcome == map[1 := false] && x.log == [Id("a", 1)]
  {
    hide Run, RunFrom, Hosted;
    var lim, w, a := Limits(1, 1), Write("a", 1, 0), Ack("a", 1, false);
    var y := IssuedAndFailed();
    OneMoreEvent(y, Deliver(w, true), lim);
    HostedWindow(y.registry, w, true, 1, 1);
    var z := Next(y, Deliver(w, true), lim);
    OneMoreEvent(z, Receive(a), lim);
    SettledIsValid(z.ClientOf("a"), 1, false);
    x := Next(z, Receive(a), lim);
  }

  /** Exactly when a delivery applies its write: it succeeds, the drained window does not remember it, and has room. */
  lemma AppliesExactlyWhen(x: World, w: Write, succeeds: bool, lim: Limits)
    requires Ok(x, lim) && lim.Valid() && w in x.sent
    ensures Next(x, Deliver(w, succeeds), lim).log != x.log
            <==> succeeds && !Remembered(DrainedWindow(x, w), w.n) && DrainedWindow(x, w).Retained() < lim.capacity
  {
    DrainKeeps(x, w, lim);
    HostedWindow(x.registry, w, succeeds, lim.capacity, lim.maxSessions);
  }

  /** A write is settled for good: in the log, or below its session's low-water mark. */
  ghost predicate Final(x: World, s: string, n: nat) {
    Id(s, n) !in x.log && n <= x.registry.WindowOf(s).lowWater
  }

  lemma StepStaysFinal(x: World, e: Event, lim: Limits, s: string, n: nat)
    requires Ok(x, lim) && lim.Valid() && Final(x, s, n) && s !in Next(x, e, lim).dropped
    ensures Final(Next(x, e, lim), s, n)
  {
    if e.Deliver? && e.w in x.sent {
      LogGrows(x, e.w, Hosted(x.registry, e.w, e.succeeds, lim.capacity, lim.maxSessions));
      if e.w.session == s {
        DrainKeeps(x, e.w, lim);
        HostedWindow(x.registry, e.w, e.succeeds, lim.capacity, lim.maxSessions);
      } else {
        HostedOthers(x.registry, e.w, e.succeeds, lim.capacity, lim.maxSessions, s);
      }
    }
  }

  lemma DroppedStays(x: World, e: Event, lim: Limits)
    ensures x.dropped <= Next(x, e, lim).dropped
  {
  }

  /** A refusal is final once the client's acknowledgement has drained it: no run from there that keeps the session
      applies the write. */
  lemma {:induction false} RefusalBecomesFinal(x: World, events: seq<Event>, lim: Limits, s: string, n: nat)
    requires Ok(x, lim) && lim.Valid() && Final(x, s, n) && s !in RunFrom(x, events, lim).dropped
    ensures Final(RunFrom(x, events, lim), s, n)
  {
    if events != [] {
      var m := |events| - 1;
      RunIsOk(x, events[..m], lim);
      var y := RunFrom(x, events[..m], lim);
      DroppedStays(y, events[m], lim);
      RefusalBecomesFinal(x, events[..m], lim, s, n);
      StepStaysFinal(y, events[m], lim, s, n);
    }
  }

  lemma HostedKeepsOwn(r: Registry, w: Write, succeeds: bool, lim: Limits)
    requires r.Valid() && lim.Valid() && |r.order| <= lim.maxSessions && w.session in r.windows
    ensures w.session in Hosted(r, w, succeeds, lim.capacity, lim.maxSessions).registry.windows
  {
    var s := w.session;
    var drained := r.With(s, r.WindowOf(s).Drained(w.acked));
    TouchKeeps(drained, s, lim.maxSessions);
    TouchKeeps(Touched(drained, s, lim.maxSessions), s, lim.maxSessions);
  }

  lemma CopyIsTaken(x: World, w: Write, lim: Limits)
    requires Ok(x, lim) && w in x.sent && Id(w.session, w.n) !in x.log
    requires x.registry.WindowOf(w.session).Retained() < lim.capacity && w.n > x.registry.WindowOf(w.session).lowWater
    ensures !Remembered(DrainedWindow(x, w), w.n) && DrainedWindow(x, w).Retained() < lim.capacity
  {
    var win, d := x.registry.WindowOf(w.session), DrainedWindow(x, w);
    assert WindowOk(win, w.session, x, lim);
    assert d.seqs <= win.seqs;
    SubsetSize(d.seqs, win.seqs);
  }

  lemma OwnIsKept(x: World, w: Write, succeeds: bool, lim: Limits)
    requires Ok(x, lim) && lim.Valid() && w in x.sent && w.session !in x.dropped
    ensures w.session !in Next(x, Deliver(w, succeeds), lim).dropped
  {
    if w.session in x.registry.windows {
      HostedKeepsOwn(x.registry, w, succeeds, lim);
    }
  }

  /** Delivering a copy of a write that is neither in the log nor drained applies it, when its window has room. */
  lemma CopyApplies(x: World, w: Write, lim: Limits)
    requires Ok(x, lim) && lim.Valid() && w in x.sent && w.session !in x.dropped && Id(w.session, w.n) !in x.log
    requires x.registry.WindowOf(w.session).Retained() < lim.capacity && w.n > x.registry.WindowOf(w.session).lowWater
    ensures var y := Next(x, Deliver(w, true), lim); Id(w.session, w.n) in y.log && w.session !in y.dropped
  {
    hide Hosted, Ok;
    CopyIsTaken(x, w, lim);
    AppliesExactlyWhen(x, w, true, lim);
    LogGrows(x, w, Hosted(x.registry, w, true, lim.capacity, lim.maxSessions));
    OwnIsKept(x, w, true, lim);
  }

  // ------------------------------------------------ exactly when it may be applied --

  /** Some continuation that keeps the session applies the write.  One that drops it may always: the session's
      window starts afresh, and a copy of the write is taken for a new one. */
  ghost predicate MayApply(x: World, s: string, n: nat, lim: Limits) {
    exists events :: s !in RunFrom(x, events, lim).dropped && Id(s, n) in RunFrom(x, events, lim).log
  }

  lemma {:induction false} EventFirst(x: World, e: Event, events: seq<Event>, lim: Limits)
    ensures RunFrom(x, [e] + events, lim) == RunFrom(Next(x, e, lim), events, lim)
  {
    var all := [e] + events;
    if events == [] {
      assert all == [e] && [e][..0] == [];
    } else {
      EventFirst(x, e, events[..|events| - 1], lim);
      assert all[..|all| - 1] == [e] + events[..|events| - 1];
    }
  }

  /** What a later state may still apply, an earlier one may. */
  lemma MayApplyBefore(x: World, e: Event, s: string, n: nat, lim: Limits)
    requires MayApply(Next(x, e, lim), s, n, lim)
    ensures MayApply(x, s, n, lim)
  {
    var events :| s !in RunFrom(Next(x, e, lim), events, lim).dropped && Id(s, n) in RunFrom(Next(x, e, lim), events, lim).log;
    EventFirst(x, e, events, lim);
    assert s !in RunFrom(x, [e] + events, lim).dropped;
  }

  /** The write has been sent, is neither applied nor drained, and its session was never dropped. */
  ghost predicate Waiting(x: World, w: Write, lim: Limits) {
    && Ok(x, lim) && w in x.sent && w.session !in x.dropped && Id(w.session, w.n) !in x.log
    && w.n > x.registry.WindowOf(w.session).lowWater
  }

  ghost predicate HasRoom(x: World, s: string, lim: Limits) {
    x.registry.WindowOf(s).Retained() < lim.capacity
  }

  lemma RoomMeansMay(x: World, w: Write, lim: Limits)
    requires lim.Valid() && Waiting(x, w, lim) && HasRoom(x, w.session, lim)
    ensures MayApply(x, w.session, w.n, lim)
  {
    CopyApplies(x, w, lim);
    hide Next, Ok;
    var e := Deliver(w, true);
    assert RunFrom(Next(x, e, lim), [], lim) == Next(x, e, lim);
    MayApplyBefore(x, e, w.session, w.n, lim);
  }

  /** A message that drains write j and not write n. */
  ghost predicate SentBetween(x: World, s: string, j: nat, n: nat) {
    exists v | v in x.sent :: v.session == s && j <= v.acked < n
  }

  /** A pending write after j and not after n: until it settles, what its client sends does not drain n. */
  ghost predicate PendingBetween(x: World, s: string, j: nat, n: nat) {
    exists p | p in x.ClientOf(s).pending :: j < p <= n
  }

  /** Some retained write may be drained before write n is. */
  ghost predicate MayDrainFirst(x: World, s: string, n: nat) {
    exists j: nat | j in x.registry.WindowOf(s).seqs :: SentBetween(x, s, j, n) || PendingBetween(x, s, j, n)
  }

  /** A delivery that fails only drains. */
  lemma FailedDelivery(x: World, v: Write, lim: Limits) returns (ok: bool)
    requires Ok(x, lim) && lim.Valid() && v in x.sent && v.session !in x.dropped
    ensures var y := Next(x, Deliver(v, false), lim);
            && Ok(y, lim) && y.clients == x.clients && y.sent == x.sent && y.log == x.log
            && v.session !in y.dropped && Ack(v.session, v.n, ok) in y.answers
            && y.registry.WindowOf(v.session) == DrainedWindow(x, v)
  {
    DeliverKeeps(x, v, false, lim);
    OwnIsKept(x, v, false, lim);
    HostedWindow(x.registry, v, false, lim.capacity, lim.maxSessions);
    ok := Hosted(x.registry, v, false, lim.capacity, lim.maxSessions).ok;
    hide Hosted, Ok;
  }

  lemma DrainMakesRoom(x: World, w: Write, v: Write, j: nat, lim: Limits)
    requires Waiting(x, w, lim) && v.session == w.session && j in x.registry.WindowOf(w.session).seqs
    ensures DrainedWindow(x, v).seqs <= x.registry.WindowOf(w.session).seqs
    ensures DrainedWindow(x, v).legacy == []
    ensures v.acked < w.n ==> w.n > DrainedWindow(x, v).lowWater
    ensures j in DrainedWindow(x, v).seqs || DrainedWindow(x, v).Retained() < lim.capacity
    ensures j <= v.acked ==> j !in DrainedWindow(x, v).seqs
  {
    var win, d := x.registry.WindowOf(w.session), DrainedWindow(x, v);
    assert WindowOk(win, w.session, x, lim);
    assert d.seqs <= win.seqs;
    if j !in d.seqs {
      assert d.seqs <= win.seqs - {j};
      SubsetSize(d.seqs, win.seqs - {j});
    }
  }

  lemma SentMeansMay(x: World, w: Write, v: Write, j: nat, lim: Limits)
    requires lim.Valid() && Waiting(x, w, lim) && j in x.registry.WindowOf(w.session).seqs
    requires v in x.sent && v.session == w.session && j <= v.acked < w.n
    ensures MayApply(x, w.session, w.n, lim)
  {
    var ok := FailedDelivery(x, v, lim);
    DrainMakesRoom(x, w, v, j, lim);
    hide Next, Ok, RunFrom, DrainedWindow;
    var y := Next(x, Deliver(v, false), lim);
    RoomMeansMay(y, w, lim);
    MayApplyBefore(x, Deliver(v, false), w.session, w.n, lim);
  }

  /** A client's oldest unsettled write is the one after its acknowledgement. */
  lemma OldestIsPending(c: Client)
    requires c.Valid() && c.acked < c.writeSeq
    ensures c.acked + 1 in c.pending
  {
    assert c.acked + 1 in c.pending || c.acked + 1 in c.outcome;
  }

  /** Re-sending the oldest pending write and failing it gets it answered. */
  lemma OldestAnswered(x: World, w: Write, q: nat, lim: Limits) returns (y: World, ok: bool)
    requires lim.Valid() && Waiting(x, w, lim)
    requires q == x.ClientOf(w.session).acked + 1 <= w.n && q in x.ClientOf(w.session).pending
    ensures Waiting(y, w, lim) && y.ClientOf(w.session) == x.ClientOf(w.session) && Ack(w.session, q, ok) in y.answers
    ensures forall j: nat | j in x.registry.WindowOf(w.session).seqs ::
              j in y.registry.WindowOf(w.session).seqs || HasRoom(y, w.session, lim)
    ensures MayApply(y, w.session, w.n, lim) ==> MayApply(x, w.session, w.n, lim)
  {
    var s := w.session;
    var v := Write(s, q, x.ClientOf(s).acked);
    var sent := Next(x, Resend(s, q), lim);
    ResendKeeps(x, s, q, lim);
    ok := FailedDelivery(sent, v, lim);
    y := Next(sent, Deliver(v, false), lim);
    hide Next, Ok, RunFrom, MayApply, DrainedWindow;
    forall j: nat | j in x.registry.WindowOf(s).seqs ensures j in y.registry.WindowOf(s).seqs || HasRoom(y, s, lim) {
      DrainMakesRoom(sent, w, v, j, lim);
    }
    DrainKeepsWaiting(sent, w, v, lim);
    if MayApply(y, s, w.n, lim) {
      MayApplyBefore(sent, Deliver(v, false), s, w.n, lim);
      MayApplyBefore(x, Resend(s, q), s, w.n, lim);
    }
  }

  lemma DrainKeepsWaiting(x: World, w: Write, v: Write, lim: Limits)
    requires Waiting(x, w, lim) && v.session == w.session && v.acked < w.n
    ensures w.n > DrainedWindow(x, v).lowWater
  {
  }

  /** Answering it moves the acknowledgement on, but not past a write that is still pending. */
  lemma OldestSettled(x: World, w: Write, q: nat, ok: bool, p: nat, lim: Limits)
    requires Waiting(x, w, lim) && Ack(w.session, q, ok) in x.answers && p in x.ClientOf(w.session).pending
    requires q == x.ClientOf(w.session).acked + 1 < p <= w.n
    ensures var y := Next(x, Receive(Ack(w.session, q, ok)), lim);
            && Waiting(y, w, lim) && y.registry == x.registry && p in y.ClientOf(w.session).pending
            && x.ClientOf(w.session).acked < y.ClientOf(w.session).acked < p
  {
    var s, c := w.session, x.ClientOf(w.session);
    assert c.Valid();
    OldestIsPending(c);
    ReceiveKeeps(x, Ack(s, q, ok), lim);
    SettledIsValid(c, q, ok);
    var d := c.Settled(q, ok);
    hide Client.Settled;
    assert p in d.pending && d.acked < p <= d.writeSeq;
    OldestIsPending(d);
  }

  lemma SettleOldest(x: World, w: Write, p: nat, lim: Limits) returns (y: World)
    requires lim.Valid() && Waiting(x, w, lim) && p in x.ClientOf(w.session).pending
    requires x.ClientOf(w.session).acked + 1 < p <= w.n
    ensures Waiting(y, w, lim) && p in y.ClientOf(w.session).pending
    ensures x.ClientOf(w.session).acked < y.ClientOf(w.session).acked < p
    ensures forall j: nat | j in x.registry.WindowOf(w.session).seqs ::
              j in y.registry.WindowOf(w.session).seqs || HasRoom(y, w.session, lim)
    ensures MayApply(y, w.session, w.n, lim) ==> MayApply(x, w.session, w.n, lim)
  {
    var q := x.ClientOf(w.session).acked + 1;
    assert x.ClientOf(w.session).Valid();
    OldestIsPending(x.ClientOf(w.session));
    hide Next, Ok, RunFrom, MayApply, Waiting, Client.Valid;
    var z, ok := OldestAnswered(x, w, q, lim);
    OldestSettled(z, w, q, ok, p, lim);
    y := Next(z, Receive(Ack(w.session, q, ok)), lim);
    if MayApply(y, w.session, w.n, lim) {
      MayApplyBefore(z, Receive(Ack(w.session, q, ok)), w.session, w.n, lim);
    }
  }

  /** The next write of a client whose oldest pending write is p drains all before p. */
  lemma IssueMeansMay(x: World, w: Write, j: nat, lim: Limits)
    requires lim.Valid() && Waiting(x, w, lim) && j in x.registry.WindowOf(w.session).seqs
    requires j <= x.ClientOf(w.session).acked < w.n
    ensures MayApply(x, w.session, w.n, lim)
  {
    var s := w.session;
    var y := Next(x, Issue(s), lim);
    IssueKeeps(x, s, lim);
    SentMeansMay(y, w, Write(s, x.ClientOf(s).writeSeq + 1, x.ClientOf(s).acked), j, lim);
    MayApplyBefore(x, Issue(s), s, w.n, lim);
  }

  lemma {:induction false} PendingMeansMay(x: World, w: Write, j: nat, p: nat, lim: Limits)
    requires lim.Valid() && Waiting(x, w, lim) && j in x.registry.WindowOf(w.session).seqs
    requires p in x.ClientOf(w.session).pending && j < p <= w.n
    ensures MayApply(x, w.session, w.n, lim)
    decreases p - x.ClientOf(w.session).acked
  {
    var c := x.ClientOf(w.session);
    assert c.Valid();
    if c.acked + 1 == p {
      IssueMeansMay(x, w, j, lim);
    } else {
      var y := SettleOldest(x, w, p, lim);
      if HasRoom(y, w.session, lim) {
        RoomMeansMay(y, w, lim);
      } else {
        PendingMeansMay(y, w, j, p, lim);
      }
    }
  }

  /** No room, and none can be made before the write is drained. */
  ghost predicate Blocked(x: World, w: Write, lim: Limits) {
    Waiting(x, w, lim) && !HasRoom(x, w.session, lim) && !MayDrainFirst(x, w.session, w.n)
  }

  /** A blocked client sends nothing that drains a retained write and not w. */
  lemma BlockedAck(x: World, w: Write, j: nat, lim: Limits)
    requires Blocked(x, w, lim) && j in x.registry.WindowOf(w.session).seqs
    ensures !(j <= x.ClientOf(w.session).acked < w.n)
  {
    var c := x.ClientOf(w.session);
    assert c.Valid();
    if j <= c.acked < w.n {
      OldestIsPending(c);
      assert PendingBetween(x, w.session, j, w.n);
    }
  }

  lemma BlockedIssue(x: World, w: Write, s: string, lim: Limits)
    requires Blocked(x, w, lim)
    ensures Blocked(Next(x, Issue(s), lim), w, lim)
  {
    var y := Next(x, Issue(s), lim);
    IssueKeeps(x, s, lim);
    StaysBlocked(x, y, w, lim);
  }

  /** What keeps the registry, and lets the client send only its own acknowledgement, keeps the write blocked. */
  lemma StaysBlocked(x: World, y: World, w: Write, lim: Limits)
    requires Blocked(x, w, lim) && Ok(y, lim) && w in y.sent
    requires y.registry == x.registry && y.log == x.log && y.dropped == x.dropped
    requires forall v | v in y.sent && v.session == w.session :: v in x.sent || v.acked == x.ClientOf(w.session).acked
    requires forall p | p in y.ClientOf(w.session).pending :: p in x.ClientOf(w.session).pending || p > x.ClientOf(w.session).writeSeq
    ensures Blocked(y, w, lim)
  {
    forall j: nat | j in y.registry.WindowOf(w.session).seqs
      ensures !SentBetween(y, w.session, j, w.n) && !PendingBetween(y, w.session, j, w.n)
    {
      BlockedAck(x, w, j, lim);
      assert !SentBetween(x, w.session, j, w.n) && !PendingBetween(x, w.session, j, w.n);
    }
  }

  lemma BlockedResend(x: World, w: Write, s: string, n: nat, lim: Limits)
    requires Blocked(x, w, lim)
    ensures Blocked(Next(x, Resend(s, n), lim), w, lim)
  {
    ResendKeeps(x, s, n, lim);
    StaysBlocked(x, Next(x, Resend(s, n), lim), w, lim);
  }

  lemma BlockedReceive(x: World, w: Write, a: Ack, lim: Limits)
    requires Blocked(x, w, lim)
    ensures Blocked(Next(x, Receive(a), lim), w, lim)
  {
    ReceiveKeeps(x, a, lim);
    assert x.ClientOf(a.session).Valid();
    SettledIsValid(x.ClientOf(a.session), a.n, a.ok);
    StaysBlocked(x, Next(x, Receive(a), lim), w, lim);
  }

  /** A blocked write stays blocked, until a delivery drains it. */
  ghost predicate BlockedOrFinal(x: World, w: Write, lim: Limits) {
    Blocked(x, w, lim) || Final(x, w.session, w.n)
  }

  /** Its session's deliveries drain nothing, or the write too. */
  lemma BlockedWindow(x: World, w: Write, v: Write, lim: Limits)
    requires lim.Valid() && Blocked(x, w, lim) && v in x.sent && v.session == w.session
    ensures var win, d := x.registry.WindowOf(w.session), DrainedWindow(x, v);
            if v.acked < w.n then d.seqs == win.seqs && d.legacy == win.legacy && d.lowWater < w.n else d.lowWater >= w.n
  {
    var win := x.registry.WindowOf(w.session);
    assert WindowOk(win, w.session, x, lim);
    assert win.seqs != {};
    forall j: nat | j in win.seqs ensures v.acked < w.n ==> j > v.acked {
      assert !SentBetween(x, w.session, j, w.n);
    }
  }

  /** So such a delivery applies nothing. */
  lemma BlockedAppliesNothing(x: World, w: Write, v: Write, succeeds: bool, lim: Limits)
    requires lim.Valid() && Blocked(x, w, lim) && v in x.sent && v.session == w.session
    ensures var y := Next(x, Deliver(v, succeeds), lim);
            && y.sent == x.sent && y.clients == x.clients && w.session !in y.dropped && Id(w.session, w.n) !in y.log
            && (v.acked < w.n ==> y.registry.WindowOf(w.session) == DrainedWindow(x, v))
            && (v.acked >= w.n ==> y.registry.WindowOf(w.session).lowWater >= w.n)
  {
    var reply := Hosted(x.registry, v, succeeds, lim.capacity, lim.maxSessions);
    BlockedWindow(x, w, v, lim);
    HostedWindow(x.registry, v, succeeds, lim.capacity, lim.maxSessions);
    AppliesExactlyWhen(x, v, succeeds, lim);
    OwnIsKept(x, v, succeeds, lim);
    LogGrows(x, v, reply);
    hide Hosted, Ok;
  }

  lemma BlockedOwnDelivery(x: World, w: Write, v: Write, succeeds: bool, lim: Limits)
    requires lim.Valid() && Blocked(x, w, lim) && v in x.sent && v.session == w.session
    ensures BlockedOrFinal(Next(x, Deliver(v, succeeds), lim), w, lim)
  {
    var y := Next(x, Deliver(v, succeeds), lim);
    BlockedWindow(x, w, v, lim);
    BlockedAppliesNothing(x, w, v, succeeds, lim);
    DeliverKeeps(x, v, succeeds, lim);
    hide Next, Ok, DrainedWindow;
    if v.acked < w.n {
      forall j: nat | j in y.registry.WindowOf(w.session).seqs
        ensures !SentBetween(y, w.session, j, w.n) && !PendingBetween(y, w.session, j, w.n)
      {
        assert !SentBetween(x, w.session, j, w.n) && !PendingBetween(x, w.session, j, w.n);
      }
    }
  }

  lemma StepStaysBlocked(x: World, w: Write, e: Event, lim: Limits)
    requires lim.Valid() && Ok(x, lim) && BlockedOrFinal(x, w, lim) && w.session !in Next(x, e, lim).dropped
    ensures BlockedOrFinal(Next(x, e, lim), w, lim)
  {
    if Final(x, w.session, w.n) {
      StepStaysFinal(x, e, lim, w.session, w.n);
    } else {
      match e
      case Issue(s) => BlockedIssue(x, w, s, lim);
      case Resend(s, n) => BlockedResend(x, w, s, n, lim);
      case Receive(a) => BlockedReceive(x, w, a, lim);
      case Deliver(v, succeeds) => BlockedDelivery(x, w, v, succeeds, lim);
    }
  }

  lemma BlockedDelivery(x: World, w: Write, v: Write, succeeds: bool, lim: Limits)
    requires lim.Valid() && Blocked(x, w, lim) && w.session !in Next(x, Deliver(v, succeeds), lim).dropped
    ensures BlockedOrFinal(Next(x, Deliver(v, succeeds), lim), w, lim)
  {
    if v in x.sent {
      if v.session == w.session {
        BlockedOwnDelivery(x, w, v, succeeds, lim);
      } else {
        BlockedOtherDelivery(x, w, v, succeeds, lim);
      }
    }
  }

  lemma BlockedOtherDelivery(x: World, w: Write, v: Write, succeeds: bool, lim: Limits)
    requires lim.Valid() && Blocked(x, w, lim) && v in x.sent && v.session != w.session
    requires w.session !in Next(x, Deliver(v, succeeds), lim).dropped
    ensures Blocked(Next(x, Deliver(v, succeeds), lim), w, lim)
  {
    var y := Next(x, Deliver(v, succeeds), lim);
    DeliverKeeps(x, v, succeeds, lim);
    HostedOthers(x.registry, v, succeeds, lim.capacity, lim.maxSessions, w.session);
    LogGrows(x, v, Hosted(x.registry, v, succeeds, lim.capacity, lim.maxSessions));
    assert y.registry.WindowOf(w.session) == x.registry.WindowOf(w.session);
  }

  lemma {:induction false} BlockedForGood(x: World, w: Write, events: seq<Event>, lim: Limits)
    requires lim.Valid() && Ok(x, lim) && BlockedOrFinal(x, w, lim) && w.session !in RunFrom(x, events, lim).dropped
    ensures BlockedOrFinal(RunFrom(x, events, lim), w, lim)
  {
    if events != [] {
      var m := |events| - 1;
      RunIsOk(x, events[..m], lim);
      var y := RunFrom(x, events[..m], lim);
      DroppedStays(y, events[m], lim);
      BlockedForGood(x, w, events[..m], lim);
      StepStaysBlocked(y, w, events[m], lim);
    }
  }

  /** Exactly when a write that was sent and is not in the log - a refused one, say - is applied in some continuation
      that keeps its session: it is not drained, and its window has room, or some write the window retains can be
      drained first - by a message already sent, or because a write between the two is still pending. */
  lemma MayApplyExactlyWhen(x: World, w: Write, lim: Limits)
    requires Ok(x, lim) && lim.Valid() && w in x.sent && w.session !in x.dropped && Id(w.session, w.n) !in x.log
    ensures MayApply(x, w.session, w.n, lim)
            <==> w.n > x.registry.WindowOf(w.session).lowWater
                 && (HasRoom(x, w.session, lim) || MayDrainFirst(x, w.session, w.n))
  {
    hide RunFrom, Next, Ok;
    if Waiting(x, w, lim) && HasRoom(x, w.session, lim) {
      RoomMeansMay(x, w, lim);
    } else if Waiting(x, w, lim) && MayDrainFirst(x, w.session, w.n) {
      DrainFirstMeansMay(x, w, lim);
    } else {
      forall events | w.session !in RunFrom(x, events, lim).dropped ensures Id(w.session, w.n) !in RunFrom(x, events, lim).log {
        BlockedForGood(x, w, events, lim);
      }
    }
  }

  lemma DrainFirstMeansMay(x: World, w: Write, lim: Limits)
    requires lim.Valid() && Waiting(x, w, lim) && MayDrainFirst(x, w.session, w.n)
    ensures MayApply(x, w.session, w.n, lim)
  {
    hide RunFrom, Next, Ok, Waiting, MayApply;
    var s := w.session;
    var j: nat :| j in x.registry.WindowOf(s).seqs && (SentBetween(x, s, j, w.n) || PendingBetween(x, s, j, w.n));
    if SentBetween(x, s, j, w.n) {
      var v :| v in x.sent && v.session == s && j <= v.acked < w.n;
      SentMeansMay(x, w, v, j, lim);
    } else {
      var p :| p in x.ClientOf(s).pending && j < p <= w.n;
      PendingMeansMay(x, w, j, p, lim);
    }
  }

  // ------------------------------------------------------ refused and never applied --

  lemma TwoIssued(lim: Limits) returns (x: World)
    requires lim == Limits(1, 1)
    ensures Reachable(x, lim) && x.sent == {Write("a", 1, 0), Write("a", 2, 0)} && x.registry == Registry(map[], [])
    ensures x.log == [] && x.dropped == {} && x.ClientOf("a") == NewClient().Issued().Issued()
  {
    assert Run([], lim) == Start();
    OneMoreEvent(Start(), Issue("a"), lim);
    var y := Next(Start(), Issue("a"), lim);
    OneMoreEvent(y, Issue("a"), lim);
    x := Next(y, Issue("a"), lim);
  }

  /** Write 2 overtakes write 1 and fills the window. */
  lemma Overtaken() returns (x: World)
    ensures Reachable(x, Limits(1, 1)) && x.sent == {Write("a", 1, 0), Write("a", 2, 0)} && x.dropped == {}
    ensures x.log == [Id("a", 2)] && x.registry.WindowOf("a") == Window({2}, 0, [])
    ensures x.ClientOf("a") == NewClient().Issued().Issued()
  {
    hide Run, RunFrom, Reachable;
    var lim, w := Limits(1, 1), Write("a", 2, 0);
    var y := TwoIssued(lim);
    OneMoreEvent(y, Deliver(w, true), lim);
    HostedWindow(y.registry, w, true, 1, 1);
    x := Next(y, Deliver(w, true), lim);
  }

  lemma RefusedForSpace() returns (x: World)
    ensures Reachable(x, Limits(1, 1)) && x.sent == {Write("a", 1, 0), Write("a", 2, 0)} && x.dropped == {}
    ensures x.log == [Id("a", 2)] && x.registry.WindowOf("a") == Window({2}, 0, []) && Ack("a", 1, false) in x.answers
  {
    hide Run, RunFrom, Reachable;
    var lim, w := Limits(1, 1), Write("a", 1, 0);
    var y := Overtaken();
    OneMoreEvent(y, Deliver(w, true), lim);
    HostedWindow(y.registry, w, true, 1, 1);
    OwnIsKept(y, w, true, lim);
    x := Next(y, Deliver(w, true), lim);
  }

  lemma NothingBetween(x: World)
    requires x.registry.WindowOf("a") == Window({2}, 0, [])
    ensures !HasRoom(x, "a", Limits(1, 1)) && !MayDrainFirst(x, "a", 1)
  {
  }

  /** A write that is refused for space, is not drained, and that no continuation applies: the window keeps what only
      a message that drains them both can remove. */
  lemma RefusedForGood() returns (x: World)
    ensures Reachable(x, Limits(1, 1)) && x.dropped == {} && Ack("a", 1, false) in x.answers
    ensures x.registry.WindowOf("a").lowWater < 1 && !MayApply(x, "a", 1, Limits(1, 1))
  {
    hide Run, RunFrom, Reachable, MayApply, Next, Ok;
    x := RefusedForSpace();
    OneMoreEvent(x, Issue("a"), Limits(1, 1));
    NothingBetween(x);
    MayApplyExactlyWhen(x, Write("a", 1, 0), Limits(1, 1));
  }
}
