/** Where exactly-once ends and what it costs: the cap on sessions, full windows, recovery. */
module ExactlyOnceLimits {
  import opened Collections
  import opened Names
  import opened Dedup
  import opened ExactlyOnce
  import opened ExactlyOnceRuns

  // ---------------------------------------------------------- the session cap --

  function Elements(order: seq<string>): set<string> {
    set s | s in order
  }

  lemma {:induction false} DistinctSize(order: seq<string>)
    requires Distinct(order)
    ensures |Elements(order)| == |order|
  {
    if order != [] {
      var n := |order| - 1;
      DistinctSize(order[..n]);
      assert order[n] !in order[..n];
      assert Elements(order) == Elements(order[..n]) + {order[n]};
    }
  }

  /** Only sessions that wrote have windows, and none was dropped. */
  ghost predicate Undropped(x: World) {
    x.dropped == {} && x.registry.windows.Keys <= x.clients.Keys && forall w | w in x.sent :: w.session in x.clients
  }

  lemma RoomForOneMore(r: Registry, s: string, writers: set<string>, maxSessions: nat)
    requires r.Valid() && r.windows.Keys <= writers && s in writers && |writers| <= maxSessions
    ensures s !in r.windows ==> |r.order| < maxSessions
    ensures |r.order| <= maxSessions
  {
    assert r.windows.Keys == Elements(r.order);
    DistinctSize(r.order);
    SubsetSize(r.windows.Keys, writers);
  }

  /** A host adds at most the write's session, and drops none while all that ever wrote fit under the cap. */
  lemma HostedDropsNone(x: World, w: Write, succeeds: bool, lim: Limits)
    requires Ok(x, lim) && lim.Valid() && Undropped(x) && w in x.sent && |x.clients.Keys| <= lim.maxSessions
    ensures var r := Hosted(x.registry, w, succeeds, lim.capacity, lim.maxSessions).registry;
            x.registry.windows.Keys <= r.windows.Keys <= x.clients.Keys
  {
    var s := w.session;
    var d := x.registry.With(s, x.registry.WindowOf(s).Drained(w.acked));
    assert d.Valid() && d.windows.Keys == x.registry.windows.Keys;
    RoomForOneMore(d, s, x.clients.Keys, lim.maxSessions);
    TouchKeeps(d, s, lim.maxSessions);
    TouchKeeps(Touched(d, s, lim.maxSessions), s, lim.maxSessions);
  }

  lemma StepDropsNone(x: World, e: Event, lim: Limits)
    requires Ok(x, lim) && lim.Valid() && Undropped(x) && |x.clients.Keys| <= lim.maxSessions
    ensures Undropped(Next(x, e, lim))
  {
    match e
    case Issue(_) =>
    case Resend(s, n) =>
      assert n in x.ClientOf(s).pending ==> s in x.clients;
    case Receive(_) =>
    case Deliver(w, succeeds) =>
      if w in x.sent {
        HostedDropsNone(x, w, succeeds, lim);
      }
  }

  /** While no more sessions write than the cap allows, none is ever dropped: then ExactlyOnceInEveryRun holds
      of every session. */
  lemma {:induction false} NothingIsDropped(events: seq<Event>, lim: Limits)
    requires lim.Valid() && |Run(events, lim).clients.Keys| <= lim.maxSessions
    ensures Undropped(Run(events, lim))
  {
    if events != [] {
      var n := |events| - 1;
      var x := Run(events[..n], lim);
      ClientsStay(x, events[n], lim);
      SubsetSize(x.clients.Keys, Next(x, events[n], lim).clients.Keys);
      NothingIsDropped(events[..n], lim);
      RunIsOk(Start(), events[..n], lim);
      StepDropsNone(x, events[n], lim);
    }
  }

  lemma ClientsStay(x: World, e: Event, lim: Limits)
    ensures x.clients.Keys <= Next(x, e, lim).clients.Keys
  {
  }

  /** A state that some run reaches. */
  ghost predicate Reachable(x: World, lim: Limits) {
    exists events :: Run(events, lim) == x
  }

  lemma OneMoreEvent(x: World, e: Event, lim: Limits)
    requires lim.Valid() && Reachable(x, lim)
    ensures Reachable(Next(x, e, lim), lim) && Ok(x, lim)
  {
    var events :| Run(events, lim) == x;
    RunIsOk(Start(), events, lim);
    assert (events + [e])[..|events|] == events;
    assert Run(events + [e], lim) == Next(x, e, lim);
  }

  lemma {:induction false} WithoutAbsent(order: seq<string>, s: string)
    requires s !in order
    ensures Without(order, s) == order
  {
    if order != [] {
      WithoutAbsent(order[..|order| - 1], s);
      assert order[|order| - 1] in order;
    }
  }

  /** A session that is already the newest keeps its place. */
  lemma TouchNewest(r: Registry, order: seq<string>, s: string, maxSessions: nat)
    requires s !in order && r.order == order + [s] && s in r.windows
    ensures Touched(r, s, maxSessions).order == r.order
  {
    assert r.order[..|r.order| - 1] == order;
    WithoutAbsent(order, s);
  }

  /** A new session comes last, and when the registry is full the oldest goes. */
  lemma TouchOrder(r: Registry, s: string, maxSessions: nat)
    requires r.Valid() && s !in r.windows && maxSessions > 0 && |r.order| <= maxSessions
    ensures Touched(r, s, maxSessions).order == (if |r.order| < maxSessions then r.order else r.order[1..]) + [s]
  {
    var added := Registry(r.windows[s := NewWindow()], r.order + [s]);
    if |r.order| == maxSessions {
      var rest := Registry(added.windows - {added.order[0]}, added.order[1..]);
      assert Trim(added, maxSessions) == Trim(rest, maxSessions) == rest;
      assert added.order[1..] == r.order[1..] + [s];
    }
  }

  /** A host that does not know the session runs its write, and remembers the session as the newest. */
  lemma HostedFirst(r: Registry, w: Write, lim: Limits)
    requires r.Valid() && lim.Valid() && |r.order| <= lim.maxSessions && w.session !in r.windows && w.n > 0
    ensures var reply := Hosted(r, w, true, lim.capacity, lim.maxSessions);
            && reply.applied
            && reply.registry.order == (if |r.order| < lim.maxSessions then r.order else r.order[1..]) + [w.session]
  {
    var s := w.session;
    HostedWindow(r, w, true, lim.capacity, lim.maxSessions);
    assert r.With(s, r.WindowOf(s).Drained(w.acked)) == r;
    TouchKeeps(r, s, lim.maxSessions);
    TouchOrder(r, s, lim.maxSessions);
    TouchNewest(Touched(r, s, lim.maxSessions), if |r.order| < lim.maxSessions then r.order else r.order[1..], s, lim.maxSessions);
  }

  /** A session's first write, delivered when the registry does not know the session. */
  lemma FirstWrite(x: World, s: string, lim: Limits)
    requires Ok(x, lim) && lim.Valid() && s !in x.registry.windows && Write(s, 1, 0) in x.sent
    ensures var y := Next(x, Deliver(Write(s, 1, 0), true), lim);
            && y.log == x.log + [Id(s, 1)] && y.clients == x.clients && y.sent == x.sent
            && y.registry.order == (if |x.registry.order| < lim.maxSessions then x.registry.order else x.registry.order[1..]) + [s]
  {
    hide Hosted;
    HostedFirst(x.registry, Write(s, 1, 0), lim);
  }

  /** The first sessions there are, by number. */
  function Numbered(n: nat): (r: seq<string>)
    ensures |r| == n && forall i: nat | i < n :: r[i] == Decimal(i)
  {
    if n == 0 then [] else Numbered(n - 1) + [Decimal(n - 1)]
  }

  lemma NumberedAreDistinct(n: nat)
    ensures Distinct(Numbered(n))
  {
    forall i: nat, j: nat | i < j < n ensures Numbered(n)[i] != Numbered(n)[j] {
      if Decimal(i) == Decimal(j) {
        DecimalInjective(i, j);
      }
    }
  }

  lemma NumberedIsNew(n: nat)
    ensures Decimal(n) !in Numbered(n)
  {
    NumberedAreDistinct(n + 1);
    assert Numbered(n + 1) == Numbered(n) + [Decimal(n)];
    assert forall i: nat | i < n :: Numbered(n + 1)[i] == Numbered(n)[i];
  }

  lemma NextSession(x: World, s: string, lim: Limits) returns (y: World)
    requires Reachable(x, lim) && lim.Valid() && s !in x.clients
    ensures Reachable(y, lim) && y.clients.Keys == x.clients.Keys + {s} && y.registry == x.registry && y.log == x.log
    ensures y.sent == x.sent + {Write(s, 1, 0)}
  {
    OneMoreEvent(x, Issue(s), lim);
    y := Next(x, Issue(s), lim);
  }

  lemma WrittenNext(x: World, s: string, lim: Limits) returns (y: World)
    requires Reachable(x, lim) && lim.Valid() && s !in x.registry.windows && Write(s, 1, 0) in x.sent
    ensures Reachable(y, lim) && y.log == x.log + [Id(s, 1)] && y.clients == x.clients && y.sent == x.sent
    ensures y.registry.order == (if |x.registry.order| < lim.maxSessions then x.registry.order else x.registry.order[1..]) + [s]
  {
    OneMoreEvent(x, Deliver(Write(s, 1, 0), true), lim);
    FirstWrite(x, s, lim);
    y := Next(x, Deliver(Write(s, 1, 0), true), lim);
  }

  /** The first write of each of them, in order. */
  function FirstWrites(n: nat): (r: seq<Id>)
    ensures |r| == n && (n > 0 ==> r[0] == Id(Decimal(0), 1))
  {
    if n == 0 then [] else FirstWrites(n - 1) + [Id(Decimal(n - 1), 1)]
  }

  /** n sessions have written, one after the other, and the registry remembers the newest of them. */
  ghost predicate Filled(x: World, n: nat, lim: Limits) {
    && Reachable(x, lim) && x.clients.Keys == Elements(Numbered(n)) && x.log == FirstWrites(n)
    && x.registry.order == (if n <= lim.maxSessions then Numbered(n) else Numbered(n)[n - lim.maxSessions..])
    && (n > 0 ==> Write(Decimal(0), 1, 0) in x.sent)
  }

  lemma NumberedElements(n: nat)
    ensures Elements(Numbered(n + 1)) == Elements(Numbered(n)) + {Decimal(n)}
  {
    assert Numbered(n + 1) == Numbered(n) + [Decimal(n)];
  }

  lemma NotYetKnown(y: World, n: nat, lim: Limits)
    requires lim.Valid() && n <= lim.maxSessions && Filled(y, n, lim)
    ensures Decimal(n) !in y.registry.windows && Decimal(n) !in y.clients
  {
    hide Run, RunFrom, Next;
    NumberedIsNew(n);
    OneMoreEvent(y, Issue(""), lim);
  }

  lemma FillOne(y: World, n: nat, lim: Limits) returns (x: World)
    requires lim.Valid() && n <= lim.maxSessions && Filled(y, n, lim)
    ensures Filled(x, n + 1, lim)
  {
    hide Run, RunFrom, Next, Ok, Reachable, Elements;
    NotYetKnown(y, n, lim);
    var z := NextSession(y, Decimal(n), lim);
    x := WrittenNext(z, Decimal(n), lim);
    NumberedElements(n);
  }

  lemma {:induction false} Fill(n: nat, lim: Limits) returns (x: World)
    requires lim.Valid() && n <= lim.maxSessions + 1
    ensures Filled(x, n, lim)
  {
    if n == 0 {
      x := Start();
      assert Run([], lim) == Start();
    } else {
      var y := Fill(n - 1, lim);
      x := FillOne(y, n - 1, lim);
    }
  }

  ghost predicate AppliesOnce(x: World) {
    forall s, n :: Times(x.log, Id(s, n)) <= 1
  }

  /** One session more than the cap, and a write is applied twice: its session is dropped between a delivery and
      the repeat. */
  lemma AppliesTwice(lim: Limits) returns (x: World)
    requires lim.Valid()
    ensures Reachable(x, lim) && |x.clients.Keys| == lim.maxSessions + 1
    ensures Times(x.log, Id(Decimal(0), 1)) >= 2
  {
    hide Run, RunFrom, Next, Ok, Reachable;
    var n := lim.maxSessions + 1;
    var y := Fill(n, lim);
    NumberedAreDistinct(n);
    DistinctSize(Numbered(n));
    FirstIsForgotten(y, lim);
    x := WrittenNext(y, Decimal(0), lim);
    assert multiset(x.log) == multiset(y.log) + multiset{Id(Decimal(0), 1)};
  }

  lemma FirstIsForgotten(y: World, lim: Limits)
    requires lim.Valid() && Filled(y, lim.maxSessions + 1, lim)
    ensures Decimal(0) !in y.registry.windows
  {
    hide Run, RunFrom, Next;
    var n, order := lim.maxSessions + 1, y.registry.order;
    NumberedAreDistinct(n);
    OneMoreEvent(y, Issue(""), lim);
    assert forall i: nat | i < |order| :: order[i] == Numbered(n)[i + 1] && order[i] != Numbered(n)[0];
  }

  /** Exactly-once holds of every run in which at most k sessions write exactly when k is within the cap. */
  lemma CapIsExact(lim: Limits, k: nat)
    requires lim.Valid()
    ensures (forall events | |Run(events, lim).clients.Keys| <= k :: AppliesOnce(Run(events, lim))) <==> k <= lim.maxSessions
  {
    if k <= lim.maxSessions {
      forall events, s, n | |Run(events, lim).clients.Keys| <= k ensures Times(Run(events, lim).log, Id(s, n)) <= 1 {
        NothingIsDropped(events, lim);
        ExactlyOnceInEveryRun(events, lim, s, n);
      }
    } else {
      var x := AppliesTwice(lim);
      var events :| Run(events, lim) == x;
      assert |Run(events, lim).clients.Keys| <= k && !AppliesOnce(Run(events, lim));
    }
  }

  // --------------------------------------------------------------- recovery --

  lemma {:induction false} IntervalSize(a: set<nat>, lo: nat, hi: nat)
    requires lo <= hi && forall n | n in a :: lo < n <= hi
    ensures |a| <= hi - lo
  {
    if lo < hi {
      IntervalSize(a - {hi}, lo, hi - 1);
      assert a <= (a - {hi}) + {hi};
      SubsetSize(a, (a - {hi}) + {hi});
    } else {
      assert a == {};
    }
  }

  /** A client whose unsettled span fits the capacity is never refused for space: the write's own
      acknowledgement makes the room, and nothing but the write itself can fail. */
  lemma NeverFullWithinSpan(x: World, w: Write, lim: Limits)
    requires Ok(x, lim) && lim.Valid() && w in x.sent && w.session !in x.dropped
    requires x.ClientOf(w.session).writeSeq <= w.acked + lim.capacity
    ensures Remembered(DrainedWindow(x, w), w.n) || DrainedWindow(x, w).Retained() < lim.capacity
  {
    var d := DrainedWindow(x, w);
    DrainKeeps(x, w, lim);
    assert w.session in x.registry.windows || d == NewWindow();
    var hi := x.ClientOf(w.session).writeSeq;
    assert forall n | n in d.seqs :: Id(w.session, n) in x.log;
    assert x.ClientOf(w.session).Valid();
    if w.n !in d.seqs && w.n > d.lowWater {
      IntervalSize(d.seqs + {w.n}, if d.lowWater < w.acked then d.lowWater else w.acked, hi);
    }
  }

  function Replayed(x: World, s: string, n: nat, lim: Limits): World {
    Next(Next(x, Resend(s, n), lim), Deliver(Write(s, n, x.ClientOf(s).acked), true), lim)
  }

  predicate Taken(x: World, w: Write, lim: Limits) {
    Remembered(DrainedWindow(x, w), w.n) || DrainedWindow(x, w).Retained() < lim.capacity
  }

  lemma ReplayIsAnswered(x: World, s: string, n: nat, lim: Limits)
    requires Ok(x, lim) && lim.Valid() && n in x.ClientOf(s).pending
    ensures var y := Replayed(x, s, n, lim);
            && Ok(y, lim) && y.ClientOf(s) == x.ClientOf(s)
            && Ack(s, n, Taken(x, Write(s, n, x.ClientOf(s).acked), lim)) in y.answers
  {
    var w := Write(s, n, x.ClientOf(s).acked);
    var sent := Next(x, Resend(s, n), lim);
    ResendKeeps(x, s, n, lim);
    DeliverKeeps(sent, w, true, lim);
    DrainKeeps(sent, w, lim);
    HostedWindow(sent.registry, w, true, lim.capacity, lim.maxSessions);
  }

  lemma AnswerSettles(x: World, a: Ack, lim: Limits)
    requires Ok(x, lim) && a in x.answers && a.n in x.ClientOf(a.session).pending
    ensures var y := Next(x, Receive(a), lim);
            && a.n in y.ClientOf(a.session).outcome && y.ClientOf(a.session).outcome[a.n] == a.ok
            && (a.ok ==> Id(a.session, a.n) in y.log)
  {
    SettledIsValid(x.ClientOf(a.session), a.n, a.ok);
    if a.ok {
      PromiseKept(x, a, lim);
    }
  }

  /** From every state a run can reach, re-sending a pending write, delivering that message to any host and its
      answer to the client settles it: as succeeded exactly when it was applied before or its window has room. */
  lemma ReplayRecovers(x: World, s: string, n: nat, lim: Limits)
    requires Ok(x, lim) && lim.Valid() && n in x.ClientOf(s).pending
    ensures var taken := Taken(x, Write(s, n, x.ClientOf(s).acked), lim);
            var y := Next(Replayed(x, s, n, lim), Receive(Ack(s, n, taken)), lim);
            n in y.ClientOf(s).outcome && y.ClientOf(s).outcome[n] == taken && (taken ==> Id(s, n) in y.log)
  {
    ReplayIsAnswered(x, s, n, lim);
    AnswerSettles(Replayed(x, s, n, lim), Ack(s, n, Taken(x, Write(s, n, x.ClientOf(s).acked), lim)), lim);
  }
}
