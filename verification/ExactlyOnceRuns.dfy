/** Every run of the write protocol: any number of clients, any loss, repetition and reordering of messages. */
module ExactlyOnceRuns {
  import opened Collections
  import opened Dedup
  import opened ExactlyOnce

  /** The registry's capacity per session and its cap on sessions, both at least one. */
  datatype Limits = Limits(capacity: nat, maxSessions: nat) {
    predicate Valid() {
      capacity > 0 && maxSessions > 0
    }
  }

  datatype Id = Id(session: string, n: nat)

  /** `sent` and `answers` are all the messages there ever were: one that is lost is never delivered, and one
      that is repeated or late is delivered again or later. `log` is what was applied to the store, in order;
      `dropped` the sessions the registry ever dropped to make room. */
  datatype World = World(clients: map<string, Client>, sent: set<Write>, answers: set<Ack>,
                         registry: Registry, log: seq<Id>, dropped: set<string>) {
    function ClientOf(s: string): Client {
      if s in clients then clients[s] else NewClient()
    }
  }

  function Start(): World {
    World(map[], {}, {}, Registry(map[], []), [], {})
  }

  datatype Event =
    | Issue(session: string)
    | Resend(session: string, n: nat)
    | Deliver(w: Write, succeeds: bool)
    | Receive(a: Ack)

  function Next(x: World, e: Event, lim: Limits): World {
    match e
    case Issue(s) =>
      var c := x.ClientOf(s).Issued();
      x.(clients := x.clients[s := c], sent := x.sent + {Write(s, c.writeSeq, c.acked)})
    case Resend(s, n) =>
      if n in x.ClientOf(s).pending then x.(sent := x.sent + {Write(s, n, x.ClientOf(s).acked)}) else x
    case Deliver(w, succeeds) =>
      if w in x.sent then Delivered(x, w, Hosted(x.registry, w, succeeds, lim.capacity, lim.maxSessions)) else x
    case Receive(a) =>
      if a in x.answers then x.(clients := x.clients[a.session := x.ClientOf(a.session).Settled(a.n, a.ok)]) else x
  }

  function Delivered(x: World, w: Write, reply: Reply): World {
    x.(registry := reply.registry,
       log := if reply.applied then x.log + [Id(w.session, w.n)] else x.log,
       answers := x.answers + {Ack(w.session, w.n, reply.ok)},
       dropped := x.dropped + (x.registry.windows.Keys - reply.registry.windows.Keys))
  }

  function RunFrom(x: World, events: seq<Event>, lim: Limits): World {
    if events == [] then x else Next(RunFrom(x, events[..|events| - 1], lim), events[|events| - 1], lim)
  }

  function Run(events: seq<Event>, lim: Limits): World {
    RunFrom(Start(), events, lim)
  }

  // ---------------------------------------------------- what every step keeps --

  ghost predicate ClientsOk(x: World) {
    forall s :: x.ClientOf(s).Valid()
  }

  /** No message runs ahead of its client, or acknowledges the write it carries. */
  ghost predicate SentOk(x: World) {
    forall w | w in x.sent ::
      1 <= w.n <= x.ClientOf(w.session).writeSeq && w.acked <= x.ClientOf(w.session).acked && w.acked < w.n
  }

  ghost predicate WindowOk(win: Window, s: string, x: World, lim: Limits) {
    && win.lowWater <= x.ClientOf(s).acked
    && |win.seqs| <= lim.capacity && win.legacy == []
    && forall n | n in win.seqs :: n > win.lowWater && Id(s, n) in x.log
  }

  ghost predicate RegistryOk(x: World, lim: Limits) {
    && x.registry.Valid() && |x.registry.order| <= lim.maxSessions
    && forall s :: WindowOk(x.registry.WindowOf(s), s, x, lim)
  }

  predicate Remembered(win: Window, n: nat) {
    n <= win.lowWater || n in win.seqs
  }

  /** What was applied stays remembered, unless its session is dropped. */
  ghost predicate LogOk(x: World) {
    forall id | id in x.log ::
      && 1 <= id.n <= x.ClientOf(id.session).writeSeq
      && (id.session in x.dropped || Remembered(x.registry.WindowOf(id.session), id.n))
  }

  ghost predicate Once(x: World) {
    forall i, j | 0 <= i < j < |x.log| && x.log[i] == x.log[j] :: x.log[i].session in x.dropped
  }

  /** An answer of ok means applied, or long since settled. */
  ghost predicate AnswersOk(x: World) {
    forall a | a in x.answers :: a.ok ==> Id(a.session, a.n) in x.log || a.n <= x.ClientOf(a.session).acked
  }

  /** A promise kept means applied. */
  ghost predicate OutcomesOk(x: World) {
    forall s, n | n in x.ClientOf(s).outcome :: x.ClientOf(s).outcome[n] ==> Id(s, n) in x.log
  }

  ghost predicate Ok(x: World, lim: Limits) {
    ClientsOk(x) && SentOk(x) && RegistryOk(x, lim) && LogOk(x) && Once(x) && AnswersOk(x) && OutcomesOk(x)
  }

  /** A client that moves forward leaves everything else in order. */
  lemma ForwardKeeps(x: World, y: World, lim: Limits)
    requires Ok(x, lim)
    requires y.registry == x.registry && y.log == x.log && y.answers == x.answers && y.dropped == x.dropped
    requires forall s :: x.ClientOf(s).writeSeq <= y.ClientOf(s).writeSeq && x.ClientOf(s).acked <= y.ClientOf(s).acked
    ensures RegistryOk(y, lim) && LogOk(y) && Once(y) && AnswersOk(y)
  {
    forall s ensures WindowOk(y.registry.WindowOf(s), s, y, lim) {
      assert WindowOk(x.registry.WindowOf(s), s, x, lim);
    }
  }

  lemma IssueKeeps(x: World, s: string, lim: Limits)
    requires Ok(x, lim)
    ensures Ok(Next(x, Issue(s), lim), lim)
  {
    var y := Next(x, Issue(s), lim);
    IssuedIsValid(x.ClientOf(s));
    assert forall u :: y.ClientOf(u) == if u == s then x.ClientOf(s).Issued() else x.ClientOf(u);
    ForwardKeeps(x, y, lim);
  }

  lemma ResendKeeps(x: World, s: string, n: nat, lim: Limits)
    requires Ok(x, lim)
    ensures Ok(Next(x, Resend(s, n), lim), lim)
  {
    var y := Next(x, Resend(s, n), lim);
    assert forall u :: y.ClientOf(u) == x.ClientOf(u);
    assert x.ClientOf(s).Valid();
    ForwardKeeps(x, y, lim);
  }

  /** A pending write's ok answers for an application; any other answer changes nothing. */
  lemma PromiseKept(x: World, a: Ack, lim: Limits)
    requires Ok(x, lim) && a in x.answers && a.ok && a.n in x.ClientOf(a.session).pending
    ensures Id(a.session, a.n) in x.log
  {
    assert x.ClientOf(a.session).Valid();
  }

  lemma ReceiveKeeps(x: World, a: Ack, lim: Limits)
    requires Ok(x, lim)
    ensures Ok(Next(x, Receive(a), lim), lim)
  {
    if a in x.answers {
      var y := Next(x, Receive(a), lim);
      var c := x.ClientOf(a.session);
      SettledIsValid(c, a.n, a.ok);
      if a.ok && a.n in c.pending {
        PromiseKept(x, a, lim);
      }
      assert forall u :: y.ClientOf(u) == if u == a.session then c.Settled(a.n, a.ok) else x.ClientOf(u);
      ForwardKeeps(x, y, lim);
      ReceivedOutcomes(x, a, lim);
    }
  }

  lemma ReceivedOutcomes(x: World, a: Ack, lim: Limits)
    requires Ok(x, lim) && a in x.answers
    ensures OutcomesOk(Next(x, Receive(a), lim))
  {
    var y := Next(x, Receive(a), lim);
    var c := x.ClientOf(a.session);
    SettledIsValid(c, a.n, a.ok);
    forall s, n | n in y.ClientOf(s).outcome ensures y.ClientOf(s).outcome[n] ==> Id(s, n) in y.log {
      if s == a.session && n == a.n && n in c.pending {
        if a.ok {
          PromiseKept(x, a, lim);
        }
      } else {
        assert n in x.ClientOf(s).outcome;
      }
    }
  }

  /** The session's window once the write's acknowledgement has drained it. */
  function DrainedWindow(x: World, w: Write): Window {
    var win := x.registry.WindowOf(w.session);
    if w.session in x.registry.windows then win.Drained(w.acked) else win
  }

  /** Draining keeps a window in order, and forgets nothing that might come again. */
  lemma DrainKeeps(x: World, w: Write, lim: Limits)
    requires Ok(x, lim) && w in x.sent
    ensures var win, d := x.registry.WindowOf(w.session), DrainedWindow(x, w);
            && WindowOk(d, w.session, x, lim)
            && (forall n: nat :: Remembered(win, n) ==> Remembered(d, n))
            && d.Seen(w.Ticket()) == Remembered(d, w.n)
  {
    var win, d := x.registry.WindowOf(w.session), DrainedWindow(x, w);
    assert WindowOk(win, w.session, x, lim);
    assert d.seqs <= win.seqs;
    SubsetSize(d.seqs, win.seqs);
  }

  lemma LogGrows(x: World, w: Write, reply: Reply)
    ensures var y := Delivered(x, w, reply);
            && (forall id | id in x.log :: id in y.log)
            && (reply.applied ==> Id(w.session, w.n) in y.log)
            && (forall id | id in y.log :: id in x.log || (reply.applied && id == Id(w.session, w.n)))
            && forall s :: y.ClientOf(s) == x.ClientOf(s)
  {
    var y := Delivered(x, w, reply);
    assert reply.applied ==> y.log[|x.log|] == Id(w.session, w.n);
  }

  lemma WindowCarries(win: Window, s: string, x: World, y: World, lim: Limits)
    requires WindowOk(win, s, x, lim) && y.ClientOf(s) == x.ClientOf(s) && forall id | id in x.log :: id in y.log
    ensures WindowOk(win, s, y, lim)
  {
  }

  lemma WindowGrows(win: Window, s: string, n: nat, x: World, lim: Limits)
    requires WindowOk(win, s, x, lim) && Id(s, n) in x.log && n > win.lowWater && win.Retained() < lim.capacity
    ensures WindowOk(win.(seqs := win.seqs + {n}), s, x, lim)
  {
  }

  lemma DeliverOwnWindow(x: World, w: Write, succeeds: bool, lim: Limits)
    requires Ok(x, lim) && lim.Valid() && w in x.sent
    ensures var y := Next(x, Deliver(w, succeeds), lim); WindowOk(y.registry.WindowOf(w.session), w.session, y, lim)
  {
    var y := Next(x, Deliver(w, succeeds), lim);
    var reply := Hosted(x.registry, w, succeeds, lim.capacity, lim.maxSessions);
    var d := DrainedWindow(x, w);
    DrainKeeps(x, w, lim);
    HostedWindow(x.registry, w, succeeds, lim.capacity, lim.maxSessions);
    LogGrows(x, w, reply);
    WindowCarries(d, w.session, x, y, lim);
    if reply.applied {
      WindowGrows(d, w.session, w.n, y, lim);
    }
  }

  lemma DeliverOtherWindow(x: World, w: Write, succeeds: bool, lim: Limits, s: string)
    requires Ok(x, lim) && lim.Valid() && w in x.sent && s != w.session
    ensures var y := Next(x, Deliver(w, succeeds), lim); WindowOk(y.registry.WindowOf(s), s, y, lim)
  {
    HostedOthers(x.registry, w, succeeds, lim.capacity, lim.maxSessions, s);
    LogGrows(x, w, Hosted(x.registry, w, succeeds, lim.capacity, lim.maxSessions));
    assert WindowOk(x.registry.WindowOf(s), s, x, lim);
  }

  lemma DeliverRegistry(x: World, w: Write, succeeds: bool, lim: Limits)
    requires Ok(x, lim) && lim.Valid() && w in x.sent
    ensures RegistryOk(Next(x, Deliver(w, succeeds), lim), lim)
  {
    var y := Next(x, Deliver(w, succeeds), lim);
    HostedWindow(x.registry, w, succeeds, lim.capacity, lim.maxSessions);
    forall s ensures WindowOk(y.registry.WindowOf(s), s, y, lim) {
      if s == w.session {
        DeliverOwnWindow(x, w, succeeds, lim);
      } else {
        DeliverOtherWindow(x, w, succeeds, lim, s);
      }
    }
  }

  lemma DeliverRemembers(x: World, w: Write, succeeds: bool, lim: Limits, id: Id)
    requires Ok(x, lim) && lim.Valid() && w in x.sent && id in x.log
    ensures var y := Next(x, Deliver(w, succeeds), lim);
            id.session in y.dropped || Remembered(y.registry.WindowOf(id.session), id.n)
  {
    if id.session == w.session {
      DrainKeeps(x, w, lim);
      HostedWindow(x.registry, w, succeeds, lim.capacity, lim.maxSessions);
    } else {
      HostedOthers(x.registry, w, succeeds, lim.capacity, lim.maxSessions, id.session);
    }
  }

  /** A write runs only when it is not in the log - unless its session was dropped. */
  lemma AppliedIsNew(x: World, w: Write, succeeds: bool, lim: Limits)
    requires Ok(x, lim) && lim.Valid() && w in x.sent
    requires Hosted(x.registry, w, succeeds, lim.capacity, lim.maxSessions).applied
    ensures Id(w.session, w.n) in x.log ==> w.session in x.dropped
  {
    DrainKeeps(x, w, lim);
    HostedWindow(x.registry, w, succeeds, lim.capacity, lim.maxSessions);
  }

  lemma DeliverLog(x: World, w: Write, succeeds: bool, lim: Limits)
    requires Ok(x, lim) && lim.Valid() && w in x.sent
    ensures LogOk(Next(x, Deliver(w, succeeds), lim))
  {
    var y := Next(x, Deliver(w, succeeds), lim);
    HostedWindow(x.registry, w, succeeds, lim.capacity, lim.maxSessions);
    LogGrows(x, w, Hosted(x.registry, w, succeeds, lim.capacity, lim.maxSessions));
    forall id | id in y.log
      ensures 1 <= id.n <= y.ClientOf(id.session).writeSeq
      ensures id.session in y.dropped || Remembered(y.registry.WindowOf(id.session), id.n)
    {
      if id in x.log {
        DeliverRemembers(x, w, succeeds, lim, id);
      }
    }
  }

  lemma DeliverOnce(x: World, w: Write, succeeds: bool, lim: Limits)
    requires Ok(x, lim) && lim.Valid() && w in x.sent
    ensures Once(Next(x, Deliver(w, succeeds), lim))
  {
    var y := Next(x, Deliver(w, succeeds), lim);
    if y.log != x.log {
      AppliedIsNew(x, w, succeeds, lim);
      forall i, j | 0 <= i < j < |y.log| && y.log[i] == y.log[j] ensures y.log[i].session in y.dropped {
        if j == |x.log| {
          assert x.log[i] == Id(w.session, w.n);
        } else {
          assert x.log[i] == x.log[j];
        }
      }
    }
  }

  lemma DeliverAnswers(x: World, w: Write, succeeds: bool, lim: Limits)
    requires Ok(x, lim) && lim.Valid() && w in x.sent
    ensures AnswersOk(Next(x, Deliver(w, succeeds), lim))
  {
    DrainKeeps(x, w, lim);
    HostedWindow(x.registry, w, succeeds, lim.capacity, lim.maxSessions);
    LogGrows(x, w, Hosted(x.registry, w, succeeds, lim.capacity, lim.maxSessions));
  }

  lemma DeliverKeeps(x: World, w: Write, succeeds: bool, lim: Limits)
    requires Ok(x, lim) && lim.Valid()
    ensures Ok(Next(x, Deliver(w, succeeds), lim), lim)
  {
    if w in x.sent {
      var y := Next(x, Deliver(w, succeeds), lim);
      DeliverRegistry(x, w, succeeds, lim);
      DeliverLog(x, w, succeeds, lim);
      DeliverOnce(x, w, succeeds, lim);
      DeliverAnswers(x, w, succeeds, lim);
      LogGrows(x, w, Hosted(x.registry, w, succeeds, lim.capacity, lim.maxSessions));
    }
  }

  lemma StepIsOk(x: World, e: Event, lim: Limits)
    requires lim.Valid() && Ok(x, lim)
    ensures Ok(Next(x, e, lim), lim)
  {
    match e
    case Issue(s) => IssueKeeps(x, s, lim);
    case Resend(s, n) => ResendKeeps(x, s, n, lim);
    case Deliver(w, succeeds) => DeliverKeeps(x, w, succeeds, lim);
    case Receive(a) => ReceiveKeeps(x, a, lim);
  }

  /** Every run keeps the invariant. */
  lemma {:induction false} RunIsOk(x: World, events: seq<Event>, lim: Limits)
    requires lim.Valid() && Ok(x, lim)
    ensures Ok(RunFrom(x, events, lim), lim)
  {
    if events != [] {
      RunIsOk(x, events[..|events| - 1], lim);
      StepIsOk(RunFrom(x, events[..|events| - 1], lim), events[|events| - 1], lim);
    }
  }

  function Times(log: seq<Id>, id: Id): nat {
    multiset(log)[id]
  }

  lemma {:induction false} TwiceSomewhere(log: seq<Id>, id: Id)
    requires Times(log, id) > 1
    ensures exists i, j | 0 <= i < j < |log| :: log[i] == log[j] == id
  {
    var n := |log| - 1;
    assert log == log[..n] + [log[n]];
    if log[n] == id {
      assert id in log[..n];
    } else {
      TwiceSomewhere(log[..n], id);
    }
  }

  /** In every run: no write of a session that was never dropped is applied twice; and a write whose
      client was told it succeeded was applied - exactly once. */
  lemma ExactlyOnceInEveryRun(events: seq<Event>, lim: Limits, s: string, n: nat)
    requires lim.Valid() && s !in Run(events, lim).dropped
    ensures var x := Run(events, lim);
            && Times(x.log, Id(s, n)) <= 1
            && (n in x.ClientOf(s).outcome && x.ClientOf(s).outcome[n] ==> Times(x.log, Id(s, n)) == 1)
  {
    var x := Run(events, lim);
    RunIsOk(Start(), events, lim);
    if Times(x.log, Id(s, n)) > 1 {
      TwiceSomewhere(x.log, Id(s, n));
    }
  }
}
