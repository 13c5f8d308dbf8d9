/** The two ends of an exactly-once write: a client that numbers its writes and replays what was never
    answered, and a host that asks the dedup registry before it runs one. */
module ExactlyOnce {
  import opened Options
  import opened Names
  import opened Dedup

  /** A mutate message: its session, its sequence number, and what its client had resolved when sending it. */
  datatype Write = Write(session: string, n: nat, acked: nat) {
    function Ticket(): Ticket {
      Dedup.Ticket(session, Some(n), "m-" + session + "-" + Decimal(n))
    }
  }

  datatype Ack = Ack(session: string, n: nat, ok: bool)

  // -------------------------------------------------------------- the client --

  /** `outcome` is what each promise settled to. */
  datatype Client = Client(writeSeq: nat, pending: set<nat>, acked: nat, ahead: set<nat>, outcome: map<nat, bool>) {
    /** Each write is either pending or settled; `acked` is the highest number up to which all are settled,
        and `ahead` holds what is settled beyond a gap. */
    ghost predicate Valid() {
      Settling() && acked + 1 !in ahead
    }

    ghost predicate Settling() {
      && acked <= writeSeq
      && (forall n :: n in pending ==> acked < n <= writeSeq && n !in outcome)
      && (forall n :: n in outcome ==> 1 <= n <= writeSeq)
      && (forall n: nat :: 1 <= n <= writeSeq ==> n in pending || n in outcome)
      && (forall n :: n in ahead <==> n in outcome && n > acked)
    }

    function Issued(): Client {
      this.(writeSeq := writeSeq + 1, pending := pending + {writeSeq + 1})
    }

    function Advanced(): Client
      decreases |ahead|
    {
      if acked + 1 in ahead then this.(acked := acked + 1, ahead := ahead - {acked + 1}).Advanced() else this
    }

    function Settled(n: nat, ok: bool): Client {
      if n in pending then
        this.(pending := pending - {n}, ahead := ahead + {n}, outcome := outcome[n := ok]).Advanced()
      else this
    }
  }

  function NewClient(): Client {
    Client(0, {}, 0, {}, map[])
  }

  lemma {:induction false} AdvancedIsValid(c: Client)
    requires c.Settling()
    ensures var d := c.Advanced();
            d.Valid() && d.acked >= c.acked && d.writeSeq == c.writeSeq && d.pending == c.pending && d.outcome == c.outcome
    decreases |c.ahead|
  {
    if c.acked + 1 in c.ahead {
      AdvancedIsValid(c.(acked := c.acked + 1, ahead := c.ahead - {c.acked + 1}));
    }
  }

  lemma SettledIsValid(c: Client, n: nat, ok: bool)
    requires c.Valid()
    ensures var d := c.Settled(n, ok);
            && d.Valid() && d.acked >= c.acked && d.writeSeq == c.writeSeq
            && d.pending == c.pending - {n}
            && d.outcome == if n in c.pending then c.outcome[n := ok] else c.outcome
  {
    if n in c.pending {
      AdvancedIsValid(c.(pending := c.pending - {n}, ahead := c.ahead + {n}, outcome := c.outcome[n := ok]));
    }
  }

  lemma IssuedIsValid(c: Client)
    requires c.Valid()
    ensures c.Issued().Valid()
  {
  }

  /** The client's side of the protocol: its write counter, its unanswered writes, what it has resolved. */
  class SyncClient {
    const session: string
    var writeSeq: nat
    var pending: set<nat>
    var ackedThrough: nat
    var resolvedAhead: set<nat>
    var outcome: map<nat, bool>

    function Value(): Client
      reads this
    {
      Client(writeSeq, pending, ackedThrough, resolvedAhead, outcome)
    }

    constructor (session: string)
      ensures Value() == NewClient() && Value().Valid() && this.session == session
    {
      this.session := session;
      writeSeq, pending, ackedThrough, resolvedAhead, outcome := 0, {}, 0, {}, map[];
    }

    /** A new write, and the message that carries it. */
    method Mutate() returns (w: Write)
      requires Value().Valid()
      modifies this
      ensures Value() == old(Value()).Issued() && Value().Valid()
      ensures w == Write(session, writeSeq, ackedThrough)
    {
      IssuedIsValid(Value());
      writeSeq := writeSeq + 1;
      pending := pending + {writeSeq};
      w := Write(session, writeSeq, ackedThrough);
    }

    /** A write re-sent after a reconnect keeps its number and carries the latest acknowledgement. */
    method Resend(n: nat) returns (w: Write)
      requires n in pending
      ensures w == Write(session, n, ackedThrough)
    {
      w := Write(session, n, ackedThrough);
    }

    method ResolveSeq(n: nat)
      modifies this
      ensures Value() == old(Value().(ahead := resolvedAhead + {n}).Advanced())
    {
      resolvedAhead := resolvedAhead + {n};
      ghost var before := Value();
      while ackedThrough + 1 in resolvedAhead
        invariant Value().Advanced() == before.Advanced()
        decreases |resolvedAhead|
      {
        resolvedAhead := resolvedAhead - {ackedThrough + 1};
        ackedThrough := ackedThrough + 1;
      }
    }

    /** An answer settles its write's promise; an answer to a write that is not pending changes nothing. */
    method Receive(a: Ack)
      requires Value().Valid() && a.session == session
      modifies this
      ensures Value() == old(Value()).Settled(a.n, a.ok) && Value().Valid()
    {
      SettledIsValid(Value(), a.n, a.ok);
      if a.n in pending {
        pending := pending - {a.n};
        outcome := outcome[a.n := a.ok];
        ResolveSeq(a.n);
      }
    }
  }

  // ---------------------------------------------------------------- the host --

  datatype Reply = Reply(registry: Registry, applied: bool, ok: bool)

  /** What a host does with a write: drain, answer a repeat without running it, refuse when the window is full,
      else run it - it may fail - and remember it. */
  function Hosted(r: Registry, w: Write, succeeds: bool, capacity: nat, maxSessions: nat): Reply {
    var t := w.Ticket();
    var drained := r.With(w.session, r.WindowOf(w.session).Drained(w.acked));
    if drained.Seen(t) then Reply(drained, false, true)
    else
      var touched := Touched(drained, w.session, maxSessions);
      if touched.WindowOf(w.session).Retained() >= capacity || !succeeds then Reply(touched, false, false)
      else
        var again := Touched(touched, w.session, maxSessions);
        Reply(again.With(w.session, again.WindowOf(w.session).Marked(t, capacity)), true, true)
  }

  method HostMutate(dedup: DedupRegistry, w: Write, succeeds: bool) returns (applied: bool, ok: bool)
    requires dedup.Valid()
    modifies dedup
    ensures dedup.Valid()
    ensures Reply(dedup.Value(), applied, ok) == Hosted(old(dedup.Value()), w, succeeds, dedup.capacity, dedup.maxSessions)
  {
    hide HoldsNewest, Touched, Registry.Valid;
    var t := w.Ticket();
    dedup.Drain(w.session, w.acked);
    var seen := dedup.Seen(t);
    if seen {
      return false, true;
    }
    var admission := dedup.Admit(t);
    if admission == WindowFull || !succeeds {
      return false, false;
    }
    dedup.Mark(t);
    return true, true;
  }

  /** What a host may change: the session's own window, by the drain and by this write; no window of another
      session, except that a session may be dropped to make room. */
  lemma HostedWindow(r: Registry, w: Write, succeeds: bool, capacity: nat, maxSessions: nat)
    requires r.Valid() && maxSessions > 0 && capacity > 0 && |r.order| <= maxSessions && w.n > 0
    ensures var reply := Hosted(r, w, succeeds, capacity, maxSessions);
            var before, after := r.WindowOf(w.session), reply.registry.WindowOf(w.session);
            var drained := if w.session in r.windows then before.Drained(w.acked) else before;
            && reply.registry.Valid() && |reply.registry.order| <= maxSessions
            && (reply.applied ==> reply.ok && !drained.Seen(w.Ticket()) && drained.Retained() < capacity)
            && (reply.ok && !reply.applied ==> drained.Seen(w.Ticket()))
            && after == (if reply.applied then drained.(seqs := drained.seqs + {w.n}) else drained)
    ensures var reply := Hosted(r, w, succeeds, capacity, maxSessions);
            (reply.applied <==> succeeds && var drained := if w.session in r.windows then r.WindowOf(w.session).Drained(w.acked) else NewWindow();
                                !drained.Seen(w.Ticket()) && drained.Retained() < capacity)
  {
    var s := w.session;
    var drained := r.With(s, r.WindowOf(s).Drained(w.acked));
    if !drained.Seen(w.Ticket()) {
      TouchKeeps(drained, s, maxSessions);
      TouchKeeps(Touched(drained, s, maxSessions), s, maxSessions);
    }
  }

  lemma HostedOthers(r: Registry, w: Write, succeeds: bool, capacity: nat, maxSessions: nat, u: string)
    requires r.Valid() && maxSessions > 0 && |r.order| <= maxSessions && u != w.session
    ensures var after := Hosted(r, w, succeeds, capacity, maxSessions).registry;
            && (u in after.windows ==> u in r.windows)
            && after.WindowOf(u) == (if u in after.windows then r.WindowOf(u) else NewWindow())
  {
    var s := w.session;
    var drained := r.With(s, r.WindowOf(s).Drained(w.acked));
    TouchKeeps(drained, s, maxSessions);
    TouchKeeps(Touched(drained, s, maxSessions), s, maxSessions);
  }
}
