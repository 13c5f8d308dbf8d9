/** What a session's window remembers after any history, told from the history alone. */
module WindowHistory {
  import opened Options
  import opened Dedup

  /** A legacy id is marked, a numbered write is marked, or the client acknowledges all up to a number. */
  datatype Op = Legacy(id: string) | Numbered(n: nat) | Ack(upTo: nat)

  function Apply(w: Window, op: Op, capacity: nat): Window {
    match op
    case Legacy(id) => w.Marked(Ticket("", None, id), capacity)
    case Numbered(n) => w.Marked(Ticket("", Some(n), ""), capacity)
    case Ack(upTo) => w.Drained(upTo)
  }

  function After(ops: seq<Op>, capacity: nat): Window {
    if ops == [] then NewWindow() else Apply(After(ops[..|ops| - 1], capacity), ops[|ops| - 1], capacity)
  }

  ghost predicate Remembers(ops: seq<Op>, capacity: nat, t: Ticket) {
    After(ops, capacity).Seen(t)
  }

  // ---------------------------------------------------------------- numbered writes --

  /** The client acknowledged number n, or one beyond it. */
  ghost predicate Acked(ops: seq<Op>, n: nat) {
    exists a: nat | n <= a :: Ack(a) in ops
  }

  lemma AckedStep(ops: seq<Op>, op: Op, n: nat)
    ensures Acked(ops + [op], n) <==> Acked(ops, n) || (op.Ack? && n <= op.upTo)
    ensures Numbered(n) in ops + [op] <==> Numbered(n) in ops || op == Numbered(n)
  {
    if op.Ack? && n <= op.upTo {
      assert Ack(op.upTo) in ops + [op];
    }
    if a: nat :| n <= a && Ack(a) in ops {
      assert Ack(a) in ops + [op];
    }
  }

  lemma {:induction false} NumbersHeld(ops: seq<Op>, capacity: nat, n: nat)
    ensures n <= After(ops, capacity).lowWater <==> n == 0 || Acked(ops, n)
    ensures n in After(ops, capacity).seqs <==> Numbered(n) in ops && n > After(ops, capacity).lowWater
  {
    if ops != [] {
      var m := |ops| - 1;
      NumbersHeld(ops[..m], capacity, n);
      assert ops == ops[..m] + [ops[m]];
      AckedStep(ops[..m], ops[m], n);
      hide Acked;
    }
  }

  /** A numbered write is seen exactly when it was marked or acknowledged. */
  lemma NumberSeenExactlyWhen(ops: seq<Op>, capacity: nat, s: string, n: nat, id: string)
    ensures Remembers(ops, capacity, Ticket(s, Some(n), id)) <==> n == 0 || Numbered(n) in ops || Acked(ops, n)
  {
    NumbersHeld(ops, capacity, n);
  }

  /** And it takes up room exactly from its mark to its acknowledgement. */
  lemma NumberHeldExactlyWhen(ops: seq<Op>, capacity: nat, n: nat)
    ensures n in After(ops, capacity).seqs <==> n > 0 && Numbered(n) in ops && !Acked(ops, n)
  {
    NumbersHeld(ops, capacity, n);
  }

  // -------------------------------------------------------------------- legacy ids --

  /** Operation p marks a legacy id that was not remembered. */
  ghost predicate New(ops: seq<Op>, capacity: nat, p: nat)
    requires p < |ops|
  {
    ops[p].Legacy? && !Remembers(ops[..p], capacity, Ticket("", None, ops[p].id))
  }

  /** How many ids were new from operation p on. */
  ghost function NewFrom(ops: seq<Op>, capacity: nat, p: nat): nat
    requires p <= |ops|
    decreases |ops| - p
  {
    if p == |ops| then 0 else (if New(ops, capacity, p) then 1 else 0) + NewFrom(ops, capacity, p + 1)
  }

  /** Id k of the window, counted from the newest, was new when k others have been since. */
  ghost predicate Entered(ops: seq<Op>, capacity: nat, id: string, k: nat, p: nat) {
    p < |ops| && ops[p] == Legacy(id) && New(ops, capacity, p) && NewFrom(ops, capacity, p + 1) == k
  }

  ghost predicate HasEntered(ops: seq<Op>, capacity: nat, id: string, k: nat) {
    exists p: nat :: Entered(ops, capacity, id, k, p)
  }

  function FromNewest(ids: seq<string>, k: nat): string
    requires k < |ids|
  {
    ids[|ids| - 1 - k]
  }

  ghost predicate Queued(ops: seq<Op>, capacity: nat) {
    var ids := After(ops, capacity).legacy;
    && |ids| == (if NewFrom(ops, capacity, 0) < capacity then NewFrom(ops, capacity, 0) else capacity)
    && forall k: nat | k < |ids| :: HasEntered(ops, capacity, FromNewest(ids, k), k)
  }

  lemma {:induction false} NewGrows(ops: seq<Op>, op: Op, capacity: nat, p: nat)
    requires p <= |ops|
    ensures NewFrom(ops + [op], capacity, p) == NewFrom(ops, capacity, p) + if New(ops + [op], capacity, |ops|) then 1 else 0
    decreases |ops| - p
  {
    if p < |ops| {
      NewGrows(ops, op, capacity, p + 1);
      assert (ops + [op])[..p] == ops[..p];
    } else {
      assert NewFrom(ops + [op], capacity, |ops| + 1) == 0;
    }
  }

  lemma NewSame(ops: seq<Op>, op: Op, capacity: nat, p: nat)
    requires p < |ops|
    ensures New(ops + [op], capacity, p) == New(ops, capacity, p)
  {
    assert (ops + [op])[..p] == ops[..p];
  }

  lemma EnteredLater(ops: seq<Op>, op: Op, capacity: nat, id: string, k: nat, p: nat)
    requires Entered(ops, capacity, id, k, p)
    ensures Entered(ops + [op], capacity, id, if New(ops + [op], capacity, |ops|) then k + 1 else k, p)
  {
    NewSame(ops, op, capacity, p);
    NewGrows(ops, op, capacity, p + 1);
  }

  lemma LegacyStep(ops: seq<Op>, op: Op, capacity: nat)
    ensures var was, now := After(ops, capacity).legacy, After(ops + [op], capacity).legacy;
            now == if !New(ops + [op], capacity, |ops|) then was
                   else if |was| < capacity then was + [op.id]
                   else (was + [op.id])[1..]
  {
    assert (ops + [op])[..|ops|] == ops;
  }

  lemma NewestEntered(ops: seq<Op>, op: Op, capacity: nat)
    requires New(ops + [op], capacity, |ops|)
    ensures op == Legacy(op.id) && HasEntered(ops + [op], capacity, op.id, 0)
  {
    var more := ops + [op];
    assert more[|ops|] == op;
    NewIsLegacy(more, capacity, |ops|);
    hide New;
    assert NewFrom(more, capacity, |ops| + 1) == 0;
    assert Entered(more, capacity, op.id, 0, |ops|);
  }

  lemma HasEnteredLater(ops: seq<Op>, op: Op, capacity: nat, id: string, k: nat)
    requires HasEntered(ops, capacity, id, k)
    ensures HasEntered(ops + [op], capacity, id, if New(ops + [op], capacity, |ops|) then k + 1 else k)
  {
    hide New, NewFrom;
    var p: nat :| Entered(ops, capacity, id, k, p);
    EnteredLater(ops, op, capacity, id, k, p);
  }

  lemma QueueStepAt(ops: seq<Op>, op: Op, capacity: nat, k: nat)
    requires capacity > 0 && Queued(ops, capacity) && k < |After(ops + [op], capacity).legacy|
    ensures HasEntered(ops + [op], capacity, FromNewest(After(ops + [op], capacity).legacy, k), k)
  {
    hide After, New, HasEntered, NewFrom;
    var was, now := After(ops, capacity).legacy, After(ops + [op], capacity).legacy;
    LegacyStep(ops, op, capacity);
    var entered := New(ops + [op], capacity, |ops|);
    if entered && k == 0 {
      NewestEntered(ops, op, capacity);
      assert FromNewest(now, 0) == op.id;
    } else {
      var j: nat := if entered then k - 1 else k;
      assert j < |was| && FromNewest(now, k) == FromNewest(was, j);
      HasEnteredLater(ops, op, capacity, FromNewest(was, j), j);
    }
  }

  lemma NewIsLegacy(ops: seq<Op>, capacity: nat, p: nat)
    requires p < |ops| && New(ops, capacity, p)
    ensures ops[p] == Legacy(ops[p].id)
  {
  }

  lemma QueueStep(ops: seq<Op>, op: Op, capacity: nat)
    requires capacity > 0 && Queued(ops, capacity)
    ensures Queued(ops + [op], capacity)
  {
    NewGrows(ops, op, capacity, 0);
    LegacyStep(ops, op, capacity);
    hide After, New, NewFrom, HasEntered;
    forall k: nat | k < |After(ops + [op], capacity).legacy|
      ensures HasEntered(ops + [op], capacity, FromNewest(After(ops + [op], capacity).legacy, k), k)
    {
      QueueStepAt(ops, op, capacity, k);
    }
  }

  lemma {:induction false} WindowIsQueue(ops: seq<Op>, capacity: nat)
    requires capacity > 0
    ensures Queued(ops, capacity)
  {
    if ops != [] {
      var m := |ops| - 1;
      WindowIsQueue(ops[..m], capacity);
      assert ops == ops[..m] + [ops[m]];
      QueueStep(ops[..m], ops[m], capacity);
    }
  }

  lemma {:induction false} NewApart(ops: seq<Op>, capacity: nat, p: nat, q: nat)
    requires p <= q <= |ops|
    ensures NewFrom(ops, capacity, p) >= NewFrom(ops, capacity, q)
    decreases q - p
  {
    if p < q {
      NewApart(ops, capacity, p + 1, q);
    }
  }

  lemma NewSince(ops: seq<Op>, capacity: nat, p: nat, q: nat)
    requires p < q < |ops| && New(ops, capacity, q)
    ensures NewFrom(ops, capacity, p + 1) > NewFrom(ops, capacity, q + 1)
  {
    NewApart(ops, capacity, p + 1, q);
  }

  /** Only one operation was new with k new ones since. */
  lemma OneEntered(ops: seq<Op>, capacity: nat, p: nat, q: nat)
    requires p < |ops| && q < |ops| && New(ops, capacity, p) && New(ops, capacity, q)
    requires NewFrom(ops, capacity, p + 1) == NewFrom(ops, capacity, q + 1)
    ensures p == q
  {
    hide New, NewFrom;
    if p < q {
      NewSince(ops, capacity, p, q);
    } else if q < p {
      NewSince(ops, capacity, q, p);
    }
  }

  /** The id was new some time, and fewer than capacity others have been since. */
  ghost predicate Recent(ops: seq<Op>, capacity: nat, id: string) {
    exists p: nat | p < |ops| && ops[p] == Legacy(id) :: New(ops, capacity, p) && NewFrom(ops, capacity, p + 1) < capacity
  }

  lemma HeldIsRecent(ops: seq<Op>, capacity: nat, id: string)
    requires Queued(ops, capacity) && id in After(ops, capacity).legacy
    ensures Recent(ops, capacity, id)
  {
    hide After, New, NewFrom;
    var ids := After(ops, capacity).legacy;
    var i :| 0 <= i < |ids| && ids[i] == id;
    var k := |ids| - 1 - i;
    assert HasEntered(ops, capacity, FromNewest(ids, k), k);
    var p: nat :| Entered(ops, capacity, id, k, p);
  }

  lemma RecentIsHeld(ops: seq<Op>, capacity: nat, id: string, p: nat)
    requires Queued(ops, capacity) && p < |ops| && ops[p] == Legacy(id)
    requires New(ops, capacity, p) && NewFrom(ops, capacity, p + 1) < capacity
    ensures id in After(ops, capacity).legacy
  {
    var ids, k := After(ops, capacity).legacy, NewFrom(ops, capacity, p + 1);
    NewApart(ops, capacity, 0, p);
    assert NewFrom(ops, capacity, p) == k + 1;
    hide After, New, NewFrom;
    assert HasEntered(ops, capacity, FromNewest(ids, k), k);
    var q: nat :| Entered(ops, capacity, FromNewest(ids, k), k, q);
    OneEntered(ops, capacity, p, q);
  }

  /** A legacy id is seen exactly while fewer than capacity new ids have been marked since it was new. */
  lemma LegacySeenExactlyWhen(ops: seq<Op>, capacity: nat, s: string, id: string)
    requires capacity > 0
    ensures Remembers(ops, capacity, Ticket(s, None, id)) <==> Recent(ops, capacity, id)
  {
    WindowIsQueue(ops, capacity);
    hide After, New, NewFrom, Queued;
    if id in After(ops, capacity).legacy {
      HeldIsRecent(ops, capacity, id);
    }
    if p: nat :| p < |ops| && ops[p] == Legacy(id) && New(ops, capacity, p) && NewFrom(ops, capacity, p + 1) < capacity {
      RecentIsHeld(ops, capacity, id, p);
    }
  }
}
