/** The server's memory of applied writes: a window per session that the client's own acknowledgements drain,
    that refuses new work when full, and that only the cap on sessions can make forget. */
module Dedup {
  import opened Options
  import opened Collections

  /** A write carries its session's sequence number, or - from a legacy client - only an opaque id. */
  datatype Ticket = Ticket(session: string, seqNo: Option<nat>, id: string)

  datatype Window = Window(seqs: set<nat>, lowWater: nat, legacy: seq<string>) {
    function Retained(): nat {
      |seqs| + |legacy|
    }

    predicate Seen(t: Ticket) {
      match t.seqNo
      case None => t.id in legacy
      case Some(n) => n <= lowWater || n in seqs
    }

    function Marked(t: Ticket, capacity: nat): Window {
      match t.seqNo
      case None =>
        if t.id in legacy then this
        else
          var ids := legacy + [t.id];
          this.(legacy := if |ids| > capacity then ids[1..] else ids)
      case Some(n) => if n > lowWater then this.(seqs := seqs + {n}) else this
    }

    function Drained(acked: nat): Window {
      if acked <= lowWater then this
      else Window((set n | n in seqs && (n <= lowWater || n > acked)), acked, legacy)
    }
  }

  function NewWindow(): Window {
    Window({}, 0, [])
  }

  /** The windows by session, and the sessions from the least to the most recently used. */
  datatype Registry = Registry(windows: map<string, Window>, order: seq<string>) {
    ghost predicate Valid() {
      (forall s :: s in windows <==> s in order) && Distinct(order)
    }

    function WindowOf(s: string): Window {
      if s in windows then windows[s] else NewWindow()
    }

    predicate Seen(t: Ticket) {
      t.session in windows && windows[t.session].Seen(t)
    }

    function With(s: string, w: Window): Registry {
      if s in windows then this.(windows := windows[s := w]) else this
    }
  }

  function Without(order: seq<string>, s: string): (r: seq<string>)
    ensures forall t :: t in r <==> t in order && t != s
    ensures |r| <= |order| && (s in order ==> |r| < |order|)
  {
    if order == [] then []
    else Without(order[..|order| - 1], s) + if order[|order| - 1] != s then [order[|order| - 1]] else []
  }

  /** Drop the least recently used sessions beyond the cap. */
  function Trim(r: Registry, maxSessions: nat): Registry
    decreases |r.order|
  {
    if |r.order| <= maxSessions then r
    else Trim(Registry(r.windows - {r.order[0]}, r.order[1..]), maxSessions)
  }

  /** Make s the most recently used session, with a new window if it has none. */
  function Touched(r: Registry, s: string, maxSessions: nat): Registry {
    if s in r.windows then Registry(r.windows, Without(r.order, s) + [s])
    else Trim(Registry(r.windows[s := NewWindow()], r.order + [s]), maxSessions)
  }

  lemma {:induction false} WithoutDistinct(order: seq<string>, s: string)
    requires Distinct(order)
    ensures Distinct(Without(order, s) + [s])
  {
    if order != [] {
      var n := |order| - 1;
      var front, last := Without(order[..n], s), order[n];
      WithoutDistinct(order[..n], s);
      assert forall i | 0 <= i < |front| :: (front + [s])[i] == front[i] && front[i] in front && front[i] in order[..n];
      assert forall i | 0 <= i < |front| :: front[i] != last && front[i] != s;
    }
  }

  /** Trimming keeps the newest sessions, with their windows as they are. */
  lemma {:induction false} TrimKeeps(r: Registry, maxSessions: nat)
    requires r.Valid() && maxSessions > 0
    ensures var t := Trim(r, maxSessions);
            && t.Valid() && |t.order| <= maxSessions
            && (forall s | s in t.windows :: s in r.windows && t.windows[s] == r.windows[s])
            && (|r.order| <= maxSessions ==> t == r)
            && (r.order != [] ==> t.order != [] && t.order[|t.order| - 1] == r.order[|r.order| - 1])
    decreases |r.order|
  {
    if |r.order| > maxSessions {
      var rest := Registry(r.windows - {r.order[0]}, r.order[1..]);
      assert forall i | 0 < i < |r.order| :: r.order[i] == rest.order[i - 1];
      TrimKeeps(rest, maxSessions);
    }
  }

  lemma TouchOld(r: Registry, s: string, maxSessions: nat)
    requires r.Valid() && s in r.windows
    ensures Touched(r, s, maxSessions).Valid() && Touched(r, s, maxSessions).windows == r.windows
    ensures |Touched(r, s, maxSessions).order| <= |r.order|
  {
    WithoutDistinct(r.order, s);
  }

  /** A new session comes last, so it is the newest when the oldest go. */
  lemma TouchNew(r: Registry, s: string, maxSessions: nat)
    requires r.Valid() && s !in r.windows && maxSessions > 0
    ensures var t := Touched(r, s, maxSessions);
            && t.Valid() && |t.order| <= maxSessions && s in t.windows
            && (forall u | u in t.windows :: (u == s || u in r.windows) && t.windows[u] == r.WindowOf(u))
            && (|r.order| < maxSessions ==> t.windows.Keys == r.windows.Keys + {s})
  {
    var added := Registry(r.windows[s := NewWindow()], r.order + [s]);
    assert added.order[|r.order|] == s;
    assert forall u | u in r.order :: u in added.order;
    TrimKeeps(added, maxSessions);
  }

  /** Touching s gives it a window and changes no other window; only an older session may go. */
  lemma TouchKeeps(r: Registry, s: string, maxSessions: nat)
    requires r.Valid() && maxSessions > 0 && |r.order| <= maxSessions
    ensures var t := Touched(r, s, maxSessions);
            && t.Valid() && |t.order| <= maxSessions && s in t.windows
            && (forall u | u in t.windows :: (u == s || u in r.windows) && t.windows[u] == r.WindowOf(u))
            && (s in r.windows || |r.order| < maxSessions ==> t.windows.Keys == r.windows.Keys + {s})
  {
    if s in r.windows {
      TouchOld(r, s, maxSessions);
    } else {
      TouchNew(r, s, maxSessions);
    }
  }

  // ------------------------------------------------------------ who is remembered --

  /** When s was last touched. */
  function LastTouch(touches: seq<string>, s: string): int {
    if touches == [] then -1
    else if touches[|touches| - 1] == s then |touches| - 1
    else LastTouch(touches[..|touches| - 1], s)
  }

  /** The sessions held are the ones touched last, as many as the cap allows, in the order of their last touch. */
  ghost predicate HoldsNewest(order: seq<string>, touches: seq<string>, maxSessions: nat) {
    && |order| <= maxSessions
    && (forall s | s in order :: s in touches)
    && (forall i, j | 0 <= i < j < |order| :: LastTouch(touches, order[i]) < LastTouch(touches, order[j]))
    && (forall s, u | s in touches && s !in order && u in order :: LastTouch(touches, s) < LastTouch(touches, u))
    && (forall s | s in touches && s !in order :: |order| == maxSessions)
  }

  lemma {:induction false} LastTouchIs(touches: seq<string>, s: string)
    ensures -1 <= LastTouch(touches, s) < |touches|
    ensures s in touches <==> LastTouch(touches, s) >= 0
  {
    if touches != [] {
      LastTouchIs(touches[..|touches| - 1], s);
      assert touches == touches[..|touches| - 1] + [touches[|touches| - 1]];
    }
  }

  lemma OneMoreTouch(touches: seq<string>, s: string, u: string)
    ensures LastTouch(touches + [s], u) == if u == s then |touches| else LastTouch(touches, u)
    ensures LastTouch(touches, u) < |touches|
    ensures u in touches + [s] <==> u == s || u in touches
  {
    assert (touches + [s])[..|touches|] == touches;
    LastTouchIs(touches, u);
  }

  lemma {:induction false} WithoutKeepsOrder(order: seq<string>, s: string, touches: seq<string>)
    requires forall i, j | 0 <= i < j < |order| :: LastTouch(touches, order[i]) < LastTouch(touches, order[j])
    ensures var r := Without(order, s);
            forall i, j | 0 <= i < j < |r| :: LastTouch(touches, r[i]) < LastTouch(touches, r[j])
    ensures |Without(order, s)| == |order| - if s in order then 1 else 0
  {
    if order != [] {
      var n := |order| - 1;
      WithoutKeepsOrder(order[..n], s, touches);
      assert order == order[..n] + [order[n]];
      var front := Without(order[..n], s);
      forall i | 0 <= i < |front| ensures LastTouch(touches, front[i]) < LastTouch(touches, order[n]) {
        assert front[i] in front && front[i] in order[..n];
      }
      assert s == order[n] ==> s !in order[..n];
    }
  }

  /** A list in the order of last touch, with s moved or added to its end. */
  lemma MovedToEnd(order: seq<string>, s: string, touches: seq<string>)
    requires s !in order
    requires forall i, j | 0 <= i < j < |order| :: LastTouch(touches, order[i]) < LastTouch(touches, order[j])
    ensures var moved, later := order + [s], touches + [s];
            forall i, j | 0 <= i < j < |moved| :: LastTouch(later, moved[i]) < LastTouch(later, moved[j])
  {
    var moved, later := order + [s], touches + [s];
    forall i, j | 0 <= i < j < |moved| ensures LastTouch(later, moved[i]) < LastTouch(later, moved[j]) {
      OneMoreTouch(touches, s, moved[i]);
      OneMoreTouch(touches, s, moved[j]);
      assert order[i] in order;
    }
  }

  /** Whoever is not held was touched before all who are. */
  lemma OldestGoes(order: seq<string>, kept: seq<string>, s: string, touches: seq<string>, maxSessions: nat)
    requires HoldsNewest(order, touches, maxSessions) && s !in kept
    requires (forall u | u in kept :: u in order) && (forall i, j | 0 <= i < j < |kept| :: LastTouch(touches, kept[i]) < LastTouch(touches, kept[j]))
    requires forall u, v | u in order && u != s && u !in kept && v in kept :: LastTouch(touches, u) < LastTouch(touches, v)
    requires |kept| < maxSessions
    requires (exists u :: u in touches && u !in kept && u != s) ==> |kept| + 1 == maxSessions
    ensures HoldsNewest(kept + [s], touches + [s], maxSessions)
  {
    var held, later := kept + [s], touches + [s];
    MovedToEnd(kept, s, touches);
    forall u, v | u in later && u !in held && v in held ensures LastTouch(later, u) < LastTouch(later, v) {
      OneMoreTouch(touches, s, u);
      OneMoreTouch(touches, s, v);
      assert v == s || v in kept;
    }
    forall u | u in held ensures u in later {
      OneMoreTouch(touches, s, u);
    }
    forall u | u in later && u !in held ensures |held| == maxSessions {
      OneMoreTouch(touches, s, u);
    }
  }

  lemma {:induction false} TrimOrder(r: Registry, maxSessions: nat)
    ensures Trim(r, maxSessions).order == if |r.order| <= maxSessions then r.order else r.order[|r.order| - maxSessions..]
    decreases |r.order|
  {
    if |r.order| > maxSessions {
      TrimOrder(Registry(r.windows - {r.order[0]}, r.order[1..]), maxSessions);
    }
  }

  lemma OldTouchHoldsNewest(order: seq<string>, s: string, touches: seq<string>, maxSessions: nat)
    requires s in order && HoldsNewest(order, touches, maxSessions)
    ensures HoldsNewest(Without(order, s) + [s], touches + [s], maxSessions)
  {
    WithoutKeepsOrder(order, s, touches);
    OldestGoes(order, Without(order, s), s, touches, maxSessions);
  }

  lemma NewTouchHoldsNewest(order: seq<string>, s: string, touches: seq<string>, maxSessions: nat)
    requires s !in order && maxSessions > 0 && HoldsNewest(order, touches, maxSessions)
    ensures HoldsNewest((if |order| < maxSessions then order else order[1..]) + [s], touches + [s], maxSessions)
  {
    if |order| < maxSessions {
      OldestGoes(order, order, s, touches, maxSessions);
    } else {
      var kept := order[1..];
      assert order == [order[0]] + kept;
      forall i, j | 0 <= i < j < |kept| ensures LastTouch(touches, kept[i]) < LastTouch(touches, kept[j]) {
        assert kept[i] == order[i + 1] && kept[j] == order[j + 1];
      }
      forall u, v | u in order && u !in kept && v in kept ensures LastTouch(touches, u) < LastTouch(touches, v) {
        var j :| 0 <= j < |kept| && kept[j] == v;
        assert u == order[0] && v == order[j + 1];
      }
      OldestGoes(order, kept, s, touches, maxSessions);
    }
  }

  /** A touch keeps it so. */
  lemma TouchHoldsNewest(r: Registry, s: string, touches: seq<string>, maxSessions: nat)
    requires r.Valid() && maxSessions > 0 && HoldsNewest(r.order, touches, maxSessions)
    ensures HoldsNewest(Touched(r, s, maxSessions).order, touches + [s], maxSessions)
  {
    assert |r.order| <= maxSessions;
    hide HoldsNewest;
    if s in r.windows {
      OldTouchHoldsNewest(r.order, s, touches, maxSessions);
    } else {
      TrimOrder(Registry(r.windows[s := NewWindow()], r.order + [s]), maxSessions);
      NewTouchHoldsNewest(r.order, s, touches, maxSessions);
      if |r.order| == maxSessions {
        assert (r.order + [s])[1..] == r.order[1..] + [s];
      }
    }
  }

  datatype Admission = Admitted | WindowFull

  class DedupRegistry {
    const capacity: nat
    const maxSessions: nat
    var windows: map<string, Window>
    var order: seq<string>
    /** The sessions that were touched, in order. */
    ghost var touches: seq<string>

    ghost predicate Valid()
      reads this
    {
      capacity > 0 && maxSessions > 0 && Value().Valid() && HoldsNewest(order, touches, maxSessions)
    }

    function Value(): Registry
      reads this
    {
      Registry(windows, order)
    }

    constructor (capacity: nat, maxSessions: nat)
      ensures Valid() && Value() == Registry(map[], []) && touches == []
      ensures this.capacity == (if capacity > 0 then capacity else 1)
      ensures this.maxSessions == (if maxSessions > 0 then maxSessions else 1)
    {
      this.capacity := if capacity > 0 then capacity else 1;
      this.maxSessions := if maxSessions > 0 then maxSessions else 1;
      windows, order, touches := map[], [], [];
    }

    method Touch(s: string)
      requires Valid()
      modifies this
      ensures Valid() && Value() == Touched(old(Value()), s, maxSessions) && s in windows
      ensures touches == old(touches) + [s]
    {
      ghost var touched := Touched(Value(), s, maxSessions);
      TouchKeeps(Value(), s, maxSessions);
      TouchHoldsNewest(Value(), s, touches, maxSessions);
      hide HoldsNewest, Registry.Valid;
      touches := touches + [s];
      if s in windows {
        order := Without(order, s) + [s];
        assert Value() == touched;
        return;
      }
      windows, order := windows[s := NewWindow()], order + [s];
      while |order| > maxSessions
        invariant Trim(Value(), maxSessions) == touched && touches == old(touches) + [s]
        decreases |order|
      {
        windows, order := windows - {order[0]}, order[1..];
      }
      assert Value() == touched;
    }

    /** Already applied - or resolved, as far as the client is concerned: never to run again. */
    method Seen(t: Ticket) returns (seen: bool)
      ensures seen == Value().Seen(t)
    {
      seen := t.session in windows && windows[t.session].Seen(t);
    }

    /** Claim space for a write about to be applied; a full window refuses it, and forgets nothing. */
    method Admit(t: Ticket) returns (a: Admission)
      requires Valid()
      modifies this
      ensures Valid() && Value() == Touched(old(Value()), t.session, maxSessions)
      ensures touches == old(touches) + [t.session]
      ensures a == WindowFull <==> t.seqNo.Some? && Value().WindowOf(t.session).Retained() >= capacity
    {
      Touch(t.session);
      a := if t.seqNo.None? || windows[t.session].Retained() < capacity then Admitted else WindowFull;
    }

    /** Record a write that has been applied. A legacy window forgets its oldest id past the capacity. */
    method Mark(t: Ticket)
      requires Valid()
      modifies this
      ensures Valid() && touches == old(touches) + [t.session]
      ensures var r := Touched(old(Value()), t.session, maxSessions);
              t.session in r.windows && Value() == r.With(t.session, r.windows[t.session].Marked(t, capacity))
    {
      Touch(t.session);
      windows := windows[t.session := windows[t.session].Marked(t, capacity)];
    }

    /** Forget what the client has resolved, walking only the newly acknowledged span. */
    method Drain(s: string, acked: nat)
      requires Valid()
      modifies this
      ensures Valid() && Value() == old(Value()).With(s, old(Value()).WindowOf(s).Drained(acked))
      ensures touches == old(touches)
    {
      if s !in windows {
        return;
      }
      var w := windows[s];
      if acked <= w.lowWater {
        assert windows[s := w] == windows;
        return;
      }
      var seqs := w.seqs;
      for n := w.lowWater + 1 to acked + 1
        invariant seqs == set k | k in w.seqs && (k <= w.lowWater || k >= n)
      {
        seqs := seqs - {n};
      }
      assert Window(seqs, acked, w.legacy) == w.Drained(acked);
      windows := windows[s := Window(seqs, acked, w.legacy)];
    }

    method Size(s: string) returns (n: nat)
      ensures n == Value().WindowOf(s).Retained()
    {
      n := if s in windows then windows[s].Retained() else 0;
    }
  }
}
