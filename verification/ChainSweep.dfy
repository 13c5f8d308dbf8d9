/** The engine's own chain counter: a forward sweep of way counts over slots handed out the first
    time a vertex is reached, with the last position answered as a weighted sum of degrees, read
    from whichever end of the chain is cheaper. */
module ChainSweep {
  import opened Options
  import opened Vectors
  import opened Multigraph
  import opened Adjacency

  // ---------------------------------------------------- what may be skipped --

  ghost predicate Wellformed(g: Graph, f: Filter) {
    f.Some? ==> forall v :: v in f.value ==> v < g.order
  }

  /** A label whose bucket is as large as the graph constrains nothing, and is dropped. */
  function Effective(g: Graph, labels: Filter): Filter {
    if labels.Some? && |labels.value| == g.order then None else labels
  }

  lemma {:induction false} FullBucket(s: set<nat>, n: nat, v: nat)
    requires forall x :: x in s ==> x < n
    requires v < n && v !in s
    ensures |s| < n
  {
    if n - 1 in s {
      FullBucket(s - {n - 1}, n - 1, v);
    } else if v < n - 1 {
      FullBucket(s, n - 1, v);
    } else {
      BucketSize(s, n - 1);
    }
  }

  lemma {:induction false} BucketSize(s: set<nat>, n: nat)
    requires forall x :: x in s ==> x < n
    ensures |s| <= n
  {
    if n == 0 {
      assert s == {};
    } else {
      BucketSize(s - {n - 1}, n - 1);
    }
  }

  /** Dropping a full label changes no test. */
  lemma EffectiveKeeps(g: Graph, labels: Filter, v: nat)
    requires Wellformed(g, labels) && v < g.order
    ensures Passes(Effective(g, labels), v) == Passes(labels, v)
  {
    if labels.Some? && v !in labels.value {
      FullBucket(labels.value, g.order, v);
    }
  }

  /** Does the graph hold a self-loop of one of the types? */
  predicate LoopsOfTypes(g: Graph, types: Option<set<string>>) {
    exists i | 0 <= i < |g.edges| :: g.edges[i].IsLoop() && TypeAdmits(types, g.edges[i])
  }

  /** rem is held without its first i carriers: from lists distinct vertices, and all of held is on
      them. */
  ghost predicate Rest(held: seq<nat>, rem: seq<nat>, from: seq<nat>, i: nat) {
    && |rem| == |held| && i <= |from|
    && (forall j, k :: 0 <= j < k < |from| ==> from[j] != from[k])
    && (forall k :: i <= k < |from| ==> from[k] < |held| && rem[from[k]] == held[from[k]])
    && (forall v :: 0 <= v < |held| && rem[v] != 0 ==> exists k :: i <= k < |from| && from[k] == v)
  }

  lemma RestNext(held: seq<nat>, rem: seq<nat>, from: seq<nat>, i: nat)
    requires Rest(held, rem, from, i) && i < |from|
    ensures Rest(held, rem[from[i] := 0], from, i + 1)
  {
  }

  /** Distinct slots of distinct vertices stand for all of held when every carrier has its slot among them. */
  lemma SlotsCarryAll(held: seq<nat>, ids: seq<nat>, slots: seq<nat>, from: seq<nat>)
    requires |from| == |slots|
    requires forall i :: 0 <= i < |slots| ==> slots[i] < |ids| && from[i] == ids[slots[i]] < |held|
    requires forall i, j :: 0 <= i < j < |slots| ==> slots[i] != slots[j]
    requires forall s, t :: 0 <= s < t < |ids| ==> ids[s] != ids[t]
    requires forall v :: 0 <= v < |held| && held[v] != 0 ==> exists s: nat :: s in slots && s < |ids| && ids[s] == v
    ensures Rest(held, held, from, 0)
  {
    forall v | 0 <= v < |held| && held[v] != 0 ensures exists k :: 0 <= k < |from| && from[k] == v {
      var s: nat :| s in slots && s < |ids| && ids[s] == v;
      var k :| 0 <= k < |slots| && slots[k] == s;
      assert from[k] == v;
    }
    forall j, k | 0 <= j < k < |from| ensures from[j] != from[k] {
      assert slots[j] < slots[k] || slots[k] < slots[j];
    }
  }

  // --------------------------------------------------- when passes are remembered --

  /** A leg in one direction, whose far ends nothing can turn away. */
  ghost predicate Free(g: Graph, leg: Leg, types: Option<set<string>>, out: bool) {
    && leg.dir == (if out then Out else In) && leg.types == types
    && leg.node.gate == None && Effective(g, leg.node.labels) == None && Wellformed(g, leg.node.labels)
  }

  /** Every edge of the types is crossed. */
  lemma FreeUses(g: Graph, leg: Leg, types: Option<set<string>>, out: bool, e: Edge)
    requires g.Valid() && Free(g, leg, types, out) && e in g.edges && TypeAdmits(types, e)
    ensures leg.Uses(out, e)
  {
    EffectiveKeeps(g, leg.node.labels, Beyond(out, e));
  }

  lemma ShareNext(g: Graph, leg: Leg, types: Option<set<string>>, out: bool, w: nat, v: nat, j: nat, u: nat)
    requires g.Valid() && Free(g, leg, types, out) && j < |Adjacent(g, types, out, v)|
    ensures var adj := Adjacent(g, types, out, v);
            Share(g, leg, out, w, adj[..j + 1], u)
            == Share(g, leg, out, w, adj[..j], u) + if Beyond(out, g.edges[adj[j]]) == u then w else 0
  {
    var adj := Adjacent(g, types, out, v);
    assert adj[..j + 1][..j] == adj[..j];
    FreeUses(g, leg, types, out, g.edges[adj[j]]);
  }

  // ------------------------------------------------------------- the state --

  class SweepState {
    const g: Graph
    var slotOf: map<nat, nat>
    var idOf: seq<nat>
    var ways: array<nat>
    var next: array<nat>
    var frontier: seq<nat>
    var nextFrontier: seq<nat>
    /** The way counts the frontier stands for, as a vector over all vertices. */
    ghost var held: seq<nat>

    ghost predicate Interned()
      reads this
    {
      && (forall s :: 0 <= s < |idOf| ==> idOf[s] < g.order && idOf[s] in slotOf && slotOf[idOf[s]] == s)
      && (forall v :: v in slotOf ==> slotOf[v] < |idOf| && idOf[slotOf[v]] == v)
    }

    ghost predicate Holds()
      reads this, ways
    {
      && |held| == g.order && |idOf| <= ways.Length
      && (forall i :: 0 <= i < |frontier| ==> frontier[i] < |idOf|)
      && (forall i, j :: 0 <= i < j < |frontier| ==> frontier[i] != frontier[j])
      && (forall s :: s in frontier ==> s < |idOf| && idOf[s] < g.order && ways[s] != 0 && held[idOf[s]] == ways[s])
      && (forall v :: 0 <= v < g.order && held[v] != 0 ==> v in slotOf && slotOf[v] in frontier)
    }

    ghost predicate Collects()
      reads this, next
    {
      && |idOf| <= next.Length
      && (forall i :: 0 <= i < |nextFrontier| ==> nextFrontier[i] < |idOf|)
      && (forall i, j :: 0 <= i < j < |nextFrontier| ==> nextFrontier[i] != nextFrontier[j])
      && (forall s :: 0 <= s < next.Length ==> (next[s] != 0 <==> s in nextFrontier))
    }

    ghost predicate Valid()
      reads this, ways, next
    {
      g.Valid() && ways != next && 0 < ways.Length == next.Length && Interned() && Holds() && Collects()
    }

    /** What has arrived so far, as a vector over all vertices. */
    ghost function Landed(): (r: seq<nat>)
      reads this, next
      requires Interned() && |idOf| <= next.Length
      ensures |r| == g.order
      ensures forall v :: 0 <= v < g.order ==> r[v] == if v in slotOf then next[slotOf[v]] else 0
    {
      var slots, cells := slotOf, next[..];
      seq(g.order, v requires 0 <= v < g.order => if v in slots && slots[v] < |cells| then cells[slots[v]] else 0)
    }

    constructor (g: Graph)
      requires g.Valid()
      ensures Valid() && this.g == g && idOf == [] && frontier == [] && nextFrontier == []
      ensures fresh(ways) && fresh(next) && held == Zeros(g.order)
    {
      this.g := g;
      slotOf, idOf, frontier, nextFrontier := map[], [], [], [];
      ways := new nat[256](_ => 0);
      next := new nat[256](_ => 0);
      held := Zeros(g.order);
    }

    /** Doubles both arrays, keeping what they hold. */
    method Grow()
      requires Valid()
      modifies this`ways, this`next
      ensures Valid() && Landed() == old(Landed())
      ensures fresh(ways) && fresh(next) && ways.Length == 2 * old(ways.Length)
      ensures forall s :: 0 <= s < |idOf| ==> next[s] == old(next[s])
    {
      var n := ways.Length;
      var oldWays, oldNext := ways[..], next[..];
      var grownWays := new nat[2 * n](i requires 0 <= i => if i < |oldWays| then oldWays[i] else 0);
      var grownNext := new nat[2 * n](i requires 0 <= i => if i < |oldNext| then oldNext[i] else 0);
      ways, next := grownWays, grownNext;
    }

    /** Gives an unseen vertex the next slot. */
    method NewSlot(v: nat)
      requires Valid() && v < g.order && v !in slotOf && |idOf| < ways.Length
      modifies this`slotOf, this`idOf
      ensures Valid() && Landed() == old(Landed())
      ensures slotOf == old(slotOf)[v := old(|idOf|)] && idOf == old(idOf) + [v]
    {
      assert |idOf| !in nextFrontier;
      slotOf, idOf := slotOf[v := |idOf|], idOf + [v];
      assert forall s :: s in frontier ==> idOf[s] == old(idOf)[s];
    }

    /** The slot of a vertex, handed out on first sight. */
    method Intern(v: nat) returns (slot: nat)
      requires Valid() && v < g.order
      modifies this`slotOf, this`idOf, this`ways, this`next
      ensures Valid() && Landed() == old(Landed())
      ensures slotOf.Keys == old(slotOf.Keys) + {v} && slotOf[v] == slot && old(idOf) <= idOf
      ensures forall s :: 0 <= s < |idOf| && next[s] != 0 ==> s < old(|idOf|)
      ensures (ways == old(ways) && next == old(next)) || (fresh(ways) && fresh(next))
    {
      if v in slotOf {
        return slotOf[v];
      }
      slot := |idOf|;
      if slot >= ways.Length {
        Grow();
      }
      NewSlot(v);
    }

    ghost predicate Gated(leg: Leg)
      reads this, next
    {
      forall s :: 0 <= s < |idOf| && s < next.Length && next[s] != 0 ==> Passes(leg.node.gate, idOf[s])
    }

    /** Adds w to a slot, which joins the next frontier when it leaves zero. */
    method Deposit(slot: nat, w: nat)
      requires Valid() && slot < |idOf| && w > 0
      modifies this`nextFrontier, next
      ensures Valid() && next[slot] == old(next[slot]) + w
      ensures forall s :: 0 <= s < next.Length && s != slot ==> next[s] == old(next[s])
      ensures forall u | 0 <= u < g.order :: Landed()[u] == old(Landed())[u] + if u == idOf[slot] then w else 0
    {
      if next[slot] == 0 {
        nextFrontier := nextFrontier + [slot];
      }
      next[slot] := next[slot] + w;
    }

    /** w ways reach a vertex.  The gate is consulted only when its slot would leave zero. */
    method Arrive(leg: Leg, farId: nat, w: nat)
      requires Valid() && Gated(leg) && w > 0 && farId < g.order
      modifies this`slotOf, this`idOf, this`ways, this`next, this`nextFrontier, next
      ensures Valid() && Gated(leg) && old(idOf) <= idOf
      ensures (ways == old(ways) && next == old(next)) || (fresh(ways) && fresh(next))
      ensures forall u | 0 <= u < g.order ::
                Landed()[u] == old(Landed())[u] + if u == farId && Passes(leg.node.gate, u) then w else 0
    {
      hide Passes, Holds;
      var to := Intern(farId);
      assert idOf[to] == farId && Gated(leg);
      if next[to] == 0 && !Passes(leg.node.gate, farId) {
        return;
      }
      assert Passes(leg.node.gate, farId);
      Deposit(to, w);
    }

    /** One edge of one frontier slot. */
    method SendOver(leg: Leg, far: Filter, out: bool, skipLoops: bool, e: Edge, w: nat)
      requires Valid() && Gated(leg) && w > 0 && e in g.edges && leg.Admits(e)
      requires far == Effective(g, leg.node.labels) && Wellformed(g, leg.node.labels)
      requires if out then leg.dir != In else leg.dir != Out
      requires skipLoops == (leg.dir == Both && !out && LoopsOfTypes(g, leg.types))
      modifies this`slotOf, this`idOf, this`ways, this`next, this`nextFrontier, next
      ensures Valid() && Gated(leg) && old(idOf) <= idOf
      ensures (ways == old(ways) && next == old(next)) || (fresh(ways) && fresh(next))
      ensures forall u | 0 <= u < g.order ::
                Landed()[u] == old(Landed())[u] + if leg.Uses(out, e) && Beyond(out, e) == u then w else 0
    {
      if skipLoops && e.IsLoop() {
        return;
      }
      var farId := Beyond(out, e);
      EffectiveKeeps(g, leg.node.labels, farId);
      if !Passes(far, farId) {
        return;
      }
      Arrive(leg, farId, w);
    }

    /** All edges of one frontier slot. */
    method SendSlot(leg: Leg, far: Filter, out: bool, skipLoops: bool, v: nat, w: nat)
      requires Valid() && Gated(leg) && w > 0
      requires far == Effective(g, leg.node.labels) && Wellformed(g, leg.node.labels)
      requires if out then leg.dir != In else leg.dir != Out
      requires skipLoops == (leg.dir == Both && !out && LoopsOfTypes(g, leg.types))
      modifies this`slotOf, this`idOf, this`ways, this`next, this`nextFrontier, next
      ensures Valid() && Gated(leg) && old(idOf) <= idOf
      ensures (ways == old(ways) && next == old(next)) || (fresh(ways) && fresh(next))
      ensures forall u | 0 <= u < g.order ::
                Landed()[u] == old(Landed())[u] + Share(g, leg, out, w, Adjacent(g, leg.types, out, v), u)
    {
      var adj := Adjacent(g, leg.types, out, v);
      for j := 0 to |adj|
        invariant Valid() && Gated(leg) && old(idOf) <= idOf
        invariant (ways == old(ways) && next == old(next)) || (fresh(ways) && fresh(next))
        invariant forall u | 0 <= u < g.order :: Landed()[u] == old(Landed())[u] + Share(g, leg, out, w, adj[..j], u)
      {
        assert adj[..j + 1][..j] == adj[..j];
        SendOver(leg, far, out, skipLoops, g.edges[adj[j]], w);
      }
      assert adj[..|adj|] == adj;
    }

    /** What landed since before, with what rem still owes, is what held owes. */
    ghost predicate Balanced(before: seq<nat>, leg: Leg, out: bool, rem: seq<nat>)
      reads this, next
      requires g.Valid() && Interned() && |idOf| <= next.Length && |before| == |rem| == |held| == g.order
    {
      forall u | 0 <= u < g.order ::
        Landed()[u] + PassInto(g, leg, out, rem, u, |g.edges|) == before[u] + PassInto(g, leg, out, held, u, |g.edges|)
    }

    /** The next frontier slot: what it sends is what the rest of the pass no longer owes. */
    method SendNext(leg: Leg, far: Filter, out: bool, skipLoops: bool, i: nat,
                    ghost from: seq<nat>, ghost before: seq<nat>, ghost rem: seq<nat>)
        returns (ghost rem': seq<nat>)
      requires Valid() && Gated(leg) && i < |frontier|
      requires far == Effective(g, leg.node.labels) && Wellformed(g, leg.node.labels)
      requires if out then leg.dir != In else leg.dir != Out
      requires skipLoops == (leg.dir == Both && !out && LoopsOfTypes(g, leg.types))
      requires |from| == |frontier| && from[i] == idOf[frontier[i]] && Rest(held, rem, from, i)
      requires |before| == g.order && Balanced(before, leg, out, rem)
      modifies this`slotOf, this`idOf, this`ways, this`next, this`nextFrontier, next
      ensures Valid() && Gated(leg) && old(idOf) <= idOf
      ensures (ways == old(ways) && next == old(next)) || (fresh(ways) && fresh(next))
      ensures Rest(held, rem', from, i + 1) && Balanced(before, leg, out, rem')
    {
      var v, w := idOf[frontier[i]], ways[frontier[i]];
      assert frontier[i] in frontier && w == rem[v];
      SendSlot(leg, far, out, skipLoops, v, w);
      forall u | 0 <= u < g.order
        ensures PassInto(g, leg, out, rem, u, |g.edges|)
                == PassInto(g, leg, out, rem[v := 0], u, |g.edges|) + Share(g, leg, out, w, Adjacent(g, leg.types, out, v), u)
      {
        PassTake(g, leg, out, rem, v, u);
      }
      rem' := rem[v := 0];
    }

    /** One direction of one leg: every frontier slot sends its way count over its edges. */
    method OneDirection(leg: Leg, far: Filter, out: bool)
      requires Valid() && Gated(leg)
      requires far == Effective(g, leg.node.labels) && Wellformed(g, leg.node.labels)
      requires if out then leg.dir != In else leg.dir != Out
      modifies this`slotOf, this`idOf, this`ways, this`next, this`nextFrontier, next
      ensures Valid() && Gated(leg) && old(idOf) <= idOf
      ensures (ways == old(ways) && next == old(next)) || (fresh(ways) && fresh(next))
      ensures forall u | 0 <= u < g.order ::
                Landed()[u] == old(Landed())[u] + PassInto(g, leg, out, held, u, |g.edges|)
    {
      var skipLoops := leg.dir == Both && !out && LoopsOfTypes(g, leg.types);
      ghost var from, before, rem := FrontierVertices(), Landed(), held;
      for i := 0 to |frontier|
        invariant Valid() && Gated(leg) && old(idOf) <= idOf
        invariant (ways == old(ways) && next == old(next)) || (fresh(ways) && fresh(next))
        invariant Rest(held, rem, from, i) && Balanced(before, leg, out, rem)
      {
        assert idOf[frontier[i]] == from[i];
        rem := SendNext(leg, far, out, skipLoops, i, from, before, rem);
      }
      forall u | 0 <= u < g.order ensures PassInto(g, leg, out, rem, u, |g.edges|) == 0 {
        PassOfZeros(g, leg, out, rem, u, |g.edges|);
      }
    }

    // ------------------------------------------------- remembered far slots --

    /** The far slots of these edges, in their order: parallel edges repeat a slot. */
    ghost predicate FarSlots(slots: seq<nat>, adj: seq<nat>, out: bool)
      reads this
      requires forall j :: 0 <= j < |adj| ==> adj[j] < |g.edges|
    {
      |slots| == |adj| && forall j | 0 <= j < |slots| :: slots[j] < |idOf| && idOf[slots[j]] == Beyond(out, g.edges[adj[j]])
    }

    /** What is remembered of a slot is right, for every leg of these types in this direction. */
    ghost predicate Remembers(known: map<nat, seq<nat>>, types: Option<set<string>>, out: bool)
      reads this
    {
      forall slot | slot in known :: slot < |idOf| && FarSlots(known[slot], Adjacent(g, types, out, idOf[slot]), out)
    }

    /** The slots known from an earlier pass. */
    method SendKnown(leg: Leg, types: Option<set<string>>, out: bool, slots: seq<nat>, ghost v: nat, w: nat)
      requires Valid() && w > 0 && Free(g, leg, types, out) && FarSlots(slots, Adjacent(g, types, out, v), out)
      modifies this`nextFrontier, next
      ensures Valid()
      ensures forall u | 0 <= u < g.order ::
                Landed()[u] == old(Landed())[u] + Share(g, leg, out, w, Adjacent(g, types, out, v), u)
    {
      ghost var adj := Adjacent(g, types, out, v);
      assert forall u :: Share(g, leg, out, w, adj[..0], u) == 0;
      hide Interned, Holds, Share, Free;
      for j := 0 to |slots|
        invariant Valid()
        invariant forall u | 0 <= u < g.order :: Landed()[u] == old(Landed())[u] + Share(g, leg, out, w, adj[..j], u)
      {
        forall u ensures Share(g, leg, out, w, adj[..j + 1], u)
                         == Share(g, leg, out, w, adj[..j], u) + if Beyond(out, g.edges[adj[j]]) == u then w else 0
        {
          ShareNext(g, leg, types, out, w, v, j, u);
        }
        Deposit(slots[j], w);
      }
      assert adj[..|adj|] == adj;
    }

    method Resolve(farId: nat, w: nat) returns (to: nat)
      requires Valid() && w > 0 && farId < g.order
      modifies this`slotOf, this`idOf, this`ways, this`next, this`nextFrontier, next
      ensures Valid() && old(idOf) <= idOf && to < |idOf| && idOf[to] == farId
      ensures (ways == old(ways) && next == old(next)) || (fresh(ways) && fresh(next))
      ensures forall u | 0 <= u < g.order :: Landed()[u] == old(Landed())[u] + if u == farId then w else 0
    {
      to := Intern(farId);
      assert idOf[to] == farId;
      Deposit(to, w);
    }

    /** One edge whose far slot is not known yet. */
    method ResolveNext(adj: seq<nat>, j: nat, out: bool, w: nat, slots: seq<nat>) returns (slots': seq<nat>)
      requires Valid() && w > 0 && j < |adj| && forall k :: 0 <= k < |adj| ==> adj[k] < |g.edges|
      requires FarSlots(slots, adj[..j], out)
      modifies this`slotOf, this`idOf, this`ways, this`next, this`nextFrontier, next
      ensures Valid() && old(idOf) <= idOf && FarSlots(slots', adj[..j + 1], out)
      ensures (ways == old(ways) && next == old(next)) || (fresh(ways) && fresh(next))
      ensures forall u | 0 <= u < g.order ::
                Landed()[u] == old(Landed())[u] + if u == Beyond(out, g.edges[adj[j]]) then w else 0
    {
      var to := Resolve(Beyond(out, g.edges[adj[j]]), w);
      slots' := slots + [to];
    }

    /** A slot's edges, with their far slots gathered on the way. */
    method SendResolving(leg: Leg, types: Option<set<string>>, out: bool, v: nat, w: nat) returns (slots: seq<nat>)
      requires Valid() && w > 0 && Free(g, leg, types, out)
      modifies this`slotOf, this`idOf, this`ways, this`next, this`nextFrontier, next
      ensures Valid() && old(idOf) <= idOf && FarSlots(slots, Adjacent(g, types, out, v), out)
      ensures (ways == old(ways) && next == old(next)) || (fresh(ways) && fresh(next))
      ensures forall u | 0 <= u < g.order ::
                Landed()[u] == old(Landed())[u] + Share(g, leg, out, w, Adjacent(g, types, out, v), u)
    {
      var adj := Adjacent(g, types, out, v);
      slots := [];
      for j := 0 to |adj|
        invariant Valid() && old(idOf) <= idOf && FarSlots(slots, adj[..j], out)
        invariant (ways == old(ways) && next == old(next)) || (fresh(ways) && fresh(next))
        invariant forall u | 0 <= u < g.order :: Landed()[u] == old(Landed())[u] + Share(g, leg, out, w, adj[..j], u)
      {
        forall u ensures Share(g, leg, out, w, adj[..j + 1], u)
                         == Share(g, leg, out, w, adj[..j], u) + if Beyond(out, g.edges[adj[j]]) == u then w else 0
        {
          ShareNext(g, leg, types, out, w, v, j, u);
        }
        slots := ResolveNext(adj, j, out, w, slots);
      }
      assert adj[..|adj|] == adj;
    }

    /** A frontier slot, from memory when it is known; else it is known from now on. */
    method SendRemembered(leg: Leg, types: Option<set<string>>, out: bool, slot: nat, w: nat, known: map<nat, seq<nat>>)
        returns (known': map<nat, seq<nat>>)
      requires Valid() && w > 0 && slot < |idOf| && Free(g, leg, types, out) && Remembers(known, types, out)
      modifies this`slotOf, this`idOf, this`ways, this`next, this`nextFrontier, next
      ensures Valid() && old(idOf) <= idOf && Remembers(known', types, out)
      ensures (ways == old(ways) && next == old(next)) || (fresh(ways) && fresh(next))
      ensures forall u | 0 <= u < g.order ::
                Landed()[u] == old(Landed())[u] + Share(g, leg, out, w, Adjacent(g, types, out, old(idOf[slot])), u)
    {
      hide Interned, Holds, Share, Free;
      if slot in known {
        SendKnown(leg, types, out, known[slot], idOf[slot], w);
        return known;
      }
      var slots := SendResolving(leg, types, out, idOf[slot], w);
      known' := known[slot := slots];
    }

    method RememberedNext(leg: Leg, types: Option<set<string>>, out: bool, i: nat, known: map<nat, seq<nat>>,
                          ghost from: seq<nat>, ghost before: seq<nat>, ghost rem: seq<nat>)
        returns (known': map<nat, seq<nat>>, ghost rem': seq<nat>)
      requires Valid() && i < |frontier| && Free(g, leg, types, out) && Remembers(known, types, out)
      requires |from| == |frontier| && from[i] == idOf[frontier[i]] && Rest(held, rem, from, i)
      requires |before| == g.order && Balanced(before, leg, out, rem)
      modifies this`slotOf, this`idOf, this`ways, this`next, this`nextFrontier, next
      ensures Valid() && old(idOf) <= idOf && Remembers(known', types, out)
      ensures (ways == old(ways) && next == old(next)) || (fresh(ways) && fresh(next))
      ensures Rest(held, rem', from, i + 1) && Balanced(before, leg, out, rem')
    {
      var slot := frontier[i];
      var v, w := idOf[slot], ways[slot];
      assert slot in frontier && w == rem[v];
      known' := SendRemembered(leg, types, out, slot, w, known);
      forall u | 0 <= u < g.order
        ensures PassInto(g, leg, out, rem, u, |g.edges|)
                == PassInto(g, leg, out, rem[v := 0], u, |g.edges|) + Share(g, leg, out, w, Adjacent(g, types, out, v), u)
      {
        PassTake(g, leg, out, rem, v, u);
      }
      rem' := rem[v := 0];
    }

    /** The same forward pass over a free leg, each slot's far slots resolved once for the whole chain: it lands what
        OneDirection lands. */
    method RememberedDirection(leg: Leg, types: Option<set<string>>, out: bool, known: map<nat, seq<nat>>)
        returns (known': map<nat, seq<nat>>)
      requires Valid() && Free(g, leg, types, out) && Remembers(known, types, out)
      modifies this`slotOf, this`idOf, this`ways, this`next, this`nextFrontier, next
      ensures Valid() && old(idOf) <= idOf && Remembers(known', types, out)
      ensures (ways == old(ways) && next == old(next)) || (fresh(ways) && fresh(next))
      ensures forall u | 0 <= u < g.order ::
                Landed()[u] == old(Landed())[u] + PassInto(g, leg, out, held, u, |g.edges|)
    {
      ghost var from, before, rem := FrontierVertices(), Landed(), held;
      known' := known;
      for i := 0 to |frontier|
        invariant Valid() && old(idOf) <= idOf && Remembers(known', types, out)
        invariant (ways == old(ways) && next == old(next)) || (fresh(ways) && fresh(next))
        invariant Rest(held, rem, from, i) && Balanced(before, leg, out, rem)
      {
        assert idOf[frontier[i]] == from[i];
        known', rem := RememberedNext(leg, types, out, i, known', from, before, rem);
      }
      forall u | 0 <= u < g.order ensures PassInto(g, leg, out, rem, u, |g.edges|) == 0 {
        PassOfZeros(g, leg, out, rem, u, |g.edges|);
      }
    }

    /** The vertices of the frontier, in its order: they are distinct, and carry all of held. */
    function FrontierVertices(): (r: seq<nat>)
      reads this, ways
      requires Interned() && Holds()
      ensures |r| == |frontier| && forall i :: 0 <= i < |r| ==> r[i] == idOf[frontier[i]]
      ensures Rest(held, held, r, 0)
    {
      var ids, slots := idOf, frontier;
      var r := seq(|slots|, i requires 0 <= i < |slots| => if slots[i] < |ids| then ids[slots[i]] else 0);
      assert forall v :: 0 <= v < g.order && held[v] != 0 ==> slotOf[v] in slots && ids[slotOf[v]] == v;
      SlotsCarryAll(held, ids, slots, r);
      r
    }

    /** One leg in each direction it takes: one pass, or two for an undirected leg. */
    method RunLeg(leg: Leg)
      requires Valid() && nextFrontier == [] && Wellformed(g, leg.node.labels)
      modifies this`slotOf, this`idOf, this`ways, this`next, this`nextFrontier, next
      ensures Valid() && Landed() == Push(g, leg, held)
      ensures next == old(next) || fresh(next)
    {
      ghost var before := Landed();
      var far := Effective(g, leg.node.labels);
      if leg.dir != In {
        OneDirection(leg, far, true);
      }
      if leg.dir != Out {
        OneDirection(leg, far, false);
      }
      forall u | 0 <= u < g.order ensures Landed()[u] == Push(g, leg, held)[u] {
        if leg.dir != Both {
          UnusedPass(g, leg, leg.dir == In, held, u, |g.edges|);
        }
      }
    }

    /** The same from memory. */
    method RunFreeLeg(leg: Leg, types: Option<set<string>>, out: bool, known: map<nat, seq<nat>>)
        returns (known': map<nat, seq<nat>>)
      requires Valid() && nextFrontier == [] && Free(g, leg, types, out) && Remembers(known, types, out)
      modifies this`slotOf, this`idOf, this`ways, this`next, this`nextFrontier, next
      ensures Valid() && Landed() == Push(g, leg, held) && Remembers(known', types, out)
      ensures next == old(next) || fresh(next)
    {
      known' := RememberedDirection(leg, types, out, known);
      forall u | 0 <= u < g.order ensures Landed()[u] == Push(g, leg, held)[u] {
        UnusedPass(g, leg, !out, held, u, |g.edges|);
      }
    }

    /** What landed becomes the frontier. */
    method CloseLeg()
      requires Valid()
      modifies this`held, this`ways, this`frontier, this`nextFrontier, this`next
      ensures Valid() && held == old(Landed()) && nextFrontier == [] && frontier == old(nextFrontier)
      ensures fresh(next) && ways == old(next)
    {
      held := Landed();
      ways, frontier := next, nextFrontier;
      nextFrontier := [];
      next := new nat[ways.Length](_ => 0);
    }

    /** One pass of the chain: the way counts move over one leg. */
    method Hop(leg: Leg)
      requires Valid() && nextFrontier == [] && Wellformed(g, leg.node.labels)
      modifies this, next
      ensures Valid() && nextFrontier == [] && held == Push(g, leg, old(held))
      ensures fresh(next) && (ways == old(next) || fresh(ways))
    {
      RunLeg(leg);
      CloseLeg();
    }

    method FreeHop(leg: Leg, types: Option<set<string>>, out: bool, known: map<nat, seq<nat>>)
        returns (known': map<nat, seq<nat>>)
      requires Valid() && nextFrontier == [] && Free(g, leg, types, out) && Remembers(known, types, out)
      modifies this, next
      ensures Valid() && nextFrontier == [] && held == Push(g, leg, old(held)) && Remembers(known', types, out)
      ensures fresh(next) && (ways == old(next) || fresh(ways))
    {
      hide Interned, Holds, Collects, Free;
      known' := RunFreeLeg(leg, types, out, known);
      CloseLeg();
    }

    /** The seed: one way to be at each start vertex.  The source may be an index's answer or a label
        bucket; it holds every vertex the start keeps, and is filtered again here. */
    method Seed(start: Node, source: seq<nat>)
      requires Valid() && idOf == [] && frontier == [] && nextFrontier == []
      requires held == Zeros(g.order)
      requires forall i, j :: 0 <= i < j < |source| ==> source[i] != source[j]
      requires forall v :: v in source ==> v < g.order
      requires forall v :: 0 <= v < g.order && start.Keeps(v) ==> v in source
      modifies this, ways
      ensures Valid() && nextFrontier == [] && held == Mask(start, Ones(g.order))
      ensures (ways == old(ways) && next == old(next)) || (fresh(ways) && fresh(next))
    {
      for i := 0 to |source|
        invariant Valid() && nextFrontier == []
        invariant (ways == old(ways) && next == old(next)) || (fresh(ways) && fresh(next))
        invariant forall v :: v in slotOf ==> v in source[..i]
        invariant forall v :: 0 <= v < g.order ==> held[v] == if v in source[..i] && start.Keeps(v) then 1 else 0
      {
        assert source[..i + 1] == source[..i] + [source[i]];
        assert source[i] in source;
        if start.Keeps(source[i]) {
          SeedOne(source[i]);
        }
      }
      assert source[..|source|] == source;
    }

    method SeedOne(v: nat)
      requires Valid() && v < g.order && v !in slotOf
      modifies this, ways
      ensures Valid() && nextFrontier == old(nextFrontier) && held == old(held)[v := 1] && slotOf.Keys == old(slotOf.Keys) + {v}
      ensures (ways == old(ways) && next == old(next)) || (fresh(ways) && fresh(next))
    {
      var slot := Intern(v);
      assert slot !in frontier;
      ways[slot] := 1;
      Enter(slot);
    }

    /** A slot whose way count has just been set to 1 joins the frontier. */
    method Enter(slot: nat)
      requires g.Valid() && ways != next && 0 < ways.Length == next.Length && Interned() && Holds() && Collects()
      requires slot < |idOf| && slot !in frontier && ways[slot] == 1
      modifies this`frontier, this`held
      ensures Valid() && held == old(held)[idOf[slot] := 1]
    {
      frontier := frontier + [slot];
      held := held[idOf[slot] := 1];
    }
  }

  // ------------------------------------------------------- the last degree --

  /** How many of the edges have a far end that carries the label. */
  function Fits(g: Graph, out: bool, labels: Filter, adj: seq<nat>): nat
    requires forall j :: 0 <= j < |adj| ==> adj[j] < |g.edges|
  {
    if adj == [] then 0
    else
      Fits(g, out, labels, adj[..|adj| - 1]) + if Passes(labels, Beyond(out, g.edges[adj[|adj| - 1]])) then 1 else 0
  }

  /** ... and how many of those are self-loops. */
  function LoopFits(g: Graph, labels: Filter, adj: seq<nat>): nat
    requires forall j :: 0 <= j < |adj| ==> adj[j] < |g.edges|
  {
    if adj == [] then 0
    else
      var e := g.edges[adj[|adj| - 1]];
      LoopFits(g, labels, adj[..|adj| - 1]) + if e.IsLoop() && Passes(labels, e.to) then 1 else 0
  }

  ghost predicate DegreeUpTo(g: Graph, leg: Leg, v: nat, k: nat)
    requires g.Valid() && v < g.order && k <= |g.edges|
  {
    var outs, ins := AdjacentVia(g, leg.types, true, v, k), AdjacentVia(g, leg.types, false, v, k);
    PullVia(g, leg, Ones(g.order), v, k) + (if leg.dir == Both then LoopFits(g, leg.node.labels, outs) else 0)
    == (if leg.dir == In then 0 else Fits(g, true, leg.node.labels, outs))
       + if leg.dir == Out then 0 else Fits(g, false, leg.node.labels, ins)
  }

  lemma DegreeStep(g: Graph, leg: Leg, v: nat, k: nat)
    requires g.Valid() && v < g.order && k < |g.edges| && leg.node.gate == None
    requires DegreeUpTo(g, leg, v, k)
    ensures DegreeUpTo(g, leg, v, k + 1)
  {
    FitsStep(g, leg, true, v, k);
    FitsStep(g, leg, false, v, k);
    CrossAt(g, leg, v, k);
    PullOnesStep(g, leg, v, k);
  }

  lemma PullOnesStep(g: Graph, leg: Leg, v: nat, k: nat)
    requires g.Valid() && v < g.order && k < |g.edges|
    ensures PullVia(g, leg, Ones(g.order), v, k + 1)
            == PullVia(g, leg, Ones(g.order), v, k) + if leg.Crosses(g.edges[k], v) then 1 else 0
  {
  }

  lemma CrossAt(g: Graph, leg: Leg, v: nat, k: nat)
    requires k < |g.edges| && leg.node.gate == None
    ensures var e, out, back := g.edges[k], FitsAt(g, leg, true, v, k), FitsAt(g, leg, false, v, k);
            (if leg.Crosses(e, v) then 1 else 0) + (if leg.dir == Both && out && e.IsLoop() then 1 else 0)
            == (if leg.dir != In && out then 1 else 0) + if leg.dir != Out && back then 1 else 0
  {
  }

  /** The degree of v through a leg whose landing node has no gate. */
  lemma {:induction false} DegreeVia(g: Graph, leg: Leg, v: nat, k: nat)
    requires g.Valid() && v < g.order && k <= |g.edges| && leg.node.gate == None
    ensures DegreeUpTo(g, leg, v, k)
  {
    if k > 0 {
      DegreeVia(g, leg, v, k - 1);
      DegreeStep(g, leg, v, k - 1);
    }
  }

  lemma FitsStep(g: Graph, leg: Leg, out: bool, v: nat, k: nat)
    requires k < |g.edges|
    ensures Fits(g, out, leg.node.labels, AdjacentVia(g, leg.types, out, v, k + 1))
            == Fits(g, out, leg.node.labels, AdjacentVia(g, leg.types, out, v, k)) + if FitsAt(g, leg, out, v, k) then 1 else 0
    ensures LoopFits(g, leg.node.labels, AdjacentVia(g, leg.types, true, v, k + 1))
            == LoopFits(g, leg.node.labels, AdjacentVia(g, leg.types, true, v, k))
               + if FitsAt(g, leg, true, v, k) && g.edges[k].IsLoop() then 1 else 0
  {
    var adj, outs := AdjacentVia(g, leg.types, out, v, k), AdjacentVia(g, leg.types, true, v, k);
    assert (adj + [k])[..|adj|] == adj && (outs + [k])[..|outs|] == outs;
  }

  predicate FitsAt(g: Graph, leg: Leg, out: bool, v: nat, k: nat)
    requires k < |g.edges|
  {
    TypeAdmits(leg.types, g.edges[k]) && Near(out, g.edges[k]) == v && Passes(leg.node.labels, Beyond(out, g.edges[k]))
  }

  lemma {:induction false} NoFilterFits(g: Graph, out: bool, adj: seq<nat>)
    requires forall j :: 0 <= j < |adj| ==> adj[j] < |g.edges|
    ensures Fits(g, out, None, adj) == |adj|
  {
    if adj != [] {
      NoFilterFits(g, out, adj[..|adj| - 1]);
    }
  }

  lemma {:induction false} EffectiveFits(g: Graph, out: bool, labels: Filter, adj: seq<nat>)
    requires g.Valid() && Wellformed(g, labels) && forall j :: 0 <= j < |adj| ==> adj[j] < |g.edges|
    ensures Fits(g, out, Effective(g, labels), adj) == Fits(g, out, labels, adj)
    ensures LoopFits(g, Effective(g, labels), adj) == LoopFits(g, labels, adj)
  {
    if adj != [] {
      EffectiveFits(g, out, labels, adj[..|adj| - 1]);
      EffectiveKeeps(g, labels, Beyond(out, g.edges[adj[|adj| - 1]]));
      EffectiveKeeps(g, labels, g.edges[adj[|adj| - 1]].to);
    }
  }

  lemma {:induction false} NoLoopFits(g: Graph, types: Option<set<string>>, labels: Filter, adj: seq<nat>)
    requires forall j :: 0 <= j < |adj| ==> adj[j] < |g.edges| && TypeAdmits(types, g.edges[adj[j]])
    requires !LoopsOfTypes(g, types)
    ensures LoopFits(g, labels, adj) == 0
  {
    if adj != [] {
      NoLoopFits(g, types, labels, adj[..|adj| - 1]);
    }
  }

  /** A one-sided degree: a bucket size, or a count of the far ends that carry the label. */
  method Side(g: Graph, v: nat, out: bool, types: Option<set<string>>, far: Filter) returns (n: nat)
    ensures n == Fits(g, out, far, Adjacent(g, types, out, v))
  {
    var adj := Adjacent(g, types, out, v);
    if far.None? {
      NoFilterFits(g, out, adj);
      return |adj|;
    }
    n := 0;
    for j := 0 to |adj|
      invariant n == Fits(g, out, far, adj[..j])
    {
      assert adj[..j + 1][..j] == adj[..j];
      if Passes(far, Beyond(out, g.edges[adj[j]])) {
        n := n + 1;
      }
    }
    assert adj[..|adj|] == adj;
  }

  method UndirectedSide(g: Graph, v: nat, types: Option<set<string>>, far: Filter, loopsPossible: bool) returns (n: int)
    requires loopsPossible == LoopsOfTypes(g, types)
    ensures n == Fits(g, true, far, Adjacent(g, types, true, v)) + Fits(g, false, far, Adjacent(g, types, false, v))
                 - LoopFits(g, far, Adjacent(g, types, true, v))
  {
    var outs := Side(g, v, true, types, far);
    var ins := Side(g, v, false, types, far);
    n := outs + ins;
    var adj := Adjacent(g, types, true, v);
    if !loopsPossible {
      NoLoopFits(g, types, far, adj);
      return n;
    }
    var loops := 0;
    for j := 0 to |adj|
      invariant loops == LoopFits(g, far, adj[..j])
    {
      assert adj[..j + 1][..j] == adj[..j];
      var e := g.edges[adj[j]];
      if e.IsLoop() && Passes(far, e.to) {
        loops := loops + 1;
      }
    }
    assert adj[..|adj|] == adj;
    n := n - loops;
  }

  /** The degree of v through the last leg. */
  method LastDegree(g: Graph, v: nat, last: Leg) returns (n: nat)
    requires g.Valid() && v < g.order && last.node.gate == None && Wellformed(g, last.node.labels)
    ensures n == Completions(g, [last])[v]
  {
    var far := Effective(g, last.node.labels);
    assert Completions(g, [last]) == Pull(g, last, Ones(g.order)) by {
      assert [last][1..] == [];
    }
    DegreeVia(g, last, v, |g.edges|);
    EffectiveFits(g, true, last.node.labels, Adjacent(g, last.types, true, v));
    EffectiveFits(g, false, last.node.labels, Adjacent(g, last.types, false, v));
    if last.dir == Both {
      var m := UndirectedSide(g, v, last.types, far, LoopsOfTypes(g, last.types));
      n := m;
    } else {
      n := Side(g, v, last.dir == Out, last.types, far);
    }
  }

  // -------------------------------------------------------------- the sweep --

  ghost predicate Wellmade(g: Graph, p: Pattern) {
    forall i :: 0 <= i < |p.legs| ==> Wellformed(g, p.legs[i].node.labels)
  }

  /** The sum of the way counts on the frontier. */
  method SumFrontier(cells: seq<nat>, slots: seq<nat>, ghost held: seq<nat>, ghost from: seq<nat>) returns (count: nat)
    requires |from| == |slots| && Rest(held, held, from, 0)
    requires forall i :: 0 <= i < |slots| ==> slots[i] < |cells| && cells[slots[i]] == held[from[i]]
    ensures count == Sum(held)
  {
    count := 0;
    ghost var rem := held;
    for i := 0 to |slots|
      invariant Rest(held, rem, from, i) && count + Sum(rem) == Sum(held)
    {
      SumTake(rem, from[i]);
      RestNext(held, rem, from, i);
      count, rem := count + cells[slots[i]], rem[from[i] := 0];
    }
    SumOfZeros(rem);
  }

  lemma SameProduct(x: nat, x': nat, y: nat, y': nat)
    requires x == x' && y == y'
    ensures x * y == x' * y'
  {
  }

  /** The way counts on the frontier, each times the degree of its vertex. */
  method WeighFrontier(g: Graph, last: Leg, cells: seq<nat>, slots: seq<nat>, ids: seq<nat>, ghost held: seq<nat>)
      returns (count: nat)
    requires g.Valid() && |held| == g.order && last.node.gate == None && Wellformed(g, last.node.labels)
    requires |ids| == |slots| && Rest(held, held, ids, 0)
    requires forall i :: 0 <= i < |slots| ==> slots[i] < |cells| && cells[slots[i]] == held[ids[i]]
    ensures count == Dot(held, Completions(g, [last]))
  {
    count := 0;
    ghost var rem := held;
    ghost var degrees := Completions(g, [last]);
    for i := 0 to |slots|
      invariant Rest(held, rem, ids, i) && count + Dot(rem, degrees) == Dot(held, degrees)
    {
      DotTake(rem, degrees, ids[i]);
      RestNext(held, rem, ids, i);
      var degree := LastDegree(g, ids[i], last);
      var weighed := cells[slots[i]] * degree;
      SameProduct(cells[slots[i]], rem[ids[i]], degree, degrees[ids[i]]);
      count, rem := count + weighed, rem[ids[i] := 0];
    }
    DotZeros(rem, degrees);
  }

  /** Would every pass resolve the same edges to the same slots, and are there enough of them for it to pay? */
  predicate Remembering(g: Graph, p: Pattern, passes: nat) {
    && passes > 2 && p.legs != [] && p.legs[0].dir != Both
    && forall i | 0 <= i < |p.legs| ::
         && p.legs[i].dir == p.legs[0].dir && p.legs[i].types == p.legs[0].types
         && p.legs[i].node.gate == None && Effective(g, p.legs[i].node.labels) == None
  }

  /** The passes.  Once nothing reaches a position nothing reaches a later one, and the answer is 0. */
  method RunPasses(st: SweepState, p: Pattern, passes: nat) returns (dead: bool)
    requires st.Valid() && st.nextFrontier == [] && Wellmade(st.g, p) && passes <= |p.legs|
    requires st.held == Ways(st.g, p.start, [])
    modifies st, st.ways, st.next
    ensures st.Valid() && (dead ==> Count(st.g, p) == 0)
    ensures !dead ==> st.held == Ways(st.g, p.start, p.legs[..passes])
  {
    var remembering := Remembering(st.g, p, passes);
    var known: map<nat, seq<nat>> := map[];
    for i := 0 to passes
      invariant st.Valid() && st.nextFrontier == []
      invariant st.next == old(st.next) || fresh(st.next)
      invariant st.held == Ways(st.g, p.start, p.legs[..i])
      invariant remembering ==> st.Remembers(known, p.legs[0].types, p.legs[0].dir == Out)
    {
      if remembering {
        known := st.FreeHop(p.legs[i], p.legs[0].types, p.legs[0].dir == Out, known);
      } else {
        st.Hop(p.legs[i]);
      }
      WaysStep(st.g, p, i);
      if st.frontier == [] {
        DeadEnd(st.g, p, i + 1);
        return true;
      }
    }
    dead := false;
  }

  lemma WaysStep(g: Graph, p: Pattern, i: nat)
    requires g.Valid() && i < |p.legs|
    ensures Ways(g, p.start, p.legs[..i + 1]) == Push(g, p.legs[i], Ways(g, p.start, p.legs[..i]))
  {
    assert p.legs[..i + 1] == p.legs[..i] + [p.legs[i]];
    PushAllAppend(g, p.legs[..i], p.legs[i], Mask(p.start, Ones(g.order)));
  }

  lemma DeadEnd(g: Graph, p: Pattern, i: nat)
    requires g.Valid() && i <= |p.legs|
    requires forall v :: 0 <= v < g.order ==> Ways(g, p.start, p.legs[..i])[v] == 0
    ensures Count(g, p) == 0
  {
    assert p.legs[..i] + p.legs[i..] == p.legs;
    Cut(g, p.start, p.legs[..i], p.legs[i..]);
    DotZeros(Ways(g, p.start, p.legs[..i]), Completions(g, p.legs[i..]));
  }

  /** THE SWEEP answers the pattern's count: the number of its matches. */
  method SweepChain(g: Graph, p: Pattern, source: seq<nat>) returns (count: nat)
    requires g.Valid() && p.legs != [] && Wellmade(g, p)
    requires forall i, j :: 0 <= i < j < |source| ==> source[i] != source[j]
    requires forall v :: v in source ==> v < g.order
    requires forall v :: 0 <= v < g.order && p.start.Keeps(v) ==> v in source
    ensures count == |Matches(g, p)|
  {
    CountIsMatches(g, p);
    var st := new SweepState(g);
    st.Seed(p.start, source);
    var n := |p.legs|;
    var last := p.legs[n - 1];
    var dead := RunPasses(st, p, if last.node.gate.Some? then n else n - 1);
    if dead {
      return 0;
    }
    if last.node.gate.Some? {
      assert p.legs[..n] == p.legs;
      SweepCounts(g, p);
      count := SumFrontier(st.ways[..], st.frontier, st.held, st.FrontierVertices());
    } else {
      assert p.legs[..n - 1] + [last] == p.legs;
      Cut(g, p.start, p.legs[..n - 1], [last]);
      count := WeighFrontier(g, last, st.ways[..], st.frontier, st.FrontierVertices(), st.held);
    }
  }

  // ------------------------------------------------------ which end to read --

  /** The candidate vertices of a label, in insertion order: its bucket, or every vertex. */
  function Candidates(g: Graph, labels: Filter): (r: seq<nat>)
    ensures forall v: nat :: v in r <==> v < g.order && Passes(labels, v)
    ensures forall i, j :: 0 <= i < j < |r| ==> r[i] != r[j]
  {
    CandidatesBelow(labels, g.order)
  }

  function CandidatesBelow(labels: Filter, k: nat): (r: seq<nat>)
    ensures forall v: nat :: v in r <==> v < k && Passes(labels, v)
    ensures forall i, j :: 0 <= i < j < |r| ==> r[i] != r[j]
  {
    if k == 0 then []
    else if Passes(labels, k - 1) then CandidatesBelow(labels, k - 1) + [k - 1]
    else CandidatesBelow(labels, k - 1)
  }

  function CandidateCount(g: Graph, labels: Filter): nat {
    if labels.None? then g.order else |labels.value|
  }

  /** The legs to sweep: as written, or leg by leg from the far end. */
  method BuildFor(p: Pattern, flip: bool) returns (r: Pattern)
    ensures r == if flip then Reverse(p) else p
  {
    var hops := |p.legs|;
    var legs: seq<Leg> := [];
    for j := 0 to hops
      invariant |legs| == j
      invariant forall k :: 0 <= k < j ==> legs[k] == if flip then Reverse(p).legs[k] else p.legs[k]
    {
      var i := if flip then hops - 1 - j else j;
      var dir := if flip then p.legs[i].dir.Flip() else p.legs[i].dir;
      legs := legs + [Leg(dir, p.legs[i].types, NodeAt(p, if flip then i else i + 1))];
      ReverseAt(p, j);
    }
    r := Pattern(NodeAt(p, if flip then hops else 0), legs);
    if flip && hops > 0 {
      ReverseAt(p, 0);
    }
  }

  /** The chain count, from whichever end the gates and the label buckets make the cheaper one.  A
      seek is only ever made for a start that carries a gate, and then the chain is not flipped. */
  method LongChainCount(g: Graph, p: Pattern, seek: Option<seq<nat>>) returns (count: nat)
    requires g.Valid() && p.legs != [] && Wellmade(g, p) && Wellformed(g, p.start.labels)
    requires seek.Some? ==>
               && p.start.gate.Some?
               && (forall i, j :: 0 <= i < j < |seek.value| ==> seek.value[i] != seek.value[j])
               && (forall v :: v in seek.value ==> v < g.order)
               && (forall v :: 0 <= v < g.order && p.start.Keeps(v) ==> v in seek.value)
    ensures count == |Matches(g, p)|
  {
    var hops := |p.legs|;
    var startGate, endGate := p.start.gate, p.legs[hops - 1].node.gate;
    var gateFlip := endGate.Some? && startGate.None?;
    var labelMayFlip := startGate.None? && endGate.None? && p.legs[hops - 1].node.labels.Some?;
    var pick := BuildFor(p, gateFlip);
    if labelMayFlip && CandidateCount(g, p.legs[hops - 1].node.labels) < CandidateCount(g, p.start.labels) {
      pick := BuildFor(p, true);
    }
    var source := if seek.Some? then seek.value else Candidates(g, pick.start.labels);
    ReverseCounts(g, p);
    ReverseWellmade(g, p);
    count := SweepChain(g, pick, source);
  }

  lemma ReverseWellmade(g: Graph, p: Pattern)
    requires Wellmade(g, p) && Wellformed(g, p.start.labels)
    ensures Wellmade(g, Reverse(p))
  {
    forall j | 0 <= j < |p.legs| ensures Wellformed(g, Reverse(p).legs[j].node.labels) {
      ReverseAt(p, j);
    }
  }
}
