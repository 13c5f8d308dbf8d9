/** The adjacency index: a vertex's edges by direction and type, and how walking it edge by edge
    adds up to a sweep over the whole edge list. */
module Adjacency {
  import opened Options
  import opened Vectors
  import opened Multigraph

  function AdjacentVia(g: Graph, types: Option<set<string>>, out: bool, v: nat, k: nat): (r: seq<nat>)
    requires k <= |g.edges|
    ensures forall j :: 0 <= j < |r| ==>
              r[j] < k && TypeAdmits(types, g.edges[r[j]]) && Near(out, g.edges[r[j]]) == v
  {
    if k == 0 then []
    else if TypeAdmits(types, g.edges[k - 1]) && Near(out, g.edges[k - 1]) == v then
      AdjacentVia(g, types, out, v, k - 1) + [k - 1]
    else AdjacentVia(g, types, out, v, k - 1)
  }

  /** `edgesOfTypes(index.get(v), types)`: every admitted edge at v, once. */
  function Adjacent(g: Graph, types: Option<set<string>>, out: bool, v: nat): (r: seq<nat>)
    ensures forall j :: 0 <= j < |r| ==>
              r[j] < |g.edges| && TypeAdmits(types, g.edges[r[j]]) && Near(out, g.edges[r[j]]) == v
  {
    AdjacentVia(g, types, out, v, |g.edges|)
  }

  /** What u receives when w is sent over each of these edges. */
  function Share(g: Graph, leg: Leg, out: bool, w: nat, adj: seq<nat>, u: nat): nat
    requires forall j :: 0 <= j < |adj| ==> adj[j] < |g.edges|
  {
    if adj == [] then 0
    else
      var e := g.edges[adj[|adj| - 1]];
      Share(g, leg, out, w, adj[..|adj| - 1], u) + if leg.Uses(out, e) && Beyond(out, e) == u then w else 0
  }

  /** What v alone sends to u, over the first k edges. */
  function Sent(g: Graph, leg: Leg, out: bool, v: nat, w: nat, u: nat, k: nat): nat
    requires k <= |g.edges|
  {
    if k == 0 then 0
    else
      var e := g.edges[k - 1];
      Sent(g, leg, out, v, w, u, k - 1) + if leg.Uses(out, e) && Near(out, e) == v && Beyond(out, e) == u then w else 0
  }

  lemma {:induction false} SentByAdjacency(g: Graph, leg: Leg, out: bool, v: nat, w: nat, u: nat, k: nat)
    requires k <= |g.edges|
    ensures Sent(g, leg, out, v, w, u, k) == Share(g, leg, out, w, AdjacentVia(g, leg.types, out, v, k), u)
  {
    if k > 0 {
      SentByAdjacency(g, leg, out, v, w, u, k - 1);
      var adj := AdjacentVia(g, leg.types, out, v, k - 1);
      assert (adj + [k - 1])[..|adj|] == adj;
    }
  }

  lemma {:induction false} PassWithout(g: Graph, leg: Leg, out: bool, f: seq<nat>, f': seq<nat>, v: nat, u: nat, k: nat)
    requires g.Valid() && |f| == |f'| == g.order && v < g.order && k <= |g.edges|
    requires f'[v] == 0 && forall x :: 0 <= x < |f| && x != v ==> f'[x] == f[x]
    ensures PassInto(g, leg, out, f, u, k) == PassInto(g, leg, out, f', u, k) + Sent(g, leg, out, v, f[v], u, k)
  {
    if k > 0 {
      PassWithout(g, leg, out, f, f', v, u, k - 1);
    }
  }

  /** Taking one vertex's amount out of f takes its edges' share out of what arrives. */
  lemma PassTake(g: Graph, leg: Leg, out: bool, f: seq<nat>, v: nat, u: nat)
    requires g.Valid() && |f| == g.order && v < g.order
    ensures PassInto(g, leg, out, f, u, |g.edges|)
            == PassInto(g, leg, out, f[v := 0], u, |g.edges|) + Share(g, leg, out, f[v], Adjacent(g, leg.types, out, v), u)
  {
    PassWithout(g, leg, out, f, f[v := 0], v, u, |g.edges|);
    SentByAdjacency(g, leg, out, v, f[v], u, |g.edges|);
  }

  lemma {:induction false} ShareOfZero(g: Graph, leg: Leg, out: bool, adj: seq<nat>, u: nat)
    requires forall j :: 0 <= j < |adj| ==> adj[j] < |g.edges|
    ensures Share(g, leg, out, 0, adj, u) == 0
  {
    if adj != [] {
      ShareOfZero(g, leg, out, adj[..|adj| - 1], u);
    }
  }

  lemma {:induction false} PassOfZeros(g: Graph, leg: Leg, out: bool, f: seq<nat>, u: nat, k: nat)
    requires g.Valid() && |f| == g.order && k <= |g.edges|
    requires forall v :: 0 <= v < g.order ==> f[v] == 0
    ensures PassInto(g, leg, out, f, u, k) == 0
  {
    if k > 0 {
      PassOfZeros(g, leg, out, f, u, k - 1);
    }
  }

  lemma SumTake(f: seq<nat>, i: nat)
    requires i < |f|
    ensures Sum(f) == Sum(f[i := 0]) + f[i]
  {
    DotBump(f[i := 0], f, Ones(|f|), i, f[i]);
    DotOnes(f);
    DotOnes(f[i := 0]);
  }

  /** A direction the leg does not take brings nothing. */
  lemma {:induction false} UnusedPass(g: Graph, leg: Leg, out: bool, f: seq<nat>, u: nat, k: nat)
    requires g.Valid() && |f| == g.order && k <= |g.edges|
    requires leg.dir == if out then In else Out
    ensures PassInto(g, leg, out, f, u, k) == 0
  {
    if k > 0 {
      UnusedPass(g, leg, out, f, u, k - 1);
    }
  }

  lemma {:induction false} DotTake(f: seq<nat>, h: seq<nat>, i: nat)
    requires |f| == |h| && i < |f|
    ensures Dot(f, h) == Dot(f[i := 0], h) + f[i] * h[i]
  {
    DotBump(f[i := 0], f, h, i, f[i]);
  }
}
