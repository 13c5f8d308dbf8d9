/** Two-hop and three-hop counts as products of degrees, the chain over a graph of uniform degree,
    and the three spellings of a chain. */
module DegreeProducts {
  import opened Options
  import opened Vectors
  import opened Multigraph
  import opened Adjacency
  import opened ChainSweep

  function Hop(types: Option<set<string>>): Leg {
    Leg(Out, types, ANY_NODE)
  }

  /** Every vertex's out-degree, and its in-degree, over the types. */
  function Degrees(g: Graph, types: Option<set<string>>, out: bool): (r: seq<nat>)
    ensures |r| == g.order && forall v :: 0 <= v < g.order ==> r[v] == |Adjacent(g, types, out, v)|
  {
    seq(g.order, v requires 0 <= v < g.order => |Adjacent(g, types, out, v)|)
  }

  lemma {:induction false} InDegreeVia(g: Graph, types: Option<set<string>>, u: nat, k: nat)
    requires g.Valid() && u < g.order && k <= |g.edges|
    ensures PassInto(g, Hop(types), true, Ones(g.order), u, k) == |AdjacentVia(g, types, false, u, k)|
  {
    if k > 0 {
      InDegreeVia(g, types, u, k - 1);
    }
  }

  /** One sweep of ones leaves the in-degrees. */
  lemma InDegreesByPush(g: Graph, types: Option<set<string>>)
    requires g.Valid()
    ensures Ways(g, ANY_NODE, [Hop(types)]) == Degrees(g, types, false)
  {
    var ones := Ones(g.order);
    assert Mask(ANY_NODE, ones) == ones;
    forall v | 0 <= v < g.order ensures Push(g, Hop(types), ones)[v] == Degrees(g, types, false)[v] {
      InDegreeVia(g, types, v, |g.edges|);
      UnusedPass(g, Hop(types), false, ones, v, |g.edges|);
    }
    assert Push(g, Hop(types), ones) == Degrees(g, types, false);
    assert PushAll(g, [Hop(types)], ones) == Push(g, Hop(types), ones) by {
      assert [Hop(types)][1..] == [];
    }
  }

  /** One hop back from ones gives the out-degrees. */
  lemma OutDegreesByPull(g: Graph, types: Option<set<string>>)
    requires g.Valid()
    ensures Completions(g, [Hop(types)]) == Degrees(g, types, true)
  {
    assert Completions(g, [Hop(types)]) == Pull(g, Hop(types), Ones(g.order)) by {
      assert [Hop(types)][1..] == [];
    }
    forall v | 0 <= v < g.order ensures Pull(g, Hop(types), Ones(g.order))[v] == Degrees(g, types, true)[v] {
      DegreeVia(g, Hop(types), v, |g.edges|);
      NoFilterFits(g, true, Adjacent(g, types, true, v));
    }
  }

  /** A two-hop count is in-degree times out-degree, over the middle vertices. */
  lemma TwoHopProduct(g: Graph, types: Option<set<string>>)
    requires g.Valid()
    ensures |Matches(g, Pattern(ANY_NODE, [Hop(types), Hop(types)]))|
            == Dot(Degrees(g, types, false), Degrees(g, types, true))
  {
    InDegreesByPush(g, types);
    OutDegreesByPull(g, types);
    assert [Hop(types)] + [Hop(types)] == [Hop(types), Hop(types)];
    Cut(g, ANY_NODE, [Hop(types)], [Hop(types)]);
    CountIsMatches(g, Pattern(ANY_NODE, [Hop(types), Hop(types)]));
  }

  /** Over the middle edges: in-degree of the near end times out-degree of the far end. */
  function EdgeProducts(g: Graph, types: Option<set<string>>, k: nat): nat
    requires g.Valid() && k <= |g.edges|
  {
    if k == 0 then 0
    else
      var e := g.edges[k - 1];
      EdgeProducts(g, types, k - 1)
      + if TypeAdmits(types, e) then |Adjacent(g, types, false, e.from)| * |Adjacent(g, types, true, e.to)| else 0
  }

  lemma {:induction false} EdgeProductsFlow(g: Graph, types: Option<set<string>>, k: nat)
    requires g.Valid() && k <= |g.edges|
    ensures FlowSum(g, Hop(types), Degrees(g, types, false), Degrees(g, types, true), k) == EdgeProducts(g, types, k)
  {
    if k > 0 {
      EdgeProductsFlow(g, types, k - 1);
    }
  }

  /** A three-hop count is the edge products' sum. */
  lemma ThreeHopProduct(g: Graph, types: Option<set<string>>)
    requires g.Valid()
    ensures |Matches(g, Pattern(ANY_NODE, [Hop(types), Hop(types), Hop(types)]))| == EdgeProducts(g, types, |g.edges|)
  {
    var h := Hop(types);
    InDegreesByPush(g, types);
    OutDegreesByPull(g, types);
    assert [h] + [h, h] == [h, h, h] && [h, h][1..] == [h];
    Cut(g, ANY_NODE, [h], [h, h]);
    FlowIsPull(g, h, Degrees(g, types, false), Degrees(g, types, true));
    EdgeProductsFlow(g, types, |g.edges|);
    CountIsMatches(g, Pattern(ANY_NODE, [h, h, h]));
  }

  // ------------------------------------------------------------- the probes --

  /** h summed over the far ends of these edges. */
  function Gather(g: Graph, h: seq<nat>, adj: seq<nat>): nat
    requires g.Valid() && |h| == g.order && forall j :: 0 <= j < |adj| ==> adj[j] < |g.edges|
  {
    if adj == [] then 0 else Gather(g, h, adj[..|adj| - 1]) + h[g.edges[adj[|adj| - 1]].to]
  }

  /** One more edge, in the pull and in the bucket. */
  lemma PullOne(g: Graph, types: Option<set<string>>, h: seq<nat>, v: nat, k: nat)
    requires g.Valid() && |h| == g.order && k < |g.edges|
    ensures var e := g.edges[k];
            if TypeAdmits(types, e) && e.from == v then
              PullVia(g, Hop(types), h, v, k + 1) == PullVia(g, Hop(types), h, v, k) + h[e.to]
              && AdjacentVia(g, types, true, v, k + 1) == AdjacentVia(g, types, true, v, k) + [k]
            else
              PullVia(g, Hop(types), h, v, k + 1) == PullVia(g, Hop(types), h, v, k)
              && AdjacentVia(g, types, true, v, k + 1) == AdjacentVia(g, types, true, v, k)
  {
    hide Gather, TypeAdmits;
  }

  lemma {:induction false} GatherVia(g: Graph, types: Option<set<string>>, h: seq<nat>, v: nat, k: nat)
    requires g.Valid() && |h| == g.order && k <= |g.edges|
    ensures PullVia(g, Hop(types), h, v, k) == Gather(g, h, AdjacentVia(g, types, true, v, k))
  {
    if k > 0 {
      GatherVia(g, types, h, v, k - 1);
      PullOne(g, types, h, v, k - 1);
      GatherMore(g, h, AdjacentVia(g, types, true, v, k - 1), k - 1);
      hide *;
    }
  }

  lemma GatherMore(g: Graph, h: seq<nat>, adj: seq<nat>, i: nat)
    requires g.Valid() && |h| == g.order && i < |g.edges| && forall j :: 0 <= j < |adj| ==> adj[j] < |g.edges|
    ensures Gather(g, h, adj + [i]) == Gather(g, h, adj) + h[g.edges[i].to]
  {
    assert (adj + [i])[..|adj|] == adj;
  }

  /** The degree reads over one vertex's edges. */
  method ReadFarDegrees(g: Graph, types: Option<set<string>>, v: nat) returns (acc: nat)
    requires g.Valid() && v < g.order
    ensures acc == Completions(g, [Hop(types), Hop(types)])[v]
  {
    ghost var outs := Degrees(g, types, true);
    var adj := Adjacent(g, types, true, v);
    acc := 0;
    for j := 0 to |adj|
      invariant acc == Gather(g, outs, adj[..j])
    {
      assert adj[..j + 1][..j] == adj[..j];
      acc := acc + |Adjacent(g, types, true, g.edges[adj[j]].to)|;
    }
    assert adj[..|adj|] == adj;
    OutDegreesByPull(g, types);
    GatherVia(g, types, outs, v, |g.edges|);
    assert [Hop(types), Hop(types)][1..] == [Hop(types)];
  }

  /** Per edge, a degree read of the far end: the two-hop count. */
  method DegreeReads(g: Graph, types: Option<set<string>>) returns (acc: nat)
    requires g.Valid()
    ensures acc == |Matches(g, Pattern(ANY_NODE, [Hop(types), Hop(types)]))|
  {
    ghost var twice := Completions(g, [Hop(types), Hop(types)]);
    acc := 0;
    for v := 0 to g.order
      invariant acc == Sum(twice[..v])
    {
      var d := ReadFarDegrees(g, types, v);
      assert twice[..v + 1][..v] == twice[..v];
      acc := acc + d;
    }
    assert twice[..g.order] == twice && Mask(ANY_NODE, twice) == twice;
    CountIsMatches(g, Pattern(ANY_NODE, [Hop(types), Hop(types)]));
  }

  /** Per edge, a tally on the far end: every entry grows by its vertex's in-degree, however full
      the array already was. */
  method InDegreeTally(g: Graph, types: Option<set<string>>, ways: array<nat>)
    requires g.Valid() && ways.Length == g.order
    modifies ways
    ensures forall u :: 0 <= u < g.order ==> ways[u] == old(ways[u]) + |Adjacent(g, types, false, u)|
  {
    var h := Hop(types);
    ghost var rem := Ones(g.order);
    for v := 0 to g.order
      invariant |rem| == g.order && forall x :: 0 <= x < g.order ==> rem[x] == if x < v then 0 else 1
      invariant forall u | 0 <= u < g.order ::
                  ways[u] + PassInto(g, h, true, rem, u, |g.edges|)
                  == old(ways[u]) + PassInto(g, h, true, Ones(g.order), u, |g.edges|)
    {
      forall u | 0 <= u < g.order
        ensures PassInto(g, h, true, rem, u, |g.edges|)
                == PassInto(g, h, true, rem[v := 0], u, |g.edges|) + Share(g, h, true, 1, Adjacent(g, types, true, v), u)
      {
        PassTake(g, h, true, rem, v, u);
      }
      TallyOne(g, types, ways, v);
      rem := rem[v := 0];
    }
    forall u | 0 <= u < g.order ensures ways[u] == old(ways[u]) + |Adjacent(g, types, false, u)| {
      PassOfZeros(g, h, true, rem, u, |g.edges|);
      InDegreeVia(g, types, u, |g.edges|);
    }
  }

  method TallyOne(g: Graph, types: Option<set<string>>, ways: array<nat>, v: nat)
    requires g.Valid() && ways.Length == g.order
    modifies ways
    ensures forall u :: 0 <= u < g.order ==>
              ways[u] == old(ways[u]) + Share(g, Hop(types), true, 1, Adjacent(g, types, true, v), u)
  {
    var adj := Adjacent(g, types, true, v);
    for j := 0 to |adj|
      invariant forall u :: 0 <= u < g.order ==> ways[u] == old(ways[u]) + Share(g, Hop(types), true, 1, adj[..j], u)
    {
      assert adj[..j + 1][..j] == adj[..j];
      var to := g.edges[adj[j]].to;
      ways[to] := ways[to] + 1;
    }
    assert adj[..|adj|] == adj;
  }

  // --------------------------------------------------------- uniform degree --

  function Pow(d: nat, h: nat): nat {
    if h == 0 then 1 else d * Pow(d, h - 1)
  }

  lemma {:induction false} ConstantGather(g: Graph, h: seq<nat>, c: nat, adj: seq<nat>)
    requires g.Valid() && |h| == g.order && forall j :: 0 <= j < |adj| ==> adj[j] < |g.edges|
    requires forall v :: 0 <= v < g.order ==> h[v] == c
    ensures Gather(g, h, adj) == |adj| * c
  {
    if adj != [] {
      ConstantGather(g, h, c, adj[..|adj| - 1]);
    }
  }

  ghost predicate Constant(f: seq<nat>, c: nat) {
    forall i :: 0 <= i < |f| ==> f[i] == c
  }

  lemma {:induction false} UniformCompletions(g: Graph, types: Option<set<string>>, d: nat, hops: nat)
    requires g.Valid() && forall v :: 0 <= v < g.order ==> |Adjacent(g, types, true, v)| == d
    ensures Constant(Completions(g, seq(hops, _ => Hop(types))), Pow(d, hops))
  {
    if hops > 0 {
      UniformCompletions(g, types, d, hops - 1);
      var rest := Completions(g, seq(hops - 1, _ => Hop(types)));
      assert seq(hops, _ => Hop(types))[1..] == seq(hops - 1, _ => Hop(types));
      forall v | 0 <= v < g.order ensures Pull(g, Hop(types), rest)[v] == Pow(d, hops) {
        GatherVia(g, types, rest, v, |g.edges|);
        ConstantGather(g, rest, Pow(d, hops - 1), Adjacent(g, types, true, v));
      }
    }
  }

  lemma {:induction false} ConstantSum(f: seq<nat>, c: nat)
    requires forall i :: 0 <= i < |f| ==> f[i] == c
    ensures Sum(f) == |f| * c
  {
    if f != [] {
      ConstantSum(f[..|f| - 1], c);
    }
  }

  /** Where every vertex has out-degree d there are order * d^hops walks, wherever the edges go. */
  lemma UniformChain(g: Graph, types: Option<set<string>>, d: nat, hops: nat)
    requires g.Valid() && forall v :: 0 <= v < g.order ==> |Adjacent(g, types, true, v)| == d
    ensures |Matches(g, Pattern(ANY_NODE, seq(hops, _ => Hop(types))))| == g.order * Pow(d, hops)
  {
    var p := Pattern(ANY_NODE, seq(hops, _ => Hop(types)));
    UniformCompletions(g, types, d, hops);
    ConstantSum(Mask(ANY_NODE, Completions(g, p.legs)), Pow(d, hops));
    CountIsMatches(g, p);
  }

  // ----------------------------------------------------------- the spellings --

  const E_TYPE := Some({"E"})

  /** MATCH (a:N)-[:E]->(n0)-[:E]->(n1)... */
  method ChainSpelling(n: set<nat>, hops: nat) returns (p: Pattern)
    ensures p == Pattern(Node(Some(n), None), seq(hops, _ => Leg(Out, E_TYPE, ANY_NODE)))
  {
    p := Pattern(Node(Some(n), None), []);
    for h := 0 to hops
      invariant p == Pattern(Node(Some(n), None), seq(h, _ => Leg(Out, E_TYPE, ANY_NODE)))
    {
      p := Pattern(p.start, p.legs + [Leg(Out, E_TYPE, ANY_NODE)]);
    }
  }

  function Alternating(hops: nat): (r: seq<Leg>)
    ensures |r| == hops
  {
    seq(hops, h requires 0 <= h => Leg(if h % 2 == 0 then Out else In, E_TYPE, ANY_NODE))
  }

  /** MATCH (a:N)-[:E]->(m0)<-[:E]-(m1)->...: with an even number of hops the arrows read the same backwards, so
      the label may as well stand at the far end. */
  method MixedSpelling(n: set<nat>, hops: nat) returns (p: Pattern)
    ensures p == Pattern(Node(Some(n), None), Alternating(hops))
    ensures forall g: Graph | g.Valid() && hops > 0 && hops % 2 == 0 ::
              |Matches(g, p)|
              == |Matches(g, Pattern(ANY_NODE, Alternating(hops)[hops - 1 := Leg(In, E_TYPE, Node(Some(n), None))]))|
  {
    p := Pattern(Node(Some(n), None), []);
    for h := 0 to hops
      invariant p == Pattern(Node(Some(n), None), Alternating(h))
    {
      p := Pattern(p.start, p.legs + [if h % 2 == 0 then Leg(Out, E_TYPE, ANY_NODE) else Leg(In, E_TYPE, ANY_NODE)]);
    }
    forall g: Graph | g.Valid() && hops > 0 && hops % 2 == 0
      ensures |Matches(g, p)|
              == |Matches(g, Pattern(ANY_NODE, Alternating(hops)[hops - 1 := Leg(In, E_TYPE, Node(Some(n), None))]))|
    {
      ReverseCounts(g, p);
      MixedReversed(n, hops);
    }
  }

  lemma MixedLegReversed(n: set<nat>, hops: nat, j: nat)
    requires hops % 2 == 0 && j < hops
    ensures var p := Pattern(Node(Some(n), None), Alternating(hops));
            && |Reverse(p).legs| == hops
            && Reverse(p).legs[j] == if j < hops - 1 then Alternating(hops)[j] else Leg(In, E_TYPE, Node(Some(n), None))
  {
    ReverseAt(Pattern(Node(Some(n), None), Alternating(hops)), j);
    assert (hops - 1 - j) % 2 == 0 <==> j % 2 != 0;
    hide Reverse;
  }

  lemma MixedReversed(n: set<nat>, hops: nat)
    requires hops > 0 && hops % 2 == 0
    ensures Reverse(Pattern(Node(Some(n), None), Alternating(hops)))
            == Pattern(ANY_NODE, Alternating(hops)[hops - 1 := Leg(In, E_TYPE, Node(Some(n), None))])
  {
    var p := Pattern(Node(Some(n), None), Alternating(hops));
    var q := Alternating(hops)[hops - 1 := Leg(In, E_TYPE, Node(Some(n), None))];
    ReverseAt(p, 0);
    hide Reverse;
    forall j: nat | j < hops ensures Reverse(p).legs[j] == q[j] {
      MixedLegReversed(n, hops, j);
    }
    assert Reverse(p).legs == q;
  }

  /** MATCH (z)<-[:E]-(n0)...<-[:E]-(a:N): the chain written backwards, from one hop up. */
  method ReversedSpelling(n: set<nat>, hops: nat) returns (p: Pattern)
    ensures hops > 0 ==> p == Reverse(Pattern(Node(Some(n), None), seq(hops, _ => Leg(Out, E_TYPE, ANY_NODE))))
    ensures forall g: Graph | g.Valid() && hops > 0 ::
              |Matches(g, p)| == |Matches(g, Pattern(Node(Some(n), None), seq(hops, _ => Leg(Out, E_TYPE, ANY_NODE))))|
  {
    p := Pattern(ANY_NODE, []);
    var h := 0;
    while h < hops - 1
      invariant h == 0 || h <= hops - 1
      invariant p == Pattern(ANY_NODE, seq(h, _ => Leg(In, E_TYPE, ANY_NODE)))
    {
      p := Pattern(p.start, p.legs + [Leg(In, E_TYPE, ANY_NODE)]);
      h := h + 1;
    }
    p := Pattern(p.start, p.legs + [Leg(In, E_TYPE, Node(Some(n), None))]);
    if hops > 0 {
      ghost var forward := Pattern(Node(Some(n), None), seq(hops, _ => Leg(Out, E_TYPE, ANY_NODE)));
      forall j | 0 <= j < hops ensures p.legs[j] == Reverse(forward).legs[j] {
        ReverseAt(forward, j);
      }
      ReverseAt(forward, 0);
      assert p.legs == Reverse(forward).legs && p == Reverse(forward);
      forall g: Graph | g.Valid() ensures |Matches(g, p)| == |Matches(g, forward)| {
        ReverseCounts(g, forward);
      }
    }
  }
}
