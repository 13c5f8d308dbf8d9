/** Undirected hops answered from degrees and bucket sizes instead of rows, and what Gremlin's `both`
    counts more. */
module DegreeCounts {
  import opened Options
  import opened Vectors
  import opened Multigraph
  import opened Adjacency
  import opened ChainSweep

  // --------------------------------------------------------- one hop, by edges --

  /** (a)-[:types]-(b), by direction. */
  function OneHop(start: Node, dir: Direction, types: Option<set<string>>, end: Node): Pattern {
    Pattern(start, [Leg(dir, types, end)])
  }

  /** The rows one edge gives an undirected hop: one per orientation that fits the ends, and one for
      a self-loop. */
  function Orientations(start: Node, end: Node, e: Edge): nat {
    (if start.Keeps(e.from) && end.Keeps(e.to) then 1 else 0)
    + if e.from != e.to && start.Keeps(e.to) && end.Keeps(e.from) then 1 else 0
  }

  function OrientationSum(g: Graph, types: Option<set<string>>, start: Node, end: Node, k: nat): nat
    requires k <= |g.edges|
  {
    if k == 0 then 0
    else OrientationSum(g, types, start, end, k - 1)
         + if TypeAdmits(types, g.edges[k - 1]) then Orientations(start, end, g.edges[k - 1]) else 0
  }

  lemma {:induction false} OrientationFlow(g: Graph, types: Option<set<string>>, start: Node, end: Node, k: nat)
    requires g.Valid() && k <= |g.edges|
    ensures FlowSum(g, Leg(Both, types, end), Mask(start, Ones(g.order)), Ones(g.order), k)
            == OrientationSum(g, types, start, end, k)
  {
    if k > 0 {
      OrientationFlow(g, types, start, end, k - 1);
    }
  }

  lemma OneHopCount(g: Graph, start: Node, leg: Leg)
    requires g.Valid()
    ensures |Matches(g, Pattern(start, [leg]))|
            == FlowSum(g, leg, Mask(start, Ones(g.order)), Ones(g.order), |g.edges|)
  {
    CountIsMatches(g, Pattern(start, [leg]));
    assert Completions(g, [leg]) == Pull(g, leg, Ones(g.order)) by {
      assert [leg][1..] == [];
    }
    DotMask(start, Pull(g, leg, Ones(g.order)));
    FlowIsPull(g, leg, Mask(start, Ones(g.order)), Ones(g.order));
  }

  /** An undirected hop's rows, edge by edge. */
  lemma UndirectedRows(g: Graph, types: Option<set<string>>, start: Node, end: Node)
    requires g.Valid()
    ensures |Matches(g, OneHop(start, Both, types, end))| == OrientationSum(g, types, start, end, |g.edges|)
  {
    OneHopCount(g, start, Leg(Both, types, end));
    OrientationFlow(g, types, start, end, |g.edges|);
  }

  // ------------------------------------------------- the handshake and Gremlin --

  function EdgesOfType(g: Graph, t: string, k: nat): nat
    requires k <= |g.edges|
  {
    if k == 0 then 0 else EdgesOfType(g, t, k - 1) + if t in g.edges[k - 1].types then 1 else 0
  }

  function LoopsOfType(g: Graph, t: string, k: nat): nat
    requires k <= |g.edges|
  {
    if k == 0 then 0
    else LoopsOfType(g, t, k - 1) + if t in g.edges[k - 1].types && g.edges[k - 1].IsLoop() then 1 else 0
  }

  lemma {:induction false} FreeOrientations(g: Graph, t: string, start: Node, end: Node, k: nat)
    requires g.Valid() && k <= |g.edges|
    requires forall v :: 0 <= v < g.order ==> start.Keeps(v) && end.Keeps(v)
    ensures OrientationSum(g, Some({t}), start, end, k) == 2 * EdgesOfType(g, t, k) - LoopsOfType(g, t, k)
  {
    if k > 0 {
      FreeOrientations(g, t, start, end, k - 1);
      SingleType(t, g.edges[k - 1]);
    }
  }

  lemma SingleType(t: string, e: Edge)
    ensures TypeAdmits(Some({t}), e) <==> t in e.types
  {
    if t in e.types {
      assert t in e.types * {t};
    }
  }

  /** With no filter the undirected count collapses to twice the bucket, less its loops. */
  lemma Handshake(g: Graph, t: string)
    requires g.Valid()
    ensures |Matches(g, OneHop(ANY_NODE, Both, Some({t}), ANY_NODE))|
            == 2 * EdgesOfType(g, t, |g.edges|) - LoopsOfType(g, t, |g.edges|)
  {
    UndirectedRows(g, Some({t}), ANY_NODE, ANY_NODE);
    FreeOrientations(g, t, ANY_NODE, ANY_NODE, |g.edges|);
  }

  /** The self-loops of the type on vertices both ends of the hop keep. */
  function KeptLoops(g: Graph, types: Option<set<string>>, start: Node, end: Node, k: nat): nat
    requires k <= |g.edges|
  {
    if k == 0 then 0
    else
      var e := g.edges[k - 1];
      KeptLoops(g, types, start, end, k - 1)
      + if TypeAdmits(types, e) && e.IsLoop() && start.Keeps(e.to) && end.Keeps(e.to) then 1 else 0
  }

  lemma {:induction false} BothIsOutPlusIn(g: Graph, types: Option<set<string>>, start: Node, end: Node, k: nat)
    requires g.Valid() && k <= |g.edges|
    ensures var f, h := Mask(start, Ones(g.order)), Ones(g.order);
            FlowSum(g, Leg(Out, types, end), f, h, k) + FlowSum(g, Leg(In, types, end), f, h, k)
            == FlowSum(g, Leg(Both, types, end), f, h, k) + KeptLoops(g, types, start, end, k)
  {
    if k > 0 {
      BothIsOutPlusIn(g, types, start, end, k - 1);
    }
  }

  /** `both(T)` emits a vertex's out-edges and its in-edges, a self-loop in each: the Gremlin rows. */
  ghost function GremlinBoth(g: Graph, types: Option<set<string>>, start: Node, end: Node): nat {
    |Matches(g, OneHop(start, Out, types, end))| + |Matches(g, OneHop(start, In, types, end))|
  }

  /** Gremlin's `both` exceeds the undirected GQL hop by exactly the self-loops on passing vertices. */
  lemma GremlinCountsLoopsTwice(g: Graph, types: Option<set<string>>, start: Node, end: Node)
    requires g.Valid()
    ensures GremlinBoth(g, types, start, end)
            == |Matches(g, OneHop(start, Both, types, end))| + KeptLoops(g, types, start, end, |g.edges|)
  {
    OneHopCount(g, start, Leg(Out, types, end));
    OneHopCount(g, start, Leg(In, types, end));
    OneHopCount(g, start, Leg(Both, types, end));
    BothIsOutPlusIn(g, types, start, end, |g.edges|);
  }

  // --------------------------------------------------------- the degree sum --

  /** One vertex's share: both bucket sizes, less the loops when they are looked for. */
  method UndirectedDegree(g: Graph, types: Option<set<string>>, v: nat, hasLoops: bool) returns (n: int)
    requires g.Valid() && v < g.order
    requires LoopsOfTypes(g, types) ==> hasLoops
    ensures n == Completions(g, [Leg(Both, types, ANY_NODE)])[v]
  {
    var f, t := Adjacent(g, types, true, v), Adjacent(g, types, false, v);
    n := |f| + |t|;
    if hasLoops {
      for j := 0 to |f|
        invariant n == |f| + |t| - LoopFits(g, None, f[..j])
      {
        assert f[..j + 1][..j] == f[..j];
        if g.edges[f[j]].from == g.edges[f[j]].to {
          n := n - 1;
        }
      }
      assert f[..|f|] == f;
    } else {
      NoLoopFits(g, types, None, f);
    }
    BothDegree(g, types, v);
  }

  /** An undirected degree: both buckets, less the loops. */
  lemma BothDegree(g: Graph, types: Option<set<string>>, v: nat)
    requires g.Valid() && v < g.order
    ensures var f, t := Adjacent(g, types, true, v), Adjacent(g, types, false, v);
            Completions(g, [Leg(Both, types, ANY_NODE)])[v] == |f| + |t| - LoopFits(g, None, f)
  {
    var leg := Leg(Both, types, ANY_NODE);
    DegreeVia(g, leg, v, |g.edges|);
    NoFilterFits(g, true, Adjacent(g, types, true, v));
    NoFilterFits(g, false, Adjacent(g, types, false, v));
    assert Completions(g, [leg]) == Pull(g, leg, Ones(g.order)) by {
      assert [leg][1..] == [];
    }
  }

  /** The degree sum over the vertices of a bucket that pass a filter.  Whether the loop correction
      runs on a graph that turns out to have no loop makes no difference. */
  method DegreeSum(g: Graph, types: Option<set<string>>, bucket: seq<nat>, passing: set<nat>, hasLoops: bool)
      returns (n: int)
    requires g.Valid() && forall v :: v in bucket ==> v < g.order
    requires forall i, j :: 0 <= i < j < |bucket| ==> bucket[i] != bucket[j]
    requires LoopsOfTypes(g, types) ==> hasLoops
    ensures n == |Matches(g, OneHop(Node(Some(set v | v in bucket), Some(passing)), Both, types, ANY_NODE))|
  {
    n := 0;
    var leg := Leg(Both, types, ANY_NODE);
    ghost var start := Node(Some(set v | v in bucket), Some(passing));
    ghost var degrees := Mask(start, Completions(g, [leg]));
    ghost var rem := degrees;
    for i := 0 to |bucket|
      invariant |rem| == g.order
      invariant forall v :: 0 <= v < g.order ==> rem[v] == if v in bucket[i..] then degrees[v] else 0
      invariant n + Sum(rem) == Sum(degrees)
    {
      var v := bucket[i];
      assert v in bucket && bucket[i..] == [v] + bucket[i + 1..];
      SumTake(rem, v);
      if v in passing {
        var d := UndirectedDegree(g, types, v, hasLoops);
        n := n + d;
      }
      rem := rem[v := 0];
    }
    SumOfZeros(rem);
    CountIsMatches(g, OneHop(start, Both, types, ANY_NODE));
  }
}
