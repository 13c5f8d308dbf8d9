/** Directed multigraphs, chain patterns over them, and what it means to count a pattern's matches.

    A vertex is its insertion index and an edge its position in the edge list, so parallel edges are
    different edges.  A pattern is a start filter and a list of legs; a leg walks one edge out, in,
    or either way, of given types, and lands on a vertex that passes the leg's label and gate. */
module Multigraph {
  import opened Options
  import opened Vectors

  datatype Edge = Edge(from: nat, to: nat, types: set<string>) {
    predicate IsLoop() {
      from == to
    }
  }

  datatype Graph = Graph(order: nat, edges: seq<Edge>) {
    predicate Valid() {
      forall i :: 0 <= i < |edges| ==> edges[i].from < order && edges[i].to < order
    }
  }

  /** A label or a predicate, as the set of vertices it keeps; None keeps every vertex. */
  type Filter = Option<set<nat>>

  predicate Passes(f: Filter, v: nat) {
    f.None? || v in f.value
  }

  /** Is e of one of the types?  None means any type.  An edge is found through the buckets of the
      types it carries, so one that carries none is never walked. */
  predicate TypeAdmits(types: Option<set<string>>, e: Edge) {
    if types.None? then e.types != {} else e.types * types.value != {}
  }

  datatype Direction = Out | In | Both {
    function Flip(): Direction {
      match this case Out => In case In => Out case Both => Both
    }
  }

  /** One position of a pattern. */
  datatype Node = Node(labels: Filter, gate: Filter) {
    predicate Keeps(v: nat) {
      Passes(labels, v) && Passes(gate, v)
    }
  }

  /** Any vertex at all. */
  const ANY_NODE := Node(None, None)

  datatype Leg = Leg(dir: Direction, types: Option<set<string>>, node: Node) {
    predicate Admits(e: Edge) {
      TypeAdmits(types, e)
    }

    /** May the leg walk e in its own direction (out), or against it?  An undirected leg emits a
        self-loop once, on the way out. */
    predicate Uses(out: bool, e: Edge) {
      && Admits(e) && node.Keeps(Beyond(out, e))
      && if out then dir != In else dir != Out && !(dir == Both && e.IsLoop())
    }

    predicate Crosses(e: Edge, v: nat) {
      (Uses(true, e) && e.from == v) || (Uses(false, e) && e.to == v)
    }

    function Far(e: Edge, v: nat): nat {
      Beyond(Uses(true, e) && e.from == v, e)
    }
  }

  /** The end of e a walk arrives from, and the one it goes to. */
  function Near(out: bool, e: Edge): nat {
    if out then e.from else e.to
  }

  function Beyond(out: bool, e: Edge): nat {
    if out then e.to else e.from
  }

  // ---------------------------------------------------------- the matches --

  /** The edge list w is a way to walk the legs from v.  Edges may repeat: this is a walk. */
  predicate IsWalk(g: Graph, legs: seq<Leg>, v: nat, w: seq<nat>) {
    if legs == [] then w == []
    else
      && w != [] && w[0] < |g.edges| && legs[0].Crosses(g.edges[w[0]], v)
      && IsWalk(g, legs[1..], legs[0].Far(g.edges[w[0]], v), w[1..])
  }

  /** The walks from v whose first edge is one of the first k. */
  ghost function WalksVia(g: Graph, legs: seq<Leg>, v: nat, k: nat): (r: set<seq<nat>>)
    requires k <= |g.edges|
    decreases |legs|, k
  {
    if legs == [] then {[]}
    else if k == 0 then {}
    else
      var e := g.edges[k - 1];
      var earlier := WalksVia(g, legs, v, k - 1);
      if !legs[0].Crosses(e, v) then earlier
      else earlier + Prefixed(k - 1, Walks(g, legs[1..], legs[0].Far(e, v)))
  }

  ghost function Walks(g: Graph, legs: seq<Leg>, v: nat): (r: set<seq<nat>>)
    decreases |legs|, |g.edges| + 1
  {
    WalksVia(g, legs, v, |g.edges|)
  }

  ghost function Prefixed(e: nat, ws: set<seq<nat>>): set<seq<nat>> {
    set w | w in ws :: [e] + w
  }

  lemma {:induction false} WalksViaAreWalks(g: Graph, legs: seq<Leg>, v: nat, k: nat, w: seq<nat>)
    requires k <= |g.edges|
    ensures w in WalksVia(g, legs, v, k) <==> IsWalk(g, legs, v, w) && (legs != [] ==> w[0] < k)
    decreases |legs|, k
  {
    if legs != [] && k > 0 {
      WalksViaAreWalks(g, legs, v, k - 1, w);
      var e := g.edges[k - 1];
      if legs[0].Crosses(e, v) {
        var far := legs[0].Far(e, v);
        if w != [] {
          WalksViaAreWalks(g, legs[1..], far, |g.edges|, w[1..]);
          if w[0] == k - 1 {
            assert w == [k - 1] + w[1..];
          }
        }
        if w in Prefixed(k - 1, Walks(g, legs[1..], far)) {
          var t :| t in Walks(g, legs[1..], far) && w == [k - 1] + t;
          assert w[1..] == t;
        }
      }
    }
  }

  /** The set of walks is what it says. */
  lemma WalksAreWalks(g: Graph, legs: seq<Leg>, v: nat, w: seq<nat>)
    ensures w in Walks(g, legs, v) <==> IsWalk(g, legs, v, w)
  {
    WalksViaAreWalks(g, legs, v, |g.edges|, w);
  }

  lemma {:induction false} PrefixedSize(e: nat, ws: set<seq<nat>>)
    ensures |Prefixed(e, ws)| == |ws|
  {
    if ws != {} {
      var w :| w in ws;
      PrefixedSize(e, ws - {w});
      assert Prefixed(e, ws) == Prefixed(e, ws - {w}) + {[e] + w};
      forall w' | w' in ws - {w} ensures [e] + w' != [e] + w {
        assert ([e] + w)[1..] == w && ([e] + w')[1..] == w';
      }
    }
  }

  // ------------------------------------------------------------ the counts --

  /** How much of h a vertex v sees through one leg: h summed over the far ends of v's edges. */
  function PullVia(g: Graph, leg: Leg, h: seq<nat>, v: nat, k: nat): nat
    requires g.Valid() && |h| == g.order && k <= |g.edges|
  {
    if k == 0 then 0
    else PullVia(g, leg, h, v, k - 1) + if leg.Crosses(g.edges[k - 1], v) then h[leg.Far(g.edges[k - 1], v)] else 0
  }

  function Pull(g: Graph, leg: Leg, h: seq<nat>): (r: seq<nat>)
    requires g.Valid() && |h| == g.order
    ensures |r| == g.order && forall v :: 0 <= v < g.order ==> r[v] == PullVia(g, leg, h, v, |g.edges|)
  {
    seq(g.order, v requires 0 <= v < g.order => PullVia(g, leg, h, v, |g.edges|))
  }

  /** For every vertex, the number of ways to walk the legs from it. */
  function Completions(g: Graph, legs: seq<Leg>): (r: seq<nat>)
    requires g.Valid()
    ensures |r| == g.order
  {
    if legs == [] then Ones(g.order) else Pull(g, legs[0], Completions(g, legs[1..]))
  }

  lemma WalksViaNewEdge(g: Graph, legs: seq<Leg>, v: nat, k: nat, ws: set<seq<nat>>)
    requires k <= |g.edges| && legs != []
    ensures WalksVia(g, legs, v, k) !! Prefixed(k, ws)
  {
    forall w | w in Prefixed(k, ws) ensures w !in WalksVia(g, legs, v, k) {
      WalksViaAreWalks(g, legs, v, k, w);
    }
  }

  lemma {:induction false} WalksViaCount(g: Graph, legs: seq<Leg>, v: nat, k: nat)
    requires g.Valid() && legs != [] && v < g.order && k <= |g.edges|
    ensures |WalksVia(g, legs, v, k)| == PullVia(g, legs[0], Completions(g, legs[1..]), v, k)
    decreases |legs|, k
  {
    if k > 0 {
      WalksViaCount(g, legs, v, k - 1);
      var e := g.edges[k - 1];
      if legs[0].Crosses(e, v) {
        var rest := Walks(g, legs[1..], legs[0].Far(e, v));
        WalksCount(g, legs[1..], legs[0].Far(e, v));
        PrefixedSize(k - 1, rest);
        WalksViaNewEdge(g, legs, v, k - 1, rest);
        assert WalksVia(g, legs, v, k) == WalksVia(g, legs, v, k - 1) + Prefixed(k - 1, rest);
      }
    }
  }

  /** Counting through the legs counts walks. */
  lemma {:induction false} WalksCount(g: Graph, legs: seq<Leg>, v: nat)
    requires g.Valid() && v < g.order
    ensures |Walks(g, legs, v)| == Completions(g, legs)[v]
    decreases |legs|, |g.edges| + 1
  {
    if legs != [] {
      WalksViaCount(g, legs, v, |g.edges|);
    }
  }

  /** How much of f arrives at u when every vertex sends its amount over its edges: one direction. */
  function PassInto(g: Graph, leg: Leg, out: bool, f: seq<nat>, u: nat, k: nat): nat
    requires g.Valid() && |f| == g.order && k <= |g.edges|
  {
    if k == 0 then 0
    else
      var e := g.edges[k - 1];
      PassInto(g, leg, out, f, u, k - 1) + if leg.Uses(out, e) && Beyond(out, e) == u then f[Near(out, e)] else 0
  }

  function PushVia(g: Graph, leg: Leg, f: seq<nat>, k: nat): (r: seq<nat>)
    requires g.Valid() && |f| == g.order && k <= |g.edges|
    ensures |r| == g.order
    ensures forall u :: 0 <= u < g.order ==> r[u] == PassInto(g, leg, true, f, u, k) + PassInto(g, leg, false, f, u, k)
  {
    seq(g.order, u requires 0 <= u < g.order => PassInto(g, leg, true, f, u, k) + PassInto(g, leg, false, f, u, k))
  }

  /** One sweep of way counts: what each vertex holds after f has been walked over one leg. */
  function Push(g: Graph, leg: Leg, f: seq<nat>): (r: seq<nat>)
    requires g.Valid() && |f| == g.order
    ensures |r| == g.order
  {
    PushVia(g, leg, f, |g.edges|)
  }

  function PullVec(g: Graph, leg: Leg, h: seq<nat>, k: nat): (r: seq<nat>)
    requires g.Valid() && |h| == g.order && k <= |g.edges|
    ensures |r| == g.order && forall v :: 0 <= v < g.order ==> r[v] == PullVia(g, leg, h, v, k)
  {
    seq(g.order, v requires 0 <= v < g.order => PullVia(g, leg, h, v, k))
  }

  /** A vector raised at two places, one after the other. */
  lemma BumpTwice(d: seq<nat>, d': seq<nat>, h: seq<nat>, i: nat, a: nat, j: nat, b: nat)
    requires |d| == |d'| == |h| && i < |d| && j < |d|
    requires forall v :: 0 <= v < |d| ==> d'[v] == d[v] + (if v == i then a else 0) + if v == j then b else 0
    ensures Dot(d', h) == Dot(d, h) + a * h[i] + b * h[j]
  {
    var once := d[i := d[i] + a];
    DotBump(d, once, h, i, a);
    DotBump(once, d', h, j, b);
  }

  lemma PushStep(g: Graph, leg: Leg, f: seq<nat>, h: seq<nat>, k: nat)
    requires g.Valid() && |f| == |h| == g.order && k < |g.edges|
    ensures Dot(PushVia(g, leg, f, k + 1), h) == Dot(PushVia(g, leg, f, k), h) + EdgeFlow(g, leg, f, h, k)
  {
    var e := g.edges[k];
    var a := if leg.Uses(true, e) then f[e.from] else 0;
    var b := if leg.Uses(false, e) then f[e.to] else 0;
    hide Dot;
    BumpTwice(PushVia(g, leg, f, k), PushVia(g, leg, f, k + 1), h, e.to, a, e.from, b);
  }

  lemma PullStep(g: Graph, leg: Leg, f: seq<nat>, h: seq<nat>, k: nat)
    requires g.Valid() && |f| == |h| == g.order && k < |g.edges|
    ensures Dot(f, PullVec(g, leg, h, k + 1)) == Dot(f, PullVec(g, leg, h, k)) + EdgeFlow(g, leg, f, h, k)
  {
    var e := g.edges[k];
    var a := if leg.Uses(true, e) then h[e.to] else 0;
    var b := if leg.Uses(false, e) then h[e.from] else 0;
    BumpTwice(PullVec(g, leg, h, k), PullVec(g, leg, h, k + 1), f, e.from, a, e.to, b);
    DotCommutes(f, PullVec(g, leg, h, k));
    DotCommutes(f, PullVec(g, leg, h, k + 1));
  }

  /** What one edge carries from f to h. */
  function EdgeFlow(g: Graph, leg: Leg, f: seq<nat>, h: seq<nat>, k: nat): nat
    requires g.Valid() && |f| == |h| == g.order && k < |g.edges|
  {
    var e := g.edges[k];
    (if leg.Uses(true, e) then f[e.from] * h[e.to] else 0) + if leg.Uses(false, e) then f[e.to] * h[e.from] else 0
  }

  lemma {:induction false} ConservationVia(g: Graph, leg: Leg, f: seq<nat>, h: seq<nat>, k: nat)
    requires g.Valid() && |f| == |h| == g.order && k <= |g.edges|
    ensures Dot(PushVia(g, leg, f, k), h) == Dot(f, PullVec(g, leg, h, k))
  {
    if k == 0 {
      DotZeros(PushVia(g, leg, f, 0), h);
      DotZeros(PullVec(g, leg, h, 0), f);
      DotCommutes(f, PullVec(g, leg, h, 0));
    } else {
      ConservationVia(g, leg, f, h, k - 1);
      PushStep(g, leg, f, h, k - 1);
      PullStep(g, leg, f, h, k - 1);
    }
  }

  /** What the first k edges carry from f to h, one edge at a time. */
  function FlowSum(g: Graph, leg: Leg, f: seq<nat>, h: seq<nat>, k: nat): nat
    requires g.Valid() && |f| == |h| == g.order && k <= |g.edges|
  {
    if k == 0 then 0 else FlowSum(g, leg, f, h, k - 1) + EdgeFlow(g, leg, f, h, k - 1)
  }

  lemma {:induction false} FlowVia(g: Graph, leg: Leg, f: seq<nat>, h: seq<nat>, k: nat)
    requires g.Valid() && |f| == |h| == g.order && k <= |g.edges|
    ensures Dot(f, PullVec(g, leg, h, k)) == FlowSum(g, leg, f, h, k)
  {
    if k == 0 {
      DotZeros(PullVec(g, leg, h, 0), f);
      DotCommutes(f, PullVec(g, leg, h, 0));
    } else {
      FlowVia(g, leg, f, h, k - 1);
      PullStep(g, leg, f, h, k - 1);
    }
  }

  /** A product over one leg is a sum over the edges. */
  lemma FlowIsPull(g: Graph, leg: Leg, f: seq<nat>, h: seq<nat>)
    requires g.Valid() && |f| == |h| == g.order
    ensures Dot(f, Pull(g, leg, h)) == FlowSum(g, leg, f, h, |g.edges|)
  {
    FlowVia(g, leg, f, h, |g.edges|);
    assert PullVec(g, leg, h, |g.edges|) == Pull(g, leg, h);
  }

  /** CONSERVATION.  Sweeping the counts forward over a leg and then weighing the result by h is
      weighing the counts by what each vertex can see of h through the leg. */
  lemma Conservation(g: Graph, leg: Leg, f: seq<nat>, h: seq<nat>)
    requires g.Valid() && |f| == |h| == g.order
    ensures Dot(Push(g, leg, f), h) == Dot(f, Pull(g, leg, h))
  {
    ConservationVia(g, leg, f, h, |g.edges|);
    assert PullVec(g, leg, h, |g.edges|) == Pull(g, leg, h);
  }

  // ---------------------------------------------------------- the patterns --

  /** (start)-leg->(node)-leg->(node)... */
  datatype Pattern = Pattern(start: Node, legs: seq<Leg>)

  ghost predicate IsMatch(g: Graph, p: Pattern, m: (nat, seq<nat>)) {
    m.0 < g.order && p.start.Keeps(m.0) && IsWalk(g, p.legs, m.0, m.1)
  }

  ghost function MatchesVia(g: Graph, p: Pattern, k: nat): set<(nat, seq<nat>)> {
    if k == 0 then {}
    else if p.start.Keeps(k - 1) then MatchesVia(g, p, k - 1) + From(k - 1, Walks(g, p.legs, k - 1))
    else MatchesVia(g, p, k - 1)
  }

  ghost function From(v: nat, ws: set<seq<nat>>): set<(nat, seq<nat>)> {
    set w | w in ws :: (v, w)
  }

  /** The rows of `MATCH <pattern>`: a start vertex and a walk. */
  ghost function Matches(g: Graph, p: Pattern): set<(nat, seq<nat>)> {
    MatchesVia(g, p, g.order)
  }

  lemma {:induction false} MatchesViaAreMatches(g: Graph, p: Pattern, k: nat, m: (nat, seq<nat>))
    requires k <= g.order
    ensures m in MatchesVia(g, p, k) <==> IsMatch(g, p, m) && m.0 < k
  {
    if k > 0 {
      MatchesViaAreMatches(g, p, k - 1, m);
      WalksAreWalks(g, p.legs, k - 1, m.1);
    }
  }

  lemma MatchesAreMatches(g: Graph, p: Pattern, m: (nat, seq<nat>))
    ensures m in Matches(g, p) <==> IsMatch(g, p, m)
  {
    MatchesViaAreMatches(g, p, g.order, m);
  }

  lemma {:induction false} FromSize(v: nat, ws: set<seq<nat>>)
    ensures |From(v, ws)| == |ws|
  {
    if ws != {} {
      var w :| w in ws;
      FromSize(v, ws - {w});
      assert From(v, ws) == From(v, ws - {w}) + {(v, w)};
    }
  }

  /** h where the node keeps the vertex, 0 elsewhere. */
  function Mask(node: Node, h: seq<nat>): (r: seq<nat>)
    ensures |r| == |h| && forall v :: 0 <= v < |h| ==> r[v] == if node.Keeps(v) then h[v] else 0
  {
    seq(|h|, v requires 0 <= v < |h| => if node.Keeps(v) then h[v] else 0)
  }

  /** The answer of `RETURN count(*)`. */
  function Count(g: Graph, p: Pattern): nat
    requires g.Valid()
  {
    Sum(Mask(p.start, Completions(g, p.legs)))
  }

  lemma {:induction false} MatchesViaCount(g: Graph, p: Pattern, k: nat)
    requires g.Valid() && k <= g.order
    ensures |MatchesVia(g, p, k)| == Sum(Mask(p.start, Completions(g, p.legs))[..k])
  {
    if k > 0 {
      MatchesViaCount(g, p, k - 1);
      var c := Mask(p.start, Completions(g, p.legs));
      assert c[..k][..k - 1] == c[..k - 1];
      if p.start.Keeps(k - 1) {
        var ws := Walks(g, p.legs, k - 1);
        WalksCount(g, p.legs, k - 1);
        FromSize(k - 1, ws);
        MatchesViaNewStart(g, p, k - 1, ws);
        assert |MatchesVia(g, p, k - 1) + From(k - 1, ws)| == |MatchesVia(g, p, k - 1)| + |From(k - 1, ws)|;
      }
    }
  }

  lemma MatchesViaNewStart(g: Graph, p: Pattern, k: nat, ws: set<seq<nat>>)
    requires k <= g.order
    ensures MatchesVia(g, p, k) !! From(k, ws)
  {
    forall m | m in From(k, ws) ensures m !in MatchesVia(g, p, k) {
      MatchesViaAreMatches(g, p, k, m);
    }
  }

  /** The count is the number of rows. */
  lemma CountIsMatches(g: Graph, p: Pattern)
    requires g.Valid()
    ensures Count(g, p) == |Matches(g, p)|
  {
    MatchesViaCount(g, p, g.order);
    var c := Mask(p.start, Completions(g, p.legs));
    assert c[..g.order] == c;
  }

  // -------------------------------------------------------------- the cut --

  /** Way counts swept over every leg in turn. */
  function PushAll(g: Graph, legs: seq<Leg>, f: seq<nat>): (r: seq<nat>)
    requires g.Valid() && |f| == g.order
    ensures |r| == g.order
    decreases |legs|
  {
    if legs == [] then f else PushAll(g, legs[1..], Push(g, legs[0], f))
  }

  lemma {:induction false} PushAllCompletes(g: Graph, legs: seq<Leg>, rest: seq<Leg>, f: seq<nat>)
    requires g.Valid() && |f| == g.order
    ensures Dot(PushAll(g, legs, f), Completions(g, rest)) == Dot(f, Completions(g, legs + rest))
    decreases |legs|
  {
    if legs == [] {
      assert legs + rest == rest;
    } else {
      PushAllCompletes(g, legs[1..], rest, Push(g, legs[0], f));
      Conservation(g, legs[0], f, Completions(g, legs[1..] + rest));
      assert (legs + rest)[1..] == legs[1..] + rest;
    }
  }

  lemma {:induction false} DotMask(node: Node, h: seq<nat>)
    ensures Dot(Mask(node, Ones(|h|)), h) == Sum(Mask(node, h))
  {
    if h != [] {
      var m := |h| - 1;
      DotMask(node, h[..m]);
      assert Mask(node, Ones(|h|))[..m] == Mask(node, Ones(m));
      assert Mask(node, h)[..m] == Mask(node, h[..m]);
    }
  }

  /** The way counts a sweep has reached after walking the legs from the pattern's start. */
  function Ways(g: Graph, start: Node, legs: seq<Leg>): (r: seq<nat>)
    requires g.Valid()
    ensures |r| == g.order
  {
    PushAll(g, legs, Mask(start, Ones(g.order)))
  }

  /** THE CUT.  A chain may be cut at any position: its count is the ways to reach each vertex there
      times the ways to go on from it, summed over the vertices. */
  lemma Cut(g: Graph, start: Node, before: seq<Leg>, after: seq<Leg>)
    requires g.Valid()
    ensures Count(g, Pattern(start, before + after)) == Dot(Ways(g, start, before), Completions(g, after))
  {
    PushAllCompletes(g, before, after, Mask(start, Ones(g.order)));
    DotMask(start, Completions(g, before + after));
  }

  /** A full sweep: the way counts at the last position add up to the answer. */
  lemma SweepCounts(g: Graph, p: Pattern)
    requires g.Valid()
    ensures Count(g, p) == Sum(Ways(g, p.start, p.legs))
  {
    Cut(g, p.start, p.legs, []);
    DotOnes(Ways(g, p.start, p.legs));
    assert p.legs + [] == p.legs;
  }

  // --------------------------------------------------------- the reversal --

  /** The same chain written from its other end. */
  function Reverse(p: Pattern): (r: Pattern)
    ensures |r.legs| == |p.legs|
    decreases |p.legs|
  {
    if p.legs == [] then p
    else
      var leg := p.legs[0];
      var r := Reverse(Pattern(leg.node, p.legs[1..]));
      Pattern(r.start, r.legs + [Leg(leg.dir.Flip(), leg.types, p.start)])
  }

  lemma {:induction false} FlippedPass(g: Graph, leg: Leg, start: Node, h: seq<nat>, u: nat, k: nat)
    requires g.Valid() && |h| == g.order && u < g.order && k <= |g.edges|
    ensures var flipped, f := Leg(leg.dir.Flip(), leg.types, start), Mask(leg.node, h);
            PassInto(g, flipped, true, f, u, k) + PassInto(g, flipped, false, f, u, k)
            == if start.Keeps(u) then PullVia(g, leg, h, u, k) else 0
  {
    if k > 0 {
      FlippedPass(g, leg, start, h, u, k - 1);
    }
  }

  lemma FlippedPush(g: Graph, leg: Leg, start: Node, h: seq<nat>)
    requires g.Valid() && |h| == g.order
    ensures Push(g, Leg(leg.dir.Flip(), leg.types, start), Mask(leg.node, h)) == Mask(start, Pull(g, leg, h))
  {
    forall u | 0 <= u < g.order
      ensures Push(g, Leg(leg.dir.Flip(), leg.types, start), Mask(leg.node, h))[u] == Mask(start, Pull(g, leg, h))[u]
    {
      FlippedPass(g, leg, start, h, u, |g.edges|);
    }
  }

  lemma {:induction false} PushAllAppend(g: Graph, legs: seq<Leg>, leg: Leg, f: seq<nat>)
    requires g.Valid() && |f| == g.order
    ensures PushAll(g, legs + [leg], f) == Push(g, leg, PushAll(g, legs, f))
    decreases |legs|
  {
    if legs == [] {
      assert legs + [leg] == [leg];
      assert PushAll(g, [leg][1..], Push(g, leg, f)) == Push(g, leg, f);
    } else {
      assert (legs + [leg])[1..] == legs[1..] + [leg];
      PushAllAppend(g, legs[1..], leg, Push(g, legs[0], f));
    }
  }

  /** Sweeping the reversed chain leaves at each start vertex the ways to complete the chain. */
  lemma {:induction false} ReverseWays(g: Graph, p: Pattern)
    requires g.Valid()
    ensures Ways(g, Reverse(p).start, Reverse(p).legs) == Mask(p.start, Completions(g, p.legs))
    decreases |p.legs|
  {
    if p.legs != [] {
      var leg := p.legs[0];
      var rest := Pattern(leg.node, p.legs[1..]);
      var r := Reverse(rest);
      ReverseWays(g, rest);
      PushAllAppend(g, r.legs, Leg(leg.dir.Flip(), leg.types, p.start), Mask(r.start, Ones(g.order)));
      FlippedPush(g, leg, p.start, Completions(g, rest.legs));
    }
  }

  /** REVERSAL.  A chain and its reversed spelling have the same number of matches. */
  lemma ReverseCounts(g: Graph, p: Pattern)
    requires g.Valid()
    ensures Count(g, Reverse(p)) == Count(g, p)
    ensures |Matches(g, Reverse(p))| == |Matches(g, p)|
  {
    SweepCounts(g, Reverse(p));
    ReverseWays(g, p);
    CountIsMatches(g, p);
    CountIsMatches(g, Reverse(p));
  }

  // -------------------------------------------------- where matches end --

  /** The vertex a walk ends on. */
  function End(g: Graph, legs: seq<Leg>, v: nat, w: seq<nat>): nat
    requires IsWalk(g, legs, v, w)
  {
    if legs == [] then v else End(g, legs[1..], legs[0].Far(g.edges[w[0]], v), w[1..])
  }

  /** The node cut down to one vertex. */
  function Only(node: Node, u: nat): Node {
    Node(node.labels, Some(if Passes(node.gate, u) then {u} else {}))
  }

  /** The legs with the last one made to land on u. */
  function LandingAt(legs: seq<Leg>, u: nat): (r: seq<Leg>)
    requires legs != []
    ensures |r| == |legs|
  {
    var last := legs[|legs| - 1];
    legs[..|legs| - 1] + [Leg(last.dir, last.types, Only(last.node, u))]
  }

  lemma {:induction false} LandingAtWalks(g: Graph, legs: seq<Leg>, u: nat, v: nat, w: seq<nat>)
    requires legs != []
    ensures IsWalk(g, LandingAt(legs, u), v, w) <==> IsWalk(g, legs, v, w) && End(g, legs, v, w) == u
  {
    var l := LandingAt(legs, u);
    if |legs| == 1 {
      assert l[1..] == [] && legs[1..] == [];
    } else {
      assert l[1..] == LandingAt(legs[1..], u) && l[0] == legs[0];
      if w != [] && w[0] < |g.edges| && legs[0].Crosses(g.edges[w[0]], v) {
        LandingAtWalks(g, legs[1..], u, legs[0].Far(g.edges[w[0]], v), w[1..]);
      }
    }
  }

  lemma {:induction false} OnlyPass(g: Graph, leg: Leg, u: nat, out: bool, f: seq<nat>, x: nat, k: nat)
    requires g.Valid() && |f| == g.order && k <= |g.edges|
    ensures PassInto(g, Leg(leg.dir, leg.types, Only(leg.node, u)), out, f, x, k)
            == if x == u then PassInto(g, leg, out, f, x, k) else 0
  {
    if k > 0 {
      OnlyPass(g, leg, u, out, f, x, k - 1);
    }
  }

  lemma {:induction false} SumOfOne(f: seq<nat>, u: nat)
    requires u < |f| && forall x :: 0 <= x < |f| && x != u ==> f[x] == 0
    ensures Sum(f) == f[u]
  {
    if u == |f| - 1 {
      SumOfZeros(f[..u]);
    } else {
      SumOfOne(f[..|f| - 1], u);
    }
  }

  lemma {:induction false} SumOfZeros(f: seq<nat>)
    requires forall x :: 0 <= x < |f| ==> f[x] == 0
    ensures Sum(f) == 0
  {
    if f != [] {
      SumOfZeros(f[..|f| - 1]);
    }
  }

  /** After a sweep over the legs, u holds the number of matches that end on u. */
  lemma WaysCountMatches(g: Graph, p: Pattern, u: nat)
    requires g.Valid() && u < g.order && p.legs != []
    ensures Ways(g, p.start, p.legs)[u] == |Matches(g, Pattern(p.start, LandingAt(p.legs, u)))|
    ensures forall m :: m in Matches(g, Pattern(p.start, LandingAt(p.legs, u)))
                        <==> IsMatch(g, p, m) && End(g, p.legs, m.0, m.1) == u
  {
    var n := |p.legs| - 1;
    var last, q := p.legs[n], Pattern(p.start, LandingAt(p.legs, u));
    var only := Leg(last.dir, last.types, Only(last.node, u));
    var f := Mask(p.start, Ones(g.order));
    PushAllAppend(g, p.legs[..n], last, f);
    PushAllAppend(g, p.legs[..n], only, f);
    assert p.legs == p.legs[..n] + [last];
    var before := PushAll(g, p.legs[..n], f);
    forall x | 0 <= x < g.order
      ensures Push(g, only, before)[x] == if x == u then Push(g, last, before)[x] else 0
    {
      OnlyPass(g, last, u, true, before, x, |g.edges|);
      OnlyPass(g, last, u, false, before, x, |g.edges|);
    }
    SumOfOne(Ways(g, q.start, q.legs), u);
    SweepCounts(g, q);
    CountIsMatches(g, q);
    forall m: (nat, seq<nat>)
      ensures m in Matches(g, q) <==> IsMatch(g, p, m) && End(g, p.legs, m.0, m.1) == u
    {
      MatchesAreMatches(g, q, m);
      LandingAtWalks(g, p.legs, u, m.0, m.1);
    }
  }

  /** Reading the reversal by position: leg j is leg n - 1 - j flipped, landing where that one set out. */
  lemma {:induction false} ReverseAt(p: Pattern, j: nat)
    requires j < |p.legs|
    ensures Reverse(p).start == NodeAt(p, |p.legs|)
    ensures var i := |p.legs| - 1 - j;
            Reverse(p).legs[j] == Leg(p.legs[i].dir.Flip(), p.legs[i].types, NodeAt(p, i))
    decreases |p.legs|
  {
    var rest := Pattern(p.legs[0].node, p.legs[1..]);
    if |rest.legs| > 0 {
      var j' := if j < |rest.legs| then j else 0;
      ReverseAt(rest, j');
    }
  }

  /** The node at position i: the start, or where leg i - 1 lands. */
  function NodeAt(p: Pattern, i: nat): Node
    requires i <= |p.legs|
  {
    if i == 0 then p.start else p.legs[i - 1].node
  }
}
