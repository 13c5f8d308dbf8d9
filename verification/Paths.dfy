/** The matches of a pattern, told from the edges alone: a match is a path, and its edges. */
module Paths {
  import opened Options
  import opened Multigraph

  ghost predicate OfType(types: Option<set<string>>, e: Edge) {
    exists t :: t in e.types && (types.None? || t in types.value)
  }

  predicate At(node: Node, x: nat) {
    && (node.labels.Some? ==> x in node.labels.value)
    && (node.gate.Some? ==> x in node.gate.value)
  }

  /** Edge e leads from x to y: along its arrow for a leg that goes out, against it for one that goes in, either way
      for one that goes both. */
  ghost predicate Leads(g: Graph, leg: Leg, x: nat, e: nat, y: nat) {
    && e < |g.edges| && OfType(leg.types, g.edges[e]) && At(leg.node, y)
    && match leg.dir
       case Out => g.edges[e].from == x && g.edges[e].to == y
       case In => g.edges[e].to == x && g.edges[e].from == y
       case Both => (g.edges[e].from == x && g.edges[e].to == y) || (g.edges[e].to == x && g.edges[e].from == y)
  }

  /** The vertices xs and the edges w between them are a path along the legs. */
  ghost predicate IsPath(g: Graph, legs: seq<Leg>, xs: seq<nat>, w: seq<nat>) {
    && |w| == |legs| && |xs| == |legs| + 1
    && forall i: nat | i < |legs| :: Leads(g, legs[i], xs[i], w[i], xs[i + 1])
  }

  ghost predicate HasPath(g: Graph, legs: seq<Leg>, v: nat, w: seq<nat>) {
    exists xs: seq<nat> :: IsPath(g, legs, xs, w) && xs[0] == v
  }

  lemma CrossingLeads(g: Graph, leg: Leg, x: nat, e: nat, y: nat)
    requires e < |g.edges|
    ensures Leads(g, leg, x, e, y) <==> leg.Crosses(g.edges[e], x) && leg.Far(g.edges[e], x) == y
  {
    assert OfType(leg.types, g.edges[e]) <==> leg.Admits(g.edges[e]) by {
      OfTypeIs(leg.types, g.edges[e]);
    }
    hide OfType, TypeAdmits;
  }

  lemma OfTypeIs(types: Option<set<string>>, e: Edge)
    ensures OfType(types, e) <==> TypeAdmits(types, e)
  {
    if OfType(types, e) && types.Some? {
      var t :| t in e.types && t in types.value;
      assert t in e.types * types.value;
    }
    if TypeAdmits(types, e) {
      var t :| t in if types.None? then e.types else e.types * types.value;
    }
  }

  lemma PathHead(g: Graph, legs: seq<Leg>, xs: seq<nat>, w: seq<nat>)
    requires legs != [] && IsPath(g, legs, xs, w)
    ensures Leads(g, legs[0], xs[0], w[0], xs[1]) && IsPath(g, legs[1..], xs[1..], w[1..])
  {
    forall i: nat | i < |legs[1..]| ensures Leads(g, legs[1..][i], xs[1..][i], w[1..][i], xs[1..][i + 1]) {
      assert Leads(g, legs[i + 1], xs[i + 1], w[i + 1], xs[i + 2]);
    }
  }

  lemma PathBefore(g: Graph, legs: seq<Leg>, x: nat, xs: seq<nat>, w: seq<nat>)
    requires legs != [] && w != [] && IsPath(g, legs[1..], xs, w[1..]) && Leads(g, legs[0], x, w[0], xs[0])
    ensures IsPath(g, legs, [x] + xs, w)
  {
    forall i: nat | i < |legs| ensures Leads(g, legs[i], ([x] + xs)[i], w[i], ([x] + xs)[i + 1]) {
      if i > 0 {
        assert Leads(g, legs[1..][i - 1], xs[i - 1], w[1..][i - 1], xs[i]);
      }
    }
  }

  /** A walk is a path's edges. */
  lemma {:induction false} WalkIsPath(g: Graph, legs: seq<Leg>, v: nat, w: seq<nat>)
    ensures IsWalk(g, legs, v, w) <==> HasPath(g, legs, v, w)
    decreases |legs|
  {
    if legs == [] {
      if w == [] {
        assert IsPath(g, legs, [v], w);
      }
    } else {
      if IsWalk(g, legs, v, w) {
        var y := legs[0].Far(g.edges[w[0]], v);
        WalkIsPath(g, legs[1..], y, w[1..]);
        var xs :| IsPath(g, legs[1..], xs, w[1..]) && xs[0] == y;
        CrossingLeads(g, legs[0], v, w[0], y);
        PathBefore(g, legs, v, xs, w);
        assert ([v] + xs)[0] == v;
      }
      if HasPath(g, legs, v, w) {
        var xs :| IsPath(g, legs, xs, w) && xs[0] == v;
        PathHead(g, legs, xs, w);
        CrossingLeads(g, legs[0], v, w[0], xs[1]);
        assert xs[1..][0] == xs[1];
        WalkIsPath(g, legs[1..], xs[1], w[1..]);
      }
    }
  }

  /** The matches that every count counts are the paths of the pattern: a start that fits, and the edges of a path from
      it along the legs, parallel edges told apart. */
  lemma MatchesArePaths(g: Graph, p: Pattern, v: nat, w: seq<nat>)
    requires g.Valid()
    ensures (v, w) in Matches(g, p) <==> v < g.order && At(p.start, v) && HasPath(g, p.legs, v, w)
  {
    MatchesAreMatches(g, p, (v, w));
    WalkIsPath(g, p.legs, v, w);
  }
}
