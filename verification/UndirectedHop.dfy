/** The engine's count of an unconstrained undirected hop: bucket sizes when nothing narrows it, one
    pass over the type buckets otherwise - and exactly when that is the number of matches. */
module UndirectedHop {
  import opened Options
  import opened Vectors
  import opened Multigraph
  import opened ChainSweep
  import opened DegreeCounts

  /** How many entries of the list are types of e. */
  function Occurrences(list: seq<string>, e: Edge): nat {
    if list == [] then 0
    else Occurrences(list[..|list| - 1], e) + if list[|list| - 1] in e.types then 1 else 0
  }

  /** How often the pass over these buckets counts e: once with the seen set, else once a bucket. */
  function Visits(list: seq<string>, dedupe: bool, e: Edge): nat {
    if dedupe && Occurrences(list, e) > 1 then 1 else Occurrences(list, e)
  }

  function VisitVec(g: Graph, list: seq<string>, dedupe: bool): (r: seq<nat>)
    ensures |r| == |g.edges| && forall i :: 0 <= i < |r| ==> r[i] == Visits(list, dedupe, g.edges[i])
  {
    seq(|g.edges|, i requires 0 <= i < |g.edges| => Visits(list, dedupe, g.edges[i]))
  }

  function RowVec(g: Graph, start: Node, end: Node): (r: seq<nat>)
    ensures |r| == |g.edges| && forall i :: 0 <= i < |r| ==> r[i] == Orientations(start, end, g.edges[i])
  {
    seq(|g.edges|, i requires 0 <= i < |g.edges| => Orientations(start, end, g.edges[i]))
  }

  predicate MultiTypeEdges(g: Graph) {
    exists i | 0 <= i < |g.edges| :: |g.edges[i].types| > 1
  }

  /** May the per-type bucket sizes be summed?  Never asked of an untyped hop. */
  predicate PerType(g: Graph, types: Option<seq<string>>) {
    types.Some? && (|types.value| == 1 || !MultiTypeEdges(g))
  }

  /** The buckets the pass goes through, and whether it keeps a seen set. */
  function Buckets(labelOrder: seq<string>, types: Option<seq<string>>): seq<string> {
    if types.None? then labelOrder else types.value
  }

  predicate Dedupes(g: Graph, types: Option<seq<string>>) {
    !(PerType(g, types) || types.None?)
  }

  /** What the function answers. */
  function Answer(g: Graph, labelOrder: seq<string>, types: Option<seq<string>>, aLabel: Filter, bLabel: Filter): nat {
    Dot(RowVec(g, Node(aLabel, None), Node(bLabel, None)), VisitVec(g, Buckets(labelOrder, types), Dedupes(g, types)))
  }

  // ------------------------------------------------------------- the method --

  lemma {:induction false} SizeStep(g: Graph, start: Node, end: Node, list: seq<string>, t: string, k: nat)
    requires g.Valid() && k <= |g.edges|
    requires forall v :: 0 <= v < g.order ==> start.Keeps(v) && end.Keeps(v)
    ensures Dot(RowVec(g, start, end)[..k], VisitVec(g, list + [t], false)[..k])
            == Dot(RowVec(g, start, end)[..k], VisitVec(g, list, false)[..k]) + 2 * EdgesOfType(g, t, k) - LoopsOfType(g, t, k)
  {
    if k > 0 {
      var rows := RowVec(g, start, end);
      var before, after := VisitVec(g, list, false), VisitVec(g, list + [t], false);
      SizeStep(g, start, end, list, t, k - 1);
      assert rows[..k][..k - 1] == rows[..k - 1];
      assert before[..k][..k - 1] == before[..k - 1] && after[..k][..k - 1] == after[..k - 1];
      assert (list + [t])[..|list|] == list;
      var hit := if t in g.edges[k - 1].types then 1 else 0;
      assert after[k - 1] == before[k - 1] + hit;
      OneMore(rows[k - 1], before[k - 1], hit);
    }
  }

  lemma OneMore(row: nat, visits: nat, hit: nat)
    requires hit <= 1
    ensures row * (visits + hit) == row * visits + if hit == 1 then row else 0
  {
  }

  /** The O(1) route: twice each bucket, less its loops. */
  method SumBucketSizes(g: Graph, start: Node, end: Node, list: seq<string>) returns (n: int)
    requires g.Valid() && forall v :: 0 <= v < g.order ==> start.Keeps(v) && end.Keeps(v)
    ensures n == Dot(RowVec(g, start, end), VisitVec(g, list, false))
  {
    n := 0;
    DotZeros(VisitVec(g, [], false), RowVec(g, start, end));
    DotCommutes(RowVec(g, start, end), VisitVec(g, [], false));
    for j := 0 to |list|
      invariant n == Dot(RowVec(g, start, end), VisitVec(g, list[..j], false))
    {
      assert list[..j + 1] == list[..j] + [list[j]];
      SizeStep(g, start, end, list[..j], list[j], |g.edges|);
      assert RowVec(g, start, end)[..|g.edges|] == RowVec(g, start, end);
      assert forall l :: VisitVec(g, l, false)[..|g.edges|] == VisitVec(g, l, false);
      n := n + 2 * EdgesOfType(g, list[j], |g.edges|) - LoopsOfType(g, list[j], |g.edges|);
    }
    assert list[..|list|] == list;
  }

  /** The positions of a type's edges: `edgesByLabel.get(t)`. */
  function BucketVia(g: Graph, t: string, k: nat): (r: seq<nat>)
    requires k <= |g.edges|
    ensures forall i: nat :: i in r <==> i < k && t in g.edges[i].types
    ensures forall i, j :: 0 <= i < j < |r| ==> r[i] != r[j]
  {
    if k == 0 then []
    else if t in g.edges[k - 1].types then BucketVia(g, t, k - 1) + [k - 1]
    else BucketVia(g, t, k - 1)
  }

  /** One bucket of the pass. */
  method ScanBucket(g: Graph, a: Filter, b: Filter, t: string, dedupe: bool, seen: set<nat>, ghost visits: seq<nat>)
      returns (n: nat, seen': set<nat>, ghost visits': seq<nat>)
    requires g.Valid() && |visits| == |g.edges|
    requires forall i: nat :: i in seen <==> i < |g.edges| && visits[i] > 0
    requires dedupe ==> forall i :: 0 <= i < |visits| ==> visits[i] <= 1
    ensures |visits'| == |g.edges|
    ensures forall i: nat :: i in seen' <==> i < |g.edges| && visits'[i] > 0
    ensures forall i :: 0 <= i < |visits| ==>
              visits'[i] == if t !in g.edges[i].types || (dedupe && visits[i] > 0) then visits[i] else visits[i] + 1
    ensures n + Dot(visits, RowVec(g, Node(a, None), Node(b, None))) == Dot(visits', RowVec(g, Node(a, None), Node(b, None)))
  {
    ghost var rows := RowVec(g, Node(a, None), Node(b, None));
    n, seen', visits' := 0, seen, visits;
    var bucket := BucketVia(g, t, |g.edges|);
    for j := 0 to |bucket|
      invariant |visits'| == |g.edges|
      invariant forall i: nat :: i in seen' <==> i < |g.edges| && visits'[i] > 0
      invariant forall i :: 0 <= i < |visits| ==>
                  visits'[i] == if i !in bucket[..j] || (dedupe && visits[i] > 0) then visits[i] else visits[i] + 1
      invariant n + Dot(visits, rows) == Dot(visits', rows)
    {
      var i := bucket[j];
      assert i in bucket && bucket[..j + 1] == bucket[..j] + [i];
      if !(dedupe && i in seen') {
        seen' := seen' + {i};
        var e := g.edges[i];
        if Passes(a, e.from) && Passes(b, e.to) {
          n := n + 1;
        }
        if e.from != e.to && Passes(a, e.to) && Passes(b, e.from) {
          n := n + 1;
        }
        DotBump(visits', visits'[i := visits'[i] + 1], rows, i, 1);
        visits' := visits'[i := visits'[i] + 1];
      }
    }
    assert bucket[..|bucket|] == bucket;
  }

  /** The pass over the buckets, with a seen set when an edge may sit in two of them. */
  method ScanBuckets(g: Graph, a: Filter, b: Filter, list: seq<string>, dedupe: bool) returns (n: nat)
    requires g.Valid()
    ensures n == Dot(RowVec(g, Node(a, None), Node(b, None)), VisitVec(g, list, dedupe))
  {
    var seen: set<nat> := {};
    ghost var visits := VisitVec(g, [], dedupe);
    ghost var rows := RowVec(g, Node(a, None), Node(b, None));
    n := 0;
    DotZeros(visits, rows);
    for j := 0 to |list|
      invariant visits == VisitVec(g, list[..j], dedupe)
      invariant forall i: nat :: i in seen <==> i < |g.edges| && visits[i] > 0
      invariant n == Dot(visits, rows)
    {
      var m: nat;
      ghost var after;
      m, seen, after := ScanBucket(g, a, b, list[j], dedupe, seen, visits);
      VisitsNext(g, list, dedupe, j, visits, after);
      n, visits := n + m, after;
    }
    assert list[..|list|] == list;
    DotCommutes(visits, rows);
  }

  lemma VisitsNext(g: Graph, list: seq<string>, dedupe: bool, j: nat, visits: seq<nat>, after: seq<nat>)
    requires j < |list| && visits == VisitVec(g, list[..j], dedupe) && |after| == |visits|
    requires forall i :: 0 <= i < |visits| ==>
               after[i] == if list[j] !in g.edges[i].types || (dedupe && visits[i] > 0) then visits[i] else visits[i] + 1
    ensures after == VisitVec(g, list[..j + 1], dedupe)
  {
    assert list[..j + 1][..j] == list[..j];
  }

  /** `MATCH (:A)-[:T]-(:B) RETURN count(*)`, as the engine answers it. */
  method UndirectedHopCount(g: Graph, labelOrder: seq<string>, types: Option<seq<string>>, aLabel: Filter, bLabel: Filter)
      returns (n: int)
    requires g.Valid() && Wellformed(g, aLabel) && Wellformed(g, bLabel)
    ensures n == Answer(g, labelOrder, types, aLabel, bLabel)
  {
    var a, b := Effective(g, aLabel), Effective(g, bLabel);
    EffectiveRows(g, aLabel, bLabel);
    var perType := PerType(g, types);
    if a.None? && b.None? && perType {
      n := SumBucketSizes(g, Node(a, None), Node(b, None), types.value);
    } else {
      n := ScanBuckets(g, a, b, Buckets(labelOrder, types), !(perType || types.None?));
    }
  }

  lemma EffectiveRows(g: Graph, aLabel: Filter, bLabel: Filter)
    requires g.Valid() && Wellformed(g, aLabel) && Wellformed(g, bLabel)
    ensures RowVec(g, Node(Effective(g, aLabel), None), Node(Effective(g, bLabel), None))
            == RowVec(g, Node(aLabel, None), Node(bLabel, None))
  {
    forall v | 0 <= v < g.order
      ensures Passes(Effective(g, aLabel), v) == Passes(aLabel, v) && Passes(Effective(g, bLabel), v) == Passes(bLabel, v)
    {
      EffectiveKeeps(g, aLabel, v);
      EffectiveKeeps(g, bLabel, v);
    }
  }

  // ----------------------------------------------------- when it is right --

  function TypeSet(types: Option<seq<string>>): Option<set<string>> {
    if types.None? then None else Some(set t | t in types.value)
  }

  /** The pattern that was asked. */
  function Asked(types: Option<seq<string>>, aLabel: Filter, bLabel: Filter): Pattern {
    OneHop(Node(aLabel, None), Both, TypeSet(types), Node(bLabel, None))
  }

  /** The index holds a bucket for every type an edge carries, once. */
  ghost predicate Lists(g: Graph, labelOrder: seq<string>) {
    && (forall i, j :: 0 <= i < j < |labelOrder| ==> labelOrder[i] != labelOrder[j])
    && (forall i, t | 0 <= i < |g.edges| && t in g.edges[i].types :: t in labelOrder)
  }

  function AdmitVec(g: Graph, types: Option<seq<string>>): (r: seq<nat>)
    ensures |r| == |g.edges|
    ensures forall i :: 0 <= i < |r| ==> r[i] == if TypeAdmits(TypeSet(types), g.edges[i]) then 1 else 0
  {
    seq(|g.edges|, i requires 0 <= i < |g.edges| => if TypeAdmits(TypeSet(types), g.edges[i]) then 1 else 0)
  }

  lemma {:induction false} AskedVia(g: Graph, types: Option<seq<string>>, start: Node, end: Node, k: nat)
    requires k <= |g.edges|
    ensures OrientationSum(g, TypeSet(types), start, end, k) == Dot(RowVec(g, start, end)[..k], AdmitVec(g, types)[..k])
  {
    if k > 0 {
      AskedVia(g, types, start, end, k - 1);
      assert RowVec(g, start, end)[..k][..k - 1] == RowVec(g, start, end)[..k - 1];
      assert AdmitVec(g, types)[..k][..k - 1] == AdmitVec(g, types)[..k - 1];
    }
  }

  lemma {:induction false} OccursInTypes(list: seq<string>, e: Edge)
    ensures Occurrences(list, e) > 0 <==> exists t :: t in list && t in e.types
  {
    if list != [] {
      OccursInTypes(list[..|list| - 1], e);
      assert list == list[..|list| - 1] + [list[|list| - 1]];
    }
  }

  /** Every edge the hop walks is visited, and no other. */
  lemma VisitedAreAdmitted(g: Graph, labelOrder: seq<string>, types: Option<seq<string>>, i: nat)
    requires i < |g.edges| && Lists(g, labelOrder)
    ensures Visits(Buckets(labelOrder, types), Dedupes(g, types), g.edges[i]) > 0 <==> TypeAdmits(TypeSet(types), g.edges[i])
  {
    var e := g.edges[i];
    OccursInTypes(Buckets(labelOrder, types), e);
    if types.None? {
      if e.types != {} {
        var t :| t in e.types;
      }
    } else {
      assert forall t :: t in types.value && t in e.types ==> t in e.types * TypeSet(types).value;
      if e.types * TypeSet(types).value != {} {
        var t :| t in e.types * TypeSet(types).value;
      }
    }
  }

  lemma {:induction false} DotDominates(rows: seq<nat>, visits: seq<nat>, admits: seq<nat>)
    requires |rows| == |visits| == |admits| && forall i :: 0 <= i < |rows| ==> visits[i] >= admits[i]
    ensures Dot(rows, visits) >= Dot(rows, admits)
    ensures Dot(rows, visits) == Dot(rows, admits) <==> forall i :: 0 <= i < |rows| && visits[i] > admits[i] ==> rows[i] == 0
  {
    if rows != [] {
      var m := |rows| - 1;
      DotDominates(rows[..m], visits[..m], admits[..m]);
      var d := visits[m] - admits[m];
      assert rows[m] * visits[m] == rows[m] * admits[m] + rows[m] * d;
      assert rows[m] > 0 && d > 0 ==> rows[m] * d > 0;
    }
  }

  /** An edge that is counted more than once: it fits the ends, and sits in several of the buckets
      the pass goes through without a seen set. */
  ghost predicate CountedTwice(g: Graph, labelOrder: seq<string>, types: Option<seq<string>>, aLabel: Filter, bLabel: Filter, i: nat)
    requires i < |g.edges|
  {
    && Orientations(Node(aLabel, None), Node(bLabel, None), g.edges[i]) > 0
    && !Dedupes(g, types) && Occurrences(Buckets(labelOrder, types), g.edges[i]) > 1
  }

  /** The engine's answer is never below the number of matches, and is that number exactly when no
      edge is counted twice. */
  lemma ExactWhenNothingIsCountedTwice(g: Graph, labelOrder: seq<string>, types: Option<seq<string>>, aLabel: Filter, bLabel: Filter)
    requires g.Valid() && Lists(g, labelOrder)
    ensures Answer(g, labelOrder, types, aLabel, bLabel) >= |Matches(g, Asked(types, aLabel, bLabel))|
    ensures Answer(g, labelOrder, types, aLabel, bLabel) == |Matches(g, Asked(types, aLabel, bLabel))|
            <==> forall i: nat | i < |g.edges| :: !CountedTwice(g, labelOrder, types, aLabel, bLabel, i)
  {
    var start, end := Node(aLabel, None), Node(bLabel, None);
    var rows, admits := RowVec(g, start, end), AdmitVec(g, types);
    var visits := VisitVec(g, Buckets(labelOrder, types), Dedupes(g, types));
    UndirectedRows(g, TypeSet(types), start, end);
    AskedVia(g, types, start, end, |g.edges|);
    assert rows[..|g.edges|] == rows && admits[..|g.edges|] == admits;
    forall i: nat | i < |g.edges| ensures visits[i] > 0 <==> admits[i] == 1 {
      VisitedAreAdmitted(g, labelOrder, types, i);
    }
    DotDominates(rows, visits, admits);
    forall i: nat | i < |g.edges|
      ensures visits[i] > admits[i] && rows[i] > 0 <==> CountedTwice(g, labelOrder, types, aLabel, bLabel, i)
    {
    }
  }

  lemma {:induction false} OccursAtMost(list: seq<string>, e: Edge)
    requires forall i, j :: 0 <= i < j < |list| ==> list[i] != list[j]
    requires |e.types| <= 1
    ensures Occurrences(list, e) <= 1
  {
    if list != [] {
      var m := |list| - 1;
      OccursAtMost(list[..m], e);
      OccursInTypes(list[..m], e);
      if list[m] in e.types && Occurrences(list[..m], e) > 0 {
        var t :| t in list[..m] && t in e.types;
        assert {t, list[m]} <= e.types;
        PairSize(t, list[m], e.types);
      }
    }
  }

  lemma PairSize(t: string, u: string, s: set<string>)
    requires t in s && u in s && t != u
    ensures |s| >= 2
  {
    assert |s - {t}| == |s| - 1 && u in s - {t};
  }

  /** A typed hop that names each type once is always counted right. */
  lemma ExactForDistinctTypes(g: Graph, labelOrder: seq<string>, types: Option<seq<string>>, aLabel: Filter, bLabel: Filter)
    requires g.Valid() && Lists(g, labelOrder)
    requires types.Some? && forall i, j :: 0 <= i < j < |types.value| ==> types.value[i] != types.value[j]
    ensures Answer(g, labelOrder, types, aLabel, bLabel) == |Matches(g, Asked(types, aLabel, bLabel))|
  {
    ExactWhenNothingIsCountedTwice(g, labelOrder, types, aLabel, bLabel);
    forall i: nat | i < |g.edges| ensures !CountedTwice(g, labelOrder, types, aLabel, bLabel, i) {
      if |types.value| == 1 {
        assert types.value[..0] == [];
        assert Occurrences(types.value, g.edges[i]) <= 1;
      } else if !MultiTypeEdges(g) {
        OccursAtMost(types.value, g.edges[i]);
      }
    }
  }

  lemma DotOfOne(x: nat, y: nat)
    ensures Dot([x], [y]) == x * y
  {
    assert [x][..0] == [] && [y][..0] == [];
  }

  lemma OccurrencesOfTwo(t: string, u: string, e: Edge)
    ensures Occurrences([t, u], e) == (if t in e.types then 1 else 0) + if u in e.types then 1 else 0
  {
    assert [t, u][..1] == [t] && [t][..0] == [];
    assert Occurrences([], e) == 0;
    assert Occurrences([t], e) == if t in e.types then 1 else 0;
  }

  /** A graph of one edge between two vertices, counted without a label and without a seen set, from
      two buckets the edge is in. */
  lemma OneEdgeTwoBuckets(e: Edge, t: string, u: string)
    requires e.from == 0 && e.to == 1 && t in e.types && u in e.types
    ensures Dot(RowVec(Graph(2, [e]), Node(None, None), Node(None, None)), VisitVec(Graph(2, [e]), [t, u], false)) == 4
  {
    OccurrencesOfTwo(t, u, e);
    assert RowVec(Graph(2, [e]), Node(None, None), Node(None, None)) == [2];
    assert VisitVec(Graph(2, [e]), [t, u], false) == [2];
    DotOfOne(2, 2);
  }

  lemma OneEdgeRows(e: Edge, types: Option<set<string>>)
    requires e.from == 0 && e.to == 1 && TypeAdmits(types, e)
    ensures |Matches(Graph(2, [e]), OneHop(Node(None, None), Both, types, Node(None, None)))| == 2
  {
    var g := Graph(2, [e]);
    UndirectedRows(g, types, Node(None, None), Node(None, None));
    assert OrientationSum(g, types, Node(None, None), Node(None, None), 0) == 0;
    assert Orientations(Node(None, None), Node(None, None), e) == 2;
  }

  const TWIN := Graph(2, [Edge(0, 1, {"S", "T"})])

  /** An untyped hop over an edge of two types answers 4 for its 2 rows. */
  lemma UntypedCountsTwice()
    ensures Answer(TWIN, ["S", "T"], None, None, None) == 4
    ensures |Matches(TWIN, Asked(None, None, None))| == 2
  {
    OneEdgeTwoBuckets(TWIN.edges[0], "S", "T");
    OneEdgeRows(TWIN.edges[0], None);
  }

  const SINGLE := Graph(2, [Edge(0, 1, {"T"})])

  /** An alternation that repeats a type answers 4 for its 2 rows. */
  lemma RepeatedTypeCountsTwice()
    ensures Answer(SINGLE, ["T"], Some(["T", "T"]), None, None) == 4
    ensures |Matches(SINGLE, Asked(Some(["T", "T"]), None, None))| == 2
  {
    var e := SINGLE.edges[0];
    OneEdgeTwoBuckets(e, "T", "T");
    assert |e.types| == 1;
    assert "T" in e.types * TypeSet(Some(["T", "T"])).value;
    OneEdgeRows(e, TypeSet(Some(["T", "T"])));
  }
}
