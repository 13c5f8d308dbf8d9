/** Counting the walks of a fixed number of hops by carrying way counts forward, with three
    different accumulators: a map keyed by vertex, a pair of swapped arrays over a dense index of
    the start bucket, and scratch fields on the vertices themselves. */
module WalkCount {
  import opened Collections
  import opened Options
  import opened Vectors
  import opened Multigraph
  import opened Adjacency

  const KNOWS := Leg(Out, Some({"KNOWS"}), ANY_NODE)

  function SetOf(bucket: seq<nat>): set<nat> {
    set v | v in bucket
  }

  function InBucket(bucket: seq<nat>): Node {
    Node(Some(SetOf(bucket)), None)
  }

  /** (:Bucket)-[:KNOWS]->()-[:KNOWS]->() ... */
  function Chain(bucket: seq<nat>, hops: nat): Pattern {
    Pattern(InBucket(bucket), seq(hops, _ => KNOWS))
  }

  function Inside(bucket: seq<nat>): Leg {
    Leg(Out, Some({"KNOWS"}), InBucket(bucket))
  }

  /** The same chain with every position held inside the bucket. */
  function ChainWithin(bucket: seq<nat>, hops: nat): Pattern {
    Pattern(InBucket(bucket), seq(hops, _ => Inside(bucket)))
  }

  lemma WaysNext(g: Graph, start: Node, leg: Leg, hops: nat)
    requires g.Valid()
    ensures Ways(g, start, seq(hops + 1, _ => leg)) == Push(g, leg, Ways(g, start, seq(hops, _ => leg)))
  {
    assert seq(hops + 1, _ => leg) == seq(hops, _ => leg) + [leg];
    PushAllAppend(g, seq(hops, _ => leg), leg, Mask(start, Ones(g.order)));
  }

  // ------------------------------------------------------------ by a map --

  function VecOf(m: map<nat, nat>, n: nat): (r: seq<nat>)
    ensures |r| == n && forall v :: 0 <= v < n ==> r[v] == if v in m then m[v] else 0
  {
    seq(n, v requires 0 <= v < n => if v in m then m[v] else 0)
  }

  lemma ShareOfOneMore(g: Graph, w: nat, adj: seq<nat>, j: nat, u: nat)
    requires j < |adj| && (forall i :: 0 <= i < |adj| ==> adj[i] < |g.edges|) && KNOWS.Uses(true, g.edges[adj[j]])
    ensures Share(g, KNOWS, true, w, adj[..j + 1], u)
            == Share(g, KNOWS, true, w, adj[..j], u) + if g.edges[adj[j]].to == u then w else 0
  {
    assert adj[..j + 1][..j] == adj[..j];
  }

  /** `next.set(t, (next.get(t) ?? 0) + w)` for the far end of each of a vertex's edges. */
  method SpreadToMap(g: Graph, next: map<nat, nat>, v: nat, w: nat) returns (r: map<nat, nat>)
    requires g.Valid() && forall u :: u in next ==> u < g.order
    ensures forall u :: u in r ==> u < g.order
    ensures var adj := Adjacent(g, KNOWS.types, true, v);
            forall u | 0 <= u < g.order :: VecOf(r, g.order)[u] == VecOf(next, g.order)[u] + Share(g, KNOWS, true, w, adj, u)
  {
    r := next;
    var adj := Adjacent(g, KNOWS.types, true, v);
    for j := 0 to |adj|
      invariant forall u :: u in r ==> u < g.order
      invariant forall u | 0 <= u < g.order :: VecOf(r, g.order)[u] == VecOf(next, g.order)[u] + Share(g, KNOWS, true, w, adj[..j], u)
    {
      var t := g.edges[adj[j]].to;
      forall u ensures Share(g, KNOWS, true, w, adj[..j + 1], u)
                       == Share(g, KNOWS, true, w, adj[..j], u) + if t == u then w else 0
      {
        ShareOfOneMore(g, w, adj, j, u);
      }
      r := r[t := (if t in r then r[t] else 0) + w];
    }
    assert adj[..|adj|] == adj;
  }

  method HopByMap(g: Graph, cur: map<nat, nat>) returns (next: map<nat, nat>)
    requires g.Valid() && forall u :: u in cur ==> u < g.order
    ensures forall u :: u in next ==> u < g.order
    ensures VecOf(next, g.order) == Push(g, KNOWS, VecOf(cur, g.order))
  {
    next := map[];
    var todo := cur.Keys;
    ghost var f := VecOf(cur, g.order);
    ghost var rem := f;
    while todo != {}
      invariant todo <= cur.Keys && |rem| == g.order
      invariant forall v :: 0 <= v < g.order ==> rem[v] == if v in todo then f[v] else 0
      invariant forall u :: u in next ==> u < g.order
      invariant forall u | 0 <= u < g.order ::
                  VecOf(next, g.order)[u] + PassInto(g, KNOWS, true, rem, u, |g.edges|) == PassInto(g, KNOWS, true, f, u, |g.edges|)
      decreases todo
    {
      var v :| v in todo;
      next := SpreadToMap(g, next, v, cur[v]);
      forall u | 0 <= u < g.order
        ensures PassInto(g, KNOWS, true, rem, u, |g.edges|)
                == PassInto(g, KNOWS, true, rem[v := 0], u, |g.edges|) + Share(g, KNOWS, true, cur[v], Adjacent(g, KNOWS.types, true, v), u)
      {
        PassTake(g, KNOWS, true, rem, v, u);
      }
      rem, todo := rem[v := 0], todo - {v};
    }
    forall u | 0 <= u < g.order ensures VecOf(next, g.order)[u] == Push(g, KNOWS, f)[u] {
      PassOfZeros(g, KNOWS, true, rem, u, |g.edges|);
      UnusedPass(g, KNOWS, false, f, u, |g.edges|);
    }
  }

  /** The map after the given number of rounds. */
  method RoundsByMap(g: Graph, bucket: seq<nat>, hops: nat) returns (cur: map<nat, nat>)
    requires g.Valid() && forall v :: v in bucket ==> v < g.order
    ensures forall u :: u in cur ==> u < g.order
    ensures VecOf(cur, g.order) == Ways(g, Chain(bucket, hops).start, Chain(bucket, hops).legs)
  {
    cur := map[];
    for i := 0 to |bucket|
      invariant cur.Keys == SetOf(bucket[..i]) && forall v :: v in cur ==> cur[v] == 1
    {
      assert SetOf(bucket[..i + 1]) == SetOf(bucket[..i]) + {bucket[i]};
      cur := cur[bucket[i] := 1];
    }
    assert bucket[..|bucket|] == bucket;
    for h := 0 to hops
      invariant forall u :: u in cur ==> u < g.order
      invariant VecOf(cur, g.order) == Ways(g, InBucket(bucket), seq(h, _ => KNOWS))
    {
      cur := HopByMap(g, cur);
      WaysNext(g, InBucket(bucket), KNOWS, h);
    }
  }

  method ByMap(g: Graph, bucket: seq<nat>, hops: nat) returns (total: nat)
    requires g.Valid() && forall v :: v in bucket ==> v < g.order
    ensures total == |Matches(g, Chain(bucket, hops))|
  {
    var cur := RoundsByMap(g, bucket, hops);
    total := 0;
    var todo := cur.Keys;
    ghost var rem := VecOf(cur, g.order);
    while todo != {}
      invariant todo <= cur.Keys && |rem| == g.order
      invariant forall v :: 0 <= v < g.order ==> rem[v] == if v in todo then cur[v] else 0
      invariant total + Sum(rem) == Sum(VecOf(cur, g.order))
      decreases todo
    {
      var v :| v in todo;
      SumTake(rem, v);
      total, rem, todo := total + cur[v], rem[v := 0], todo - {v};
    }
    SumOfZeros(rem);
    SweepCounts(g, Chain(bucket, hops));
    CountIsMatches(g, Chain(bucket, hops));
  }

  // ------------------------------------------------- by a dense index --

  ghost predicate Indexes(idx: map<nat, nat>, bucket: seq<nat>) {
    && idx.Keys == SetOf(bucket)
    && forall i :: 0 <= i < |bucket| ==> bucket[i] in idx && idx[bucket[i]] == i
  }

  method IndexBucket(bucket: seq<nat>) returns (idx: map<nat, nat>)
    requires Distinct(bucket)
    ensures Indexes(idx, bucket)
  {
    idx := map[];
    for i := 0 to |bucket|
      invariant Indexes(idx, bucket[..i])
    {
      assert SetOf(bucket[..i + 1]) == SetOf(bucket[..i]) + {bucket[i]};
      idx := idx[bucket[i] := i];
    }
    assert bucket[..|bucket|] == bucket;
  }

  /** The array read back as a vector over all vertices. */
  function Spreadout(bucket: seq<nat>, idx: map<nat, nat>, cells: seq<nat>, n: nat): (r: seq<nat>)
    requires |cells| == |bucket| && Indexes(idx, bucket)
    ensures |r| == n && forall v :: 0 <= v < n ==> r[v] == if v in idx then cells[idx[v]] else 0
  {
    seq(n, v requires 0 <= v < n => if v in idx then cells[idx[v]] else 0)
  }

  /** The probe's `spread`: w into every indexed far end; an edge leaving the bucket is skipped. */
  method SpreadToArray(g: Graph, bucket: seq<nat>, idx: map<nat, nat>, into: array<nat>, v: nat, w: nat)
    requires g.Valid() && Indexes(idx, bucket) && into.Length == |bucket|
    modifies into
    ensures var adj := Adjacent(g, KNOWS.types, true, v);
            forall i | 0 <= i < |bucket| :: into[i] == old(into[i]) + Share(g, Inside(bucket), true, w, adj, bucket[i])
  {
    var adj := Adjacent(g, KNOWS.types, true, v);
    for j := 0 to |adj|
      invariant forall i | 0 <= i < |bucket| ::
                  into[i] == old(into[i]) + Share(g, Inside(bucket), true, w, adj[..j], bucket[i])
    {
      var t := g.edges[adj[j]].to;
      assert adj[..j + 1][..j] == adj[..j];
      if t in idx {
        into[idx[t]] := into[idx[t]] + w;
      }
    }
    assert adj[..|adj|] == adj;
  }

  method Clear(next: array<nat>)
    modifies next
    ensures forall k :: 0 <= k < next.Length ==> next[k] == 0
  {
    for i := 0 to next.Length
      invariant forall k :: 0 <= k < i ==> next[k] == 0
    {
      next[i] := 0;
    }
  }

  /** One hop from cur into next, whatever next held before. */
  method HopByIndex(g: Graph, bucket: seq<nat>, idx: map<nat, nat>, cur: array<nat>, next: array<nat>)
    requires g.Valid() && Indexes(idx, bucket) && cur != next && cur.Length == next.Length == |bucket|
    requires forall v :: v in bucket ==> v < g.order
    modifies next
    ensures Spreadout(bucket, idx, next[..], g.order) == Push(g, Inside(bucket), Spreadout(bucket, idx, cur[..], g.order))
  {
    Clear(next);
    var leg := Inside(bucket);
    ghost var f := Spreadout(bucket, idx, cur[..], g.order);
    ghost var rem := f;
    for i := 0 to |bucket|
      invariant |rem| == g.order
      invariant forall v :: 0 <= v < g.order ==> rem[v] == if v in idx && idx[v] >= i then cur[idx[v]] else 0
      invariant forall k | 0 <= k < |bucket| ::
                  next[k] + PassInto(g, leg, true, rem, bucket[k], |g.edges|) == PassInto(g, leg, true, f, bucket[k], |g.edges|)
    {
      var v, w := bucket[i], cur[i];
      forall k | 0 <= k < |bucket|
        ensures PassInto(g, leg, true, rem, bucket[k], |g.edges|)
                == PassInto(g, leg, true, rem[v := 0], bucket[k], |g.edges|) + Share(g, leg, true, w, Adjacent(g, KNOWS.types, true, v), bucket[k])
        ensures w == 0 ==> Share(g, leg, true, w, Adjacent(g, KNOWS.types, true, v), bucket[k]) == 0
      {
        PassTake(g, leg, true, rem, v, bucket[k]);
        ShareOfZero(g, leg, true, Adjacent(g, KNOWS.types, true, v), bucket[k]);
      }
      if w != 0 {
        SpreadToArray(g, bucket, idx, next, v, w);
      }
      rem := rem[v := 0];
    }
    forall u | 0 <= u < g.order ensures Spreadout(bucket, idx, next[..], g.order)[u] == Push(g, leg, f)[u] {
      UnusedPass(g, leg, false, f, u, |g.edges|);
      if u in idx {
        PassOfZeros(g, leg, true, rem, u, |g.edges|);
        assert bucket[idx[u]] == u;
      } else {
        NothingLands(g, leg, f, u, |g.edges|);
      }
    }
  }

  lemma {:induction false} NothingLands(g: Graph, leg: Leg, f: seq<nat>, u: nat, k: nat)
    requires g.Valid() && |f| == g.order && k <= |g.edges| && !leg.node.Keeps(u)
    ensures PassInto(g, leg, true, f, u, k) == 0
  {
    if k > 0 {
      NothingLands(g, leg, f, u, k - 1);
    }
  }

  method TotalOfArray(bucket: seq<nat>, idx: map<nat, nat>, cur: array<nat>, ghost n: nat) returns (total: nat)
    requires Indexes(idx, bucket) && cur.Length == |bucket| && forall v :: v in bucket ==> v < n
    ensures total == Sum(Spreadout(bucket, idx, cur[..], n))
  {
    total := 0;
    ghost var rem := Spreadout(bucket, idx, cur[..], n);
    for i := 0 to cur.Length
      invariant |rem| == n
      invariant forall v :: 0 <= v < n ==> rem[v] == if v in idx && idx[v] >= i then cur[idx[v]] else 0
      invariant total + Sum(rem) == Sum(Spreadout(bucket, idx, cur[..], n))
    {
      SumTake(rem, bucket[i]);
      total, rem := total + cur[i], rem[bucket[i] := 0];
    }
    SumOfZeros(rem);
  }

  method ByIndexed(g: Graph, bucket: seq<nat>, hops: nat) returns (total: nat)
    requires g.Valid() && Distinct(bucket) && forall v :: v in bucket ==> v < g.order
    ensures total == |Matches(g, ChainWithin(bucket, hops))|
  {
    var idx := IndexBucket(bucket);
    var cur := new nat[|bucket|](_ => 1);
    var next := new nat[|bucket|](_ => 0);
    for h := 0 to hops
      invariant cur != next && cur.Length == next.Length == |bucket| && fresh(cur) && fresh(next)
      invariant Spreadout(bucket, idx, cur[..], g.order) == Ways(g, InBucket(bucket), seq(h, _ => Inside(bucket)))
    {
      HopByIndex(g, bucket, idx, cur, next);
      WaysNext(g, InBucket(bucket), Inside(bucket), h);
      cur, next := next, cur;
    }
    total := TotalOfArray(bucket, idx, cur, g.order);
    SweepCounts(g, ChainWithin(bucket, hops));
    CountIsMatches(g, ChainWithin(bucket, hops));
  }

  // ------------------------------------------- by fields on the vertices --

  /** A vertex object, with the two scratch fields the sweep leaves on it. */
  class VertexRecord {
    var w: Option<nat>
    var n: Option<nat>
  }

  ghost predicate Records(g: Graph, recs: seq<VertexRecord>) {
    |recs| == g.order && forall i, j :: 0 <= i < j < |recs| ==> recs[i] != recs[j]
  }

  /** `x.__n = (x.__n ?? 0) + w` */
  method AddToField(x: VertexRecord, w: nat)
    modifies x`n
    ensures x.n == Some((if old(x.n).Some? then old(x.n).value else 0) + w)
  {
    x.n := Some((if x.n.Some? then x.n.value else 0) + w);
  }

  /** ... for the far end of each of a vertex's edges. */
  method SpreadToFields(g: Graph, recs: seq<VertexRecord>, v: nat, w: nat)
    requires g.Valid() && Records(g, recs)
    modifies set u | 0 <= u < |recs| :: recs[u]`n
    ensures var adj := Adjacent(g, KNOWS.types, true, v);
            forall u | 0 <= u < g.order && old(recs[u].n).Some? ::
              recs[u].n == Some(old(recs[u].n).value + Share(g, KNOWS, true, w, adj, u))
  {
    var adj := Adjacent(g, KNOWS.types, true, v);
    for j := 0 to |adj|
      invariant forall u | 0 <= u < g.order && old(recs[u].n).Some? ::
                  recs[u].n == Some(old(recs[u].n).value + Share(g, KNOWS, true, w, adj[..j], u))
    {
      forall u ensures Share(g, KNOWS, true, w, adj[..j + 1], u)
                       == Share(g, KNOWS, true, w, adj[..j], u) + if g.edges[adj[j]].to == u then w else 0
      {
        ShareOfOneMore(g, w, adj, j, u);
      }
      AddToField(recs[g.edges[adj[j]].to], w);
    }
    assert adj[..|adj|] == adj;
  }

  lemma {:induction false} InsidePass(g: Graph, bucket: seq<nat>, f: seq<nat>, u: nat, k: nat)
    requires g.Valid() && |f| == g.order && k <= |g.edges| && u in bucket
    ensures PassInto(g, Inside(bucket), true, f, u, k) == PassInto(g, KNOWS, true, f, u, k)
  {
    if k > 0 {
      InsidePass(g, bucket, f, u, k - 1);
    }
  }

  /** First half of a round: every vertex of the bucket sends its weight on. */
  method SendFromFields(g: Graph, recs: seq<VertexRecord>, all: seq<nat>, ghost f: seq<nat>)
    requires g.Valid() && Records(g, recs) && Distinct(all) && |f| == g.order
    requires forall v :: v in all ==> v < g.order && recs[v].w == Some(f[v]) && recs[v].n == Some(0)
    requires forall v :: 0 <= v < g.order && v !in all ==> f[v] == 0
    modifies set u | 0 <= u < |recs| :: recs[u]`n
    ensures forall u :: u in all ==> recs[u].n == Some(PassInto(g, KNOWS, true, f, u, |g.edges|))
  {
    ghost var rem := f;
    for i := 0 to |all|
      invariant |rem| == g.order
      invariant forall v :: 0 <= v < g.order ==> rem[v] == if v in all[i..] then f[v] else 0
      invariant forall u :: u in all ==> recs[u].n.Some?
      invariant forall u :: u in all ==>
                  recs[u].n.value + PassInto(g, KNOWS, true, rem, u, |g.edges|) == PassInto(g, KNOWS, true, f, u, |g.edges|)
    {
      var v := all[i];
      assert v in all && all[i..] == [v] + all[i + 1..];
      forall u | u in all
        ensures PassInto(g, KNOWS, true, rem, u, |g.edges|)
                == PassInto(g, KNOWS, true, rem[v := 0], u, |g.edges|) + Share(g, KNOWS, true, f[v], Adjacent(g, KNOWS.types, true, v), u)
        ensures f[v] == 0 ==> Share(g, KNOWS, true, f[v], Adjacent(g, KNOWS.types, true, v), u) == 0
      {
        PassTake(g, KNOWS, true, rem, v, u);
        ShareOfZero(g, KNOWS, true, Adjacent(g, KNOWS.types, true, v), u);
      }
      var w := recs[v].w;
      if w != Some(0) && w != None {
        SpreadToFields(g, recs, v, w.value);
      }
      rem := rem[v := 0];
    }
    forall u | u in all ensures PassInto(g, KNOWS, true, rem, u, |g.edges|) == 0 {
      PassOfZeros(g, KNOWS, true, rem, u, |g.edges|);
    }
  }

  /** Second half of a round: what arrived becomes the weight. */
  method TakeArrivals(recs: seq<VertexRecord>, all: seq<nat>, ghost next: seq<nat>)
    requires (forall i, j :: 0 <= i < j < |recs| ==> recs[i] != recs[j]) && Distinct(all) && |next| == |recs|
    requires forall v :: v in all ==> v < |recs| && recs[v].n == Some(next[v])
    modifies set u | 0 <= u < |recs| :: recs[u]
    ensures forall v :: v in all ==> recs[v].w == Some(next[v]) && recs[v].n == Some(0)
  {
    assert forall k :: 0 <= k < |all| ==> all[k] in all;
    for i := 0 to |all|
      invariant forall k :: 0 <= k < i ==> recs[all[k]].n == Some(0) && recs[all[k]].w == Some(next[all[k]])
      invariant forall k :: i <= k < |all| ==> recs[all[k]].n == Some(next[all[k]])
    {
      recs[all[i]].w := recs[all[i]].n;
      recs[all[i]].n := Some(0);
    }
  }

  method HopByField(g: Graph, recs: seq<VertexRecord>, all: seq<nat>, ghost f: seq<nat>)
    requires g.Valid() && Records(g, recs) && Distinct(all) && |f| == g.order
    requires forall v :: v in all ==> v < g.order && recs[v].w == Some(f[v]) && recs[v].n == Some(0)
    requires forall v :: 0 <= v < g.order && v !in all ==> f[v] == 0
    modifies set u | 0 <= u < |recs| :: recs[u]
    ensures forall v :: v in all ==> recs[v].w == Some(Push(g, Inside(all), f)[v]) && recs[v].n == Some(0)
  {
    SendFromFields(g, recs, all, f);
    forall v | v in all ensures Push(g, Inside(all), f)[v] == PassInto(g, KNOWS, true, f, v, |g.edges|) {
      UnusedPass(g, Inside(all), false, f, v, |g.edges|);
      InsidePass(g, all, f, v, |g.edges|);
    }
    TakeArrivals(recs, all, Push(g, Inside(all), f));
  }

  lemma WithinStaysInside(g: Graph, bucket: seq<nat>, hops: nat, v: nat)
    requires g.Valid() && v < g.order && v !in bucket
    ensures Ways(g, InBucket(bucket), seq(hops, _ => Inside(bucket)))[v] == 0
  {
    if hops > 0 {
      WaysNext(g, InBucket(bucket), Inside(bucket), hops - 1);
      var f := Ways(g, InBucket(bucket), seq(hops - 1, _ => Inside(bucket)));
      UnusedPass(g, Inside(bucket), false, f, v, |g.edges|);
      NothingLands(g, Inside(bucket), f, v, |g.edges|);
    }
  }

  method TotalOfFields(g: Graph, recs: seq<VertexRecord>, all: seq<nat>, ghost f: seq<nat>) returns (total: nat)
    requires Records(g, recs) && Distinct(all) && |f| == g.order
    requires forall v :: v in all ==> v < g.order && recs[v].w == Some(f[v])
    requires forall v :: 0 <= v < g.order && v !in all ==> f[v] == 0
    ensures total == Sum(f)
  {
    total := 0;
    ghost var rem := f;
    for i := 0 to |all|
      invariant |rem| == g.order
      invariant forall v :: 0 <= v < g.order ==> rem[v] == if v in all[i..] then f[v] else 0
      invariant total + Sum(rem) == Sum(f)
    {
      var v := all[i];
      assert v in all && all[i..] == [v] + all[i + 1..];
      SumTake(rem, v);
      total, rem := total + (if recs[v].w.Some? then recs[v].w.value else 0), rem[v := 0];
    }
    SumOfZeros(rem);
  }

  method ResetFields(g: Graph, recs: seq<VertexRecord>, bucket: seq<nat>)
    requires Records(g, recs) && forall v :: v in bucket ==> v < g.order
    modifies set u | 0 <= u < |recs| :: recs[u]
    ensures forall v :: v in bucket ==> recs[v].w == Some(1) && recs[v].n == Some(0)
  {
    assert forall k :: 0 <= k < |bucket| ==> bucket[k] in bucket;
    for i := 0 to |bucket|
      invariant forall k :: 0 <= k < i ==> recs[bucket[k]].w == Some(1) && recs[bucket[k]].n == Some(0)
    {
      recs[bucket[i]].w := Some(1);
      recs[bucket[i]].n := Some(0);
    }
  }

  /** Nothing is asked of the fields beforehand: what an earlier run left there does not matter. */
  method ByField(g: Graph, recs: seq<VertexRecord>, bucket: seq<nat>, hops: nat) returns (total: nat)
    requires g.Valid() && Records(g, recs) && Distinct(bucket) && forall v :: v in bucket ==> v < g.order
    modifies set u | 0 <= u < |recs| :: recs[u]
    ensures total == |Matches(g, ChainWithin(bucket, hops))|
  {
    ResetFields(g, recs, bucket);
    ghost var f := Ways(g, InBucket(bucket), seq(0, _ => Inside(bucket)));
    for h := 0 to hops
      invariant f == Ways(g, InBucket(bucket), seq(h, _ => Inside(bucket)))
      invariant forall v :: v in bucket ==> recs[v].w == Some(f[v]) && recs[v].n == Some(0)
    {
      forall v | 0 <= v < g.order && v !in bucket ensures f[v] == 0 {
        WithinStaysInside(g, bucket, h, v);
      }
      HopByField(g, recs, bucket, f);
      WaysNext(g, InBucket(bucket), Inside(bucket), h);
      f := Push(g, Inside(bucket), f);
    }
    forall v | 0 <= v < g.order && v !in bucket ensures f[v] == 0 {
      WithinStaysInside(g, bucket, hops, v);
    }
    total := TotalOfFields(g, recs, bucket, f);
    SweepCounts(g, ChainWithin(bucket, hops));
    CountIsMatches(g, ChainWithin(bucket, hops));
  }

  // -------------------------------------------------- when the three agree --

  /** Every KNOWS edge out of the bucket comes back into it. */
  ghost predicate Closed(g: Graph, bucket: seq<nat>) {
    forall i | 0 <= i < |g.edges| && KNOWS.Admits(g.edges[i]) && g.edges[i].from in bucket :: g.edges[i].to in bucket
  }

  lemma {:induction false} ClosedPass(g: Graph, bucket: seq<nat>, f: seq<nat>, u: nat, k: nat)
    requires g.Valid() && |f| == g.order && k <= |g.edges| && Closed(g, bucket)
    requires forall v :: 0 <= v < g.order && v !in bucket ==> f[v] == 0
    ensures PassInto(g, Inside(bucket), true, f, u, k) == PassInto(g, KNOWS, true, f, u, k)
  {
    if k > 0 {
      ClosedPass(g, bucket, f, u, k - 1);
    }
  }

  lemma {:induction false} ClosedWays(g: Graph, bucket: seq<nat>, hops: nat)
    requires g.Valid() && Closed(g, bucket)
    ensures Ways(g, InBucket(bucket), seq(hops, _ => Inside(bucket))) == Ways(g, InBucket(bucket), seq(hops, _ => KNOWS))
  {
    if hops > 0 {
      ClosedWays(g, bucket, hops - 1);
      WaysNext(g, InBucket(bucket), Inside(bucket), hops - 1);
      WaysNext(g, InBucket(bucket), KNOWS, hops - 1);
      var f := Ways(g, InBucket(bucket), seq(hops - 1, _ => Inside(bucket)));
      forall v | 0 <= v < g.order && v !in bucket ensures f[v] == 0 {
        WithinStaysInside(g, bucket, hops - 1, v);
      }
      forall u | 0 <= u < g.order ensures Push(g, Inside(bucket), f)[u] == Push(g, KNOWS, f)[u] {
        ClosedPass(g, bucket, f, u, |g.edges|);
        UnusedPass(g, Inside(bucket), false, f, u, |g.edges|);
        UnusedPass(g, KNOWS, false, f, u, |g.edges|);
      }
    } else {
      assert seq(0, _ => Inside(bucket)) == seq(0, _ => KNOWS);
    }
  }

  /** On a closed bucket the index and the field sweeps answer the map's question. */
  lemma ClosedBucketsAgree(g: Graph, bucket: seq<nat>, hops: nat)
    requires g.Valid() && Closed(g, bucket)
    ensures |Matches(g, ChainWithin(bucket, hops))| == |Matches(g, Chain(bucket, hops))|
  {
    ClosedWays(g, bucket, hops);
    SweepCounts(g, ChainWithin(bucket, hops));
    SweepCounts(g, Chain(bucket, hops));
    CountIsMatches(g, ChainWithin(bucket, hops));
    CountIsMatches(g, Chain(bucket, hops));
  }

  /** One hop out of a bucket is counted alike by all three only when the bucket is closed. */
  lemma OneHopAgreesOnlyIfClosed(g: Graph, bucket: seq<nat>)
    requires g.Valid() && forall v :: v in bucket ==> v < g.order
    requires |Matches(g, ChainWithin(bucket, 1))| == |Matches(g, Chain(bucket, 1))|
    ensures Closed(g, bucket)
  {
    var all, within := Matches(g, Chain(bucket, 1)), Matches(g, ChainWithin(bucket, 1));
    forall i: nat | i < |g.edges| && KNOWS.Admits(g.edges[i]) && g.edges[i].from in bucket
      ensures g.edges[i].to in bucket
    {
      var m: (nat, seq<nat>) := (g.edges[i].from, [i]);
      OneHopMatch(g, bucket, m);
      if g.edges[i].to !in bucket {
        forall x | x in within ensures x in all - {m} {
          OneHopMatch(g, bucket, x);
        }
        SubsetSize(within, all - {m});
      }
    }
  }

  lemma OneLegWalk(g: Graph, leg: Leg, v: nat, w: seq<nat>)
    ensures IsWalk(g, [leg], v, w) <==> |w| == 1 && w[0] < |g.edges| && leg.Crosses(g.edges[w[0]], v)
  {
    assert [leg][1..] == [];
    if w != [] {
      assert w[1..] == [] <==> |w| == 1;
    }
  }

  lemma OneHopMatch(g: Graph, bucket: seq<nat>, m: (nat, seq<nat>))
    requires g.Valid()
    ensures m in Matches(g, Chain(bucket, 1))
            <==> m.0 < g.order && m.0 in bucket && |m.1| == 1 && m.1[0] < |g.edges| && KNOWS.Crosses(g.edges[m.1[0]], m.0)
    ensures m in Matches(g, ChainWithin(bucket, 1))
            <==> m in Matches(g, Chain(bucket, 1)) && g.edges[m.1[0]].to in bucket
  {
    MatchesAreMatches(g, Chain(bucket, 1), m);
    MatchesAreMatches(g, ChainWithin(bucket, 1), m);
    OneLegWalk(g, KNOWS, m.0, m.1);
    OneLegWalk(g, Inside(bucket), m.0, m.1);
    assert Chain(bucket, 1).legs == [KNOWS] && ChainWithin(bucket, 1).legs == [Inside(bucket)];
  }

  /** The index and the field sweeps answer the map's question at every depth exactly when the
      bucket is closed under the edge type. */
  lemma SweepsAgreeExactlyWhenClosed(g: Graph, bucket: seq<nat>)
    requires g.Valid() && forall v :: v in bucket ==> v < g.order
    ensures Closed(g, bucket)
            <==> forall hops: nat :: |Matches(g, ChainWithin(bucket, hops))| == |Matches(g, Chain(bucket, hops))|
  {
    if Closed(g, bucket) {
      forall hops: nat ensures |Matches(g, ChainWithin(bucket, hops))| == |Matches(g, Chain(bucket, hops))| {
        ClosedBucketsAgree(g, bucket, hops);
      }
    } else if forall hops: nat :: |Matches(g, ChainWithin(bucket, hops))| == |Matches(g, Chain(bucket, hops))| {
      OneHopAgreesOnlyIfClosed(g, bucket);
    }
  }
}
