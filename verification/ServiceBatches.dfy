/** Demand-fill of the service map: one batch per cluster, loaded in any order. */
module ServiceBatches {
  import opened Names
  import opened Collections
  import opened Topology
  import opened FleetMachine
  import opened FleetSeeds
  import opened FleetShape
  import opened Options
  import opened Xorshift

  /** What one cluster's load writes: its services, and its calls whose target's id starts with the cluster's name. */
  datatype Batch = Batch(nodes: seq<Service>, edges: seq<Call>)

  function Keep<T>(xs: seq<T>, keep: T -> bool): seq<T> {
    if xs == [] then [] else Keep(xs[..|xs| - 1], keep) + if keep(xs[|xs| - 1]) then [xs[|xs| - 1]] else []
  }

  function InCluster(cluster: string): Service -> bool {
    (v: Service) => v.cluster == cluster
  }

  /** MATCH (a:Service)-[t:CALLS]->(b:Service) WHERE a.cluster = $cluster, then the test on the target's id. */
  function Loads(services: seq<Service>, cluster: string): Call -> bool {
    (call: Call) =>
      && (exists i | 0 <= i < |services| :: services[i].sid == call.from && services[i].cluster == cluster)
      && (exists i | 0 <= i < |services| :: services[i].sid == call.to)
      && StartsWith(call.to, cluster + ":")
  }

  function Load(f: Fleet, cluster: string): Batch {
    Batch(Keep(f.services, InCluster(cluster)), Keep(f.calls, Loads(f.services, cluster)))
  }

  /** The store after the loads, in their order. */
  function LoadAll(f: Fleet, order: seq<string>): Batch {
    if order == [] then Batch([], [])
    else
      var before := LoadAll(f, order[..|order| - 1]);
      var batch := Load(f, order[|order| - 1]);
      Batch(before.nodes + batch.nodes, before.edges + batch.edges)
  }

  /** An id starts with its service's cluster and a colon, and no cluster's name has a colon. */
  ghost predicate Spelled(f: Fleet) {
    forall i | 0 <= i < |f.services| :: SpelledService(f.services[i])
  }

  ghost predicate SpelledService(v: Service) {
    ':' !in v.cluster && exists rest: string :: v.sid == (v.cluster + ":") + rest
  }

  ghost predicate Mapped(f: Fleet) {
    Layered(f) && Spelled(f)
  }

  /** Every generated fleet is layered and spelled so. */
  lemma GeneratedIsMapped(nouns: seq<string>, seed: Register, f: Fleet)
    requires FleetOf(nouns, seed) == Some(f)
    ensures Mapped(f)
  {
    FleetIsLayered(nouns, seed, f);
    forall i | 0 <= i < |f.services| ensures SpelledService(f.services[i]) {
      assert IsService(nouns, f.services[i], i);
      ClustersHaveNoColon(ClusterOf(i));
    }
  }

  lemma {:induction false} KeepHas<T>(xs: seq<T>, keep: T -> bool, x: T)
    ensures x in Keep(xs, keep) <==> x in xs && keep(x)
  {
    if xs != [] {
      var n := |xs| - 1;
      KeepHas(xs[..n], keep, x);
      assert xs == xs[..n] + [xs[n]];
    }
  }

  /** The test on the target's spelling is the test on its cluster. */
  lemma PrefixIsCluster(f: Fleet, cluster: string, i: nat)
    requires Mapped(f) && ':' !in cluster && i < |f.services|
    ensures StartsWith(f.services[i].sid, cluster + ":") <==> f.services[i].cluster == cluster
  {
    var v := f.services[i];
    assert SpelledService(v);
    var rest: string :| v.sid == (v.cluster + ":") + rest;
    PrefixNamesCluster(cluster, v.cluster, rest);
  }

  /** A call joins services i and j. */
  predicate Joins(f: Fleet, call: Call, i: nat, j: nat) {
    i < |f.services| && j < |f.services| && f.services[i].sid == call.from && f.services[j].sid == call.to
  }

  lemma EndsOf(f: Fleet, call: Call) returns (i: nat, j: nat)
    requires Mapped(f) && call in f.calls
    ensures Joins(f, call, i, j)
  {
    var k: nat, own :| k < |f.services| && Goes(f.services, call, k, own);
    var m :| 0 <= m < |f.services| && call.to == f.services[m].sid;
    i, j := k, m;
  }

  /** A cluster's batch takes exactly the calls with both ends in the cluster. */
  lemma LoadsIsInside(f: Fleet, cluster: string, call: Call, i: nat, j: nat)
    requires Mapped(f) && ':' !in cluster && Joins(f, call, i, j)
    ensures Loads(f.services, cluster)(call) <==> f.services[i].cluster == cluster && f.services[j].cluster == cluster
  {
    PrefixIsCluster(f, cluster, j);
    assert forall k | 0 <= k < |f.services| && f.services[k].sid == call.from :: k == i;
  }

  ghost predicate Closed(b: Batch) {
    forall call | call in b.edges ::
      && (exists v :: v in b.nodes && v.sid == call.from)
      && (exists v :: v in b.nodes && v.sid == call.to)
  }

  /** Each batch is closed: both ends of every call it loads are among its own services. */
  lemma BatchIsClosed(f: Fleet, cluster: string)
    requires Mapped(f) && ':' !in cluster
    ensures Closed(Load(f, cluster))
  {
    var b := Load(f, cluster);
    forall call | call in b.edges
      ensures (exists v :: v in b.nodes && v.sid == call.from) && exists v :: v in b.nodes && v.sid == call.to
    {
      KeepHas(f.calls, Loads(f.services, cluster), call);
      var i, j := EndsOf(f, call);
      LoadsIsInside(f, cluster, call, i, j);
      KeepHas(f.services, InCluster(cluster), f.services[i]);
      KeepHas(f.services, InCluster(cluster), f.services[j]);
      assert f.services[i] in b.nodes && f.services[j] in b.nodes;
    }
  }

  /** So the store is closed after every load, whatever has been loaded: no call dangles meanwhile. */
  lemma {:induction false} StoreStaysClosed(f: Fleet, order: seq<string>)
    requires Mapped(f) && forall i | 0 <= i < |order| :: ':' !in order[i]
    ensures Closed(LoadAll(f, order))
  {
    if order != [] {
      var n := |order| - 1;
      StoreStaysClosed(f, order[..n]);
      BatchIsClosed(f, order[n]);
    }
  }

  // ------------------------------------------------- what all the loads together load --

  function InAny(order: seq<string>): Service -> bool {
    (v: Service) => v.cluster in order
  }

  /** Both ends of the call are in one and the same cluster of these. */
  function InsideAny(services: seq<Service>, order: seq<string>): Call -> bool {
    (call: Call) =>
      exists i, j | 0 <= i < |services| && 0 <= j < |services| ::
        && services[i].sid == call.from && services[j].sid == call.to
        && services[i].cluster == services[j].cluster && services[i].cluster in order
  }

  lemma {:induction false} KeepSplits<T>(xs: seq<T>, p: T -> bool, q: T -> bool, r: T -> bool)
    requires forall x | x in xs :: (r(x) <==> p(x) || q(x)) && !(p(x) && q(x))
    ensures multiset(Keep(xs, r)) == multiset(Keep(xs, p)) + multiset(Keep(xs, q))
  {
    if xs != [] {
      var n := |xs| - 1;
      assert xs == xs[..n] + [xs[n]];
      KeepSplits(xs[..n], p, q, r);
    }
  }

  lemma {:induction false} KeepNone<T>(xs: seq<T>, p: T -> bool)
    requires forall x | x in xs :: !p(x)
    ensures Keep(xs, p) == []
  {
    if xs != [] {
      assert xs == xs[..|xs| - 1] + [xs[|xs| - 1]];
      KeepNone(xs[..|xs| - 1], p);
    }
  }

  lemma {:induction false} KeepAll<T>(xs: seq<T>, p: T -> bool)
    requires forall x | x in xs :: p(x)
    ensures Keep(xs, p) == xs
  {
    if xs != [] {
      assert xs == xs[..|xs| - 1] + [xs[|xs| - 1]];
      KeepAll(xs[..|xs| - 1], p);
    }
  }

  lemma InsideAnyIs(f: Fleet, order: seq<string>, call: Call, i: nat, j: nat)
    requires Mapped(f) && Joins(f, call, i, j)
    ensures InsideAny(f.services, order)(call)
            <==> f.services[i].cluster == f.services[j].cluster && f.services[i].cluster in order
  {
    assert forall k | 0 <= k < |f.services| && f.services[k].sid == call.from :: k == i;
    assert forall k | 0 <= k < |f.services| && f.services[k].sid == call.to :: k == j;
  }

  /** Each call of the fleet is inside the loaded clusters exactly when an earlier batch or the last one takes it. */
  lemma LastBatchAdds(f: Fleet, order: seq<string>, call: Call)
    requires Mapped(f) && order != [] && call in f.calls && forall i | 0 <= i < |order| :: ':' !in order[i]
    requires order[|order| - 1] !in order[..|order| - 1]
    ensures var p, q := InsideAny(f.services, order[..|order| - 1]), Loads(f.services, order[|order| - 1]);
            (InsideAny(f.services, order)(call) <==> p(call) || q(call)) && !(p(call) && q(call))
  {
    var i, j := EndsOf(f, call);
    var n := |order| - 1;
    InsideAnyIs(f, order, call, i, j);
    InsideAnyIs(f, order[..n], call, i, j);
    LoadsIsInside(f, order[n], call, i, j);
    assert order == order[..n] + [order[n]];
  }

  /** After loading some clusters, each once and in any order, the store holds exactly their services and the calls
      inside each of them - nothing twice. */
  lemma {:induction false} LoadedSoFar(f: Fleet, order: seq<string>)
    requires Mapped(f) && Distinct(order) && forall i | 0 <= i < |order| :: ':' !in order[i]
    ensures multiset(LoadAll(f, order).nodes) == multiset(Keep(f.services, InAny(order)))
    ensures multiset(LoadAll(f, order).edges) == multiset(Keep(f.calls, InsideAny(f.services, order)))
  {
    if order == [] {
      KeepNone(f.services, InAny(order));
      KeepNone(f.calls, InsideAny(f.services, order));
    } else {
      var n := |order| - 1;
      assert order == order[..n] + [order[n]];
      LoadedSoFar(f, order[..n]);
      KeepSplits(f.services, InAny(order[..n]), InCluster(order[n]), InAny(order));
      forall call | call in f.calls
        ensures var p, q := InsideAny(f.services, order[..n]), Loads(f.services, order[n]);
                (InsideAny(f.services, order)(call) <==> p(call) || q(call)) && !(p(call) && q(call))
      {
        LastBatchAdds(f, order, call);
      }
      KeepSplits(f.calls, InsideAny(f.services, order[..n]), Loads(f.services, order[n]), InsideAny(f.services, order));
    }
  }

  /** Loading every cluster, in any order, yields the whole fleet minus exactly the calls between clusters. */
  lemma LoadingAllYieldsTheFleet(f: Fleet, order: seq<string>)
    requires Mapped(f) && Distinct(order) && forall i | 0 <= i < |order| :: ':' !in order[i]
    requires forall i | 0 <= i < |f.services| :: f.services[i].cluster in order
    ensures multiset(LoadAll(f, order).nodes) == multiset(f.services)
    ensures forall call | call in f.calls ::
              call in LoadAll(f, order).edges
              <==> exists i: nat, j: nat | Joins(f, call, i, j) :: f.services[i].cluster == f.services[j].cluster
    ensures multiset(LoadAll(f, order).edges) <= multiset(f.calls)
  {
    LoadedSoFar(f, order);
    KeepAll(f.services, InAny(order));
    var kept := Keep(f.calls, InsideAny(f.services, order));
    KeepIsPart(f.calls, InsideAny(f.services, order));
    forall call | call in f.calls
      ensures call in LoadAll(f, order).edges
              <==> exists i: nat, j: nat | Joins(f, call, i, j) :: f.services[i].cluster == f.services[j].cluster
    {
      assert call in LoadAll(f, order).edges <==> call in multiset(kept);
      KeepHas(f.calls, InsideAny(f.services, order), call);
      var i, j := EndsOf(f, call);
      InsideAnyIs(f, order, call, i, j);
      assert forall k: nat, m: nat | Joins(f, call, k, m) :: k == i && m == j;
    }
  }

  lemma {:induction false} KeepIsPart<T>(xs: seq<T>, p: T -> bool)
    ensures multiset(Keep(xs, p)) <= multiset(xs)
  {
    if xs != [] {
      assert xs == xs[..|xs| - 1] + [xs[|xs| - 1]];
      KeepIsPart(xs[..|xs| - 1], p);
    }
  }
}
