/** What every generated fleet looks like, proved along the draws that make it. */
module FleetShape {
  import opened Names
  import opened Runs
  import opened Topology
  import opened FleetMachine

  /** A call of service k within its cluster: to a service one tier down, by the protocol of its tier. */
  ghost predicate IsOwn(c: Call, k: nat) {
    && c.from == SidAt(k) && c.protocol == Protocol(TierAt(k)) && 2 <= c.p95 <= 122
    && exists at: nat | at < Down(k).Size() :: c.to == Sid(CLUSTERS[ClusterOf(k)], Down(k), at)
  }

  /** A call of service k to another cluster: to a service one tier down, over a queue. */
  ghost predicate IsCross(c: Call, k: nat) {
    && c.from == SidAt(k) && c.protocol == "queue" && 10 <= c.p95 <= 310
    && exists cluster: Cluster, at: nat | IsOther(k, cluster) && at < Down(k).Size() :: c.to == Sid(CLUSTERS[cluster], Down(k), at)
  }

  ghost function OwnSize(calls: seq<Call>, k: nat): nat {
    if calls == [] then 0 else OwnSize(calls[..|calls| - 1], k) + if IsOwn(calls[|calls| - 1], k) then 1 else 0
  }

  ghost function CrossSize(calls: seq<Call>, k: nat): nat {
    if calls == [] then 0 else CrossSize(calls[..|calls| - 1], k) + if IsCross(calls[|calls| - 1], k) then 1 else 0
  }

  lemma SizesStep(calls: seq<Call>, c: Call, k: nat)
    ensures OwnSize(calls + [c], k) == OwnSize(calls, k) + if IsOwn(c, k) then 1 else 0
    ensures CrossSize(calls + [c], k) == CrossSize(calls, k) + if IsCross(c, k) then 1 else 0
  {
    assert (calls + [c])[..|calls|] == calls;
  }

  // ------------------------------------------------------------------ the ids --

  lemma ClustersHaveNoColon(c: nat)
    requires c < |CLUSTERS|
    ensures ':' !in CLUSTERS[c]
  {
  }

  lemma ClustersDiffer(c: nat, c': nat)
    requires c < |CLUSTERS| && c' < |CLUSTERS| && CLUSTERS[c] == CLUSTERS[c']
    ensures c == c'
  {
  }

  /** Cluster, tier and number say which service it is. */
  lemma SlotIs(c: nat, t: Tier, i: nat)
    requires c < |CLUSTERS| && i < t.Size()
    ensures var k := Start(c, t) + i; k < TOTAL && ClusterOf(k) == c && TierAt(k) == t && NumberAt(k) == i
  {
    var k := c * PER_CLUSTER + (Offset(t) + i);
    assert k / PER_CLUSTER == c && k % PER_CLUSTER == Offset(t) + i;
  }

  lemma SlotOf(k: nat)
    requires k < TOTAL
    ensures NumberAt(k) < TierAt(k).Size() && k == Start(ClusterOf(k), TierAt(k)) + NumberAt(k)
  {
    assert k / PER_CLUSTER < |CLUSTERS|;
  }

  lemma UniqueSids(j: nat, k: nat)
    requires j < TOTAL && k < TOTAL && SidAt(j) == SidAt(k)
    ensures j == k
  {
    var c, d := ClusterOf(j), ClusterOf(k);
    ClustersHaveNoColon(c);
    ClustersHaveNoColon(d);
    SidInjective(CLUSTERS[c], TierAt(j), NumberAt(j), CLUSTERS[d], TierAt(k), NumberAt(k));
    ClustersDiffer(c, d);
    SlotOf(j);
    SlotOf(k);
  }

  // ------------------------------------------------------------------ the step --

  /** The bounds on the calls of one service while the generation is at phase p. */
  ghost predicate Bounded(p: Phase, k: nat, own: nat, cross: nat) {
    match p
    case Naming(_) => own == 0 && cross == 0
    case Done => Finished(k, own, cross)
    case Thrown => true
    case _ =>
      if k < p.k then Finished(k, own, cross)
      else cross == 0 && if k > p.k then own == 0 else Underway(p, own)
  }

  /** One to four own-cluster calls and at most one across for a service that calls; none for the data tier. */
  predicate Finished(k: nat, own: nat, cross: nat) {
    if Caller(k) then 1 <= own <= 4 && cross <= 1 else own == 0 && cross == 0
  }

  predicate Underway(p: Phase, own: nat) {
    match p
    case Fanning(_) => own == 0
    case Calling(_, left) => own + left <= 4
    case Timing(_, left, _) => own + left <= 4
    case _ => 1 <= own <= 4
  }

  /** The own-cluster calls of service k when those that its fan-out still asks for are counted. */
  function Planned(p: Phase, k: nat, own: nat): nat {
    own + match p
          case Calling(j, left) => if j == k then left else 0
          case Timing(j, left, _) => if j == k then left else 0
          case _ => 0
  }

  /** Between k and the next service that calls there are only services that do not. */
  lemma FromSkips(k: nat, j: nat)
    requires k <= j < TOTAL && (From(k).Fanning? ==> j < From(k).k)
    ensures !Caller(j)
  {
    var q := k / PER_CLUSTER;
    assert k < (q + 1) * PER_CLUSTER;
    if !Caller(k) && j < (q + 1) * PER_CLUSTER {
      assert j / PER_CLUSTER == q && j % PER_CLUSTER >= k % PER_CLUSTER;
    }
  }

  lemma FromIsAhead(k: nat)
    ensures From(k).Done? || (From(k).Fanning? && From(k).k >= k)
  {
  }

  /** Moving on from service k, which is finished. */
  lemma MovesOn(p: Phase, k: nat, own: nat, cross: nat)
    requires (p.Tossing? || p.CrossTiming?) && p.Valid() && k < TOTAL
    requires if k == p.k then Finished(k, own, cross) else Bounded(p, k, own, cross)
    ensures Bounded(From(p.k + 1), k, own, cross)
  {
    FromIsAhead(p.k + 1);
    if k > p.k && !(From(p.k + 1).Fanning? && k >= From(p.k + 1).k) {
      FromSkips(p.k + 1, k);
    }
  }

  /** A draw that adds no call keeps the bounds. */
  lemma BoundsKeep(p: Phase, v: real, k: nat, own: nat, cross: nat)
    requires p.Valid() && 0.0 <= v <= 1.0 && !p.Timing? && !p.CrossTiming? && k < TOTAL
    requires Bounded(p, k, own, cross)
    ensures Bounded(p.Next(v), k, own, cross)
  {
    match p
    case Naming(j) => if j + 1 == TOTAL { assert From(0) == Fanning(0); }
    case Fanning(_) => FanOutIsTop(v);
    case Tossing(_) => if v >= 0.05 { MovesOn(p, k, own, cross); }
    case _ =>
  }

  lemma BoundsOwn(p: Phase, v: real, k: nat, own: nat, cross: nat)
    requires p.Valid() && p.Timing? && k < TOTAL && Bounded(p, k, own, cross)
    ensures Bounded(p.Next(v), k, own + (if k == p.k then 1 else 0), cross)
    ensures Planned(p.Next(v), k, own + (if k == p.k then 1 else 0)) == Planned(p, k, own)
  {
  }

  lemma BoundsCross(p: Phase, v: real, k: nat, own: nat, cross: nat)
    requires p.Valid() && p.CrossTiming? && k < TOTAL && Bounded(p, k, own, cross)
    ensures Bounded(p.Next(v), k, own, cross + (if k == p.k then 1 else 0))
  {
    MovesOn(p, k, own, cross + (if k == p.k then 1 else 0));
  }

  // ---------------------------------------------------------------- the calls --

  lemma RoundedInRange(v: real, least: nat, span: nat)
    requires 0.0 <= v <= 1.0
    ensures least <= Milliseconds(v, least, span) <= least + span
  {
    assert 0.0 <= v * span as real <= span as real;
  }

  /** A call within the cluster is the caller's, and nobody else's. */
  lemma OwnCallIs(n: nat, p: Phase, v: real, k: nat)
    requires p.Timing? && p.Valid() && 0.0 <= v <= 1.0 && k < TOTAL
    ensures IsOwn(OwnCall(n, p.k, p.at, v), k) <==> k == p.k
    ensures !IsCross(OwnCall(n, p.k, p.at, v), k)
  {
    RoundedInRange(v, 2, 120);
    if k != p.k && SidAt(k) == SidAt(p.k) {
      UniqueSids(k, p.k);
    }
  }

  lemma CrossCallIs(n: nat, p: Phase, v: real, k: nat)
    requires p.CrossTiming? && p.Valid() && 0.0 <= v <= 1.0 && k < TOTAL
    ensures IsCross(CrossCall(n, p.k, p.cluster, p.at, v), k) <==> k == p.k
    ensures !IsOwn(CrossCall(n, p.k, p.cluster, p.at, v), k)
  {
    RoundedInRange(v, 10, 300);
    if k != p.k && SidAt(k) == SidAt(p.k) {
      UniqueSids(k, p.k);
    }
  }

  // ------------------------------------------------------------ the invariant --

  /** The k-th service has the id of its slot, and a name from a noun of the list - or from none. */
  predicate IsService(nouns: seq<string>, v: Service, k: nat) {
    && v.sid == SidAt(k) && v.cluster == CLUSTERS[ClusterOf(k)] && v.tier == TierAt(k)
    && exists noun | noun in nouns + ["undefined"] :: v.name == noun + "-" + TierAt(k).Word() + "-" + Decimal(NumberAt(k))
  }

  ghost predicate ServicesOk(nouns: seq<string>, p: Phase, services: seq<Service>) {
    && (if p.Naming? then |services| == p.k else |services| == TOTAL)
    && forall k: nat | k < |services| :: IsService(nouns, services[k], k)
  }

  ghost predicate CallOk(c: Call) {
    exists k: nat | Caller(k) :: IsOwn(c, k) || IsCross(c, k)
  }

  ghost predicate CallsOk(calls: seq<Call>) {
    forall j: nat | j < |calls| :: calls[j].cid == Cid(j) && CallOk(calls[j])
  }

  ghost predicate BoundsOk(p: Phase, calls: seq<Call>) {
    forall k: nat | k < TOTAL :: Bounded(p, k, OwnSize(calls, k), CrossSize(calls, k))
  }

  /** Does some service make four calls within its cluster, or is it about to? */
  ghost predicate SomeoneFour(p: Phase, calls: seq<Call>) {
    exists k: nat | k < TOTAL :: Planned(p, k, OwnSize(calls, k)) == 4
  }

  ghost predicate GenOk(nouns: seq<string>, g: Gen) {
    && g.phase.Valid()
    && ServicesOk(nouns, g.phase, g.services) && CallsOk(g.calls) && BoundsOk(g.phase, g.calls)
    && (!g.phase.Thrown? ==> (g.wide <==> SomeoneFour(g.phase, g.calls)))
  }

  lemma NamedIsService(nouns: seq<string>, k: nat, v: real)
    ensures IsService(nouns, Named(nouns, k, v), k)
  {
    match Pick(v, |nouns|)
    case None => assert (nouns + ["undefined"])[|nouns|] == "undefined";
    case Some(i) => assert (nouns + ["undefined"])[i] == nouns[i];
  }

  lemma ServicesStep(nouns: seq<string>, g: Gen, v: real)
    requires g.phase.Valid() && ServicesOk(nouns, g.phase, g.services)
    ensures ServicesOk(nouns, g.phase.Next(v), g.Next(nouns, v).services)
  {
    if g.phase.Naming? {
      NamedIsService(nouns, g.phase.k, v);
    }
  }

  lemma CallsGrow(calls: seq<Call>, c: Call)
    requires CallsOk(calls) && c.cid == Cid(|calls|) && CallOk(c)
    ensures CallsOk(calls + [c])
  {
    hide CallOk, Cid;
  }

  lemma CallsStep(nouns: seq<string>, g: Gen, v: real)
    requires g.phase.Valid() && CallsOk(g.calls) && 0.0 <= v <= 1.0
    ensures CallsOk(g.Next(nouns, v).calls)
  {
    var p := g.phase;
    if p.Timing? {
      OwnCallIs(|g.calls|, p, v, p.k);
      CallsGrow(g.calls, OwnCall(|g.calls|, p.k, p.at, v));
    } else if p.CrossTiming? {
      CrossCallIs(|g.calls|, p, v, p.k);
      CallsGrow(g.calls, CrossCall(|g.calls|, p.k, p.cluster, p.at, v));
    }
  }

  lemma BoundStep(nouns: seq<string>, g: Gen, v: real, k: nat)
    requires GenOk(nouns, g) && 0.0 <= v <= 1.0 && k < TOTAL
    ensures var h := g.Next(nouns, v); Bounded(h.phase, k, OwnSize(h.calls, k), CrossSize(h.calls, k))
  {
    var p := g.phase;
    assert Bounded(p, k, OwnSize(g.calls, k), CrossSize(g.calls, k));
    if p.Timing? {
      OwnCallIs(|g.calls|, p, v, k);
      SizesStep(g.calls, OwnCall(|g.calls|, p.k, p.at, v), k);
      BoundsOwn(p, v, k, OwnSize(g.calls, k), CrossSize(g.calls, k));
    } else if p.CrossTiming? {
      CrossCallIs(|g.calls|, p, v, k);
      SizesStep(g.calls, CrossCall(|g.calls|, p.k, p.cluster, p.at, v), k);
      BoundsCross(p, v, k, OwnSize(g.calls, k), CrossSize(g.calls, k));
    } else {
      BoundsKeep(p, v, k, OwnSize(g.calls, k), CrossSize(g.calls, k));
    }
  }

  lemma PlannedKeeps(p: Phase, v: real, k: nat, own: nat)
    requires p.Valid() && !p.Timing? && !p.Next(v).Thrown? && (p.Fanning? && k == p.k ==> own == 0)
    ensures Planned(p.Next(v), k, own) == if p.Fanning? && k == p.k then FanOut(v) else Planned(p, k, own)
  {
    match p
    case Naming(_) => FromIsAhead(0);
    case Tossing(j) => FromIsAhead(j + 1);
    case CrossTiming(j, _, _) => FromIsAhead(j + 1);
    case _ =>
  }

  /** Only a fan-out draw changes what a service is going to call. */
  lemma PlannedStep(nouns: seq<string>, g: Gen, v: real, k: nat)
    requires g.phase.Valid() && 0.0 <= v <= 1.0 && k < TOTAL && !g.phase.Next(v).Thrown?
    requires Bounded(g.phase, k, OwnSize(g.calls, k), CrossSize(g.calls, k))
    ensures var h := g.Next(nouns, v);
            Planned(h.phase, k, OwnSize(h.calls, k))
            == if g.phase.Fanning? && k == g.phase.k then FanOut(v) else Planned(g.phase, k, OwnSize(g.calls, k))
  {
    var p, own := g.phase, OwnSize(g.calls, k);
    if p.Timing? {
      OwnCallIs(|g.calls|, p, v, k);
      SizesStep(g.calls, OwnCall(|g.calls|, p.k, p.at, v), k);
      BoundsOwn(p, v, k, own, CrossSize(g.calls, k));
    } else {
      if p.CrossTiming? {
        CrossCallIs(|g.calls|, p, v, k);
        SizesStep(g.calls, CrossCall(|g.calls|, p.k, p.cluster, p.at, v), k);
      }
      PlannedKeeps(p, v, k, own);
    }
  }

  lemma WideStep(nouns: seq<string>, g: Gen, v: real)
    requires GenOk(nouns, g) && 0.0 <= v <= 1.0
    ensures var h := g.Next(nouns, v); !h.phase.Thrown? ==> (h.wide <==> SomeoneFour(h.phase, h.calls))
  {
    var h := g.Next(nouns, v);
    if !h.phase.Thrown? {
      forall k: nat | k < TOTAL
        ensures Planned(h.phase, k, OwnSize(h.calls, k))
                == if g.phase.Fanning? && k == g.phase.k then FanOut(v) else Planned(g.phase, k, OwnSize(g.calls, k))
      {
        assert Bounded(g.phase, k, OwnSize(g.calls, k), CrossSize(g.calls, k));
        PlannedStep(nouns, g, v, k);
      }
      if g.phase.Fanning? {
        assert Bounded(g.phase, g.phase.k, OwnSize(g.calls, g.phase.k), CrossSize(g.calls, g.phase.k));
        assert Planned(g.phase, g.phase.k, OwnSize(g.calls, g.phase.k)) == 0;
      }
    }
  }

  lemma GenStaysOk(nouns: seq<string>, g: Gen, v: real)
    requires GenOk(nouns, g) && 0.0 <= v <= 1.0
    ensures GenOk(nouns, g.Next(nouns, v))
  {
    NextIsValid(g.phase, v);
    ServicesStep(nouns, g, v);
    CallsStep(nouns, g, v);
    forall k: nat | k < TOTAL
      ensures var h := g.Next(nouns, v); Bounded(h.phase, k, OwnSize(h.calls, k), CrossSize(h.calls, k))
    {
      BoundStep(nouns, g, v, k);
    }
    WideStep(nouns, g, v);
  }

  /** The invariant holds after any number of draws. */
  lemma AlwaysOk(nouns: seq<string>, draws: nat -> real, n: nat)
    requires InRange(draws)
    ensures GenOk(nouns, GenAt(nouns, draws, n))
  {
    var ok := (g: Gen) => GenOk(nouns, g);
    forall g: Gen, v | ok(g) && 0.0 <= v <= 1.0 ensures ok(GenStep(nouns)(g, v)) {
      GenStaysOk(nouns, g, v);
    }
    assert ok(START);
    Keeps(GenStep(nouns), START, draws, n, ok);
  }
}
