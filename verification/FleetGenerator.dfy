/** The seeded generator of the service map as it runs: nested loops over clusters, tiers, services and calls,
    proved to make the fleet that the seed decides. */
module FleetGenerator {
  import opened Options
  import opened Names
  import opened Runs
  import opened Topology
  import opened Xorshift
  import opened FleetMachine
  import opened FleetShape

  lemma OneMoreDraw(nouns: seq<string>, seed: Register, n: nat)
    ensures After(seed, n + 1) == Step(After(seed, n)) && 0.0 <= Unit(After(seed, n + 1)) <= 1.0
    ensures GenAt(nouns, DrawsOf(seed), n + 1) == GenAt(nouns, DrawsOf(seed), n).Next(nouns, Unit(After(seed, n + 1)))
  {
    AfterStep(seed, n);
    UnitRange(After(seed, n + 1));
  }

  /** The generator's state. What has been drawn and made so far is kept for the proofs. */
  class Draws {
    var s: Register
    ghost const seed: Register
    ghost const nouns: seq<string>
    ghost var n: nat
    ghost var g: Gen

    ghost predicate Valid()
      reads this
    {
      s == After(seed, n) && g == GenAt(nouns, DrawsOf(seed), n)
    }

    constructor (nouns: seq<string>, seed: Register)
      ensures Valid() && this.seed == seed && this.nouns == nouns && g == START
    {
      s := seed;
      this.seed, this.nouns := seed, nouns;
      n, g := 0, START;
    }

    method Rnd() returns (r: real)
      requires Valid()
      modifies this
      ensures Valid() && 0.0 <= r <= 1.0 && g == old(g).Next(nouns, r)
    {
      hide Run, Iterate, Step;
      OneMoreDraw(nouns, seed, n);
      var next := Step(s);
      r := Unit(next);
      s, n, g := next, n + 1, GenAt(nouns, DrawsOf(seed), n + 1);
    }
  }

  // ------------------------------------------------------------ the services --

  type Buckets = map<(string, Tier), seq<Service>>

  predicate HasBucket(buckets: Buckets, services: seq<Service>, c: nat, t: Tier)
    requires c < |CLUSTERS|
  {
    && Start(c, t) + t.Size() <= |services|
    && (CLUSTERS[c], t) in buckets
    && buckets[(CLUSTERS[c], t)] == services[Start(c, t)..Start(c, t) + t.Size()]
  }

  predicate AllBuckets(buckets: Buckets, services: seq<Service>) {
    forall c: nat, t: Tier | c < |CLUSTERS| :: HasBucket(buckets, services, c, t)
  }

  /** What is drawn once k services are named. */
  function NamingFrom(k: nat): Phase {
    if k < TOTAL then Naming(k) else From(0)
  }

  /** `${cluster}:${tier}-${i}`, with the drawn noun for a name. */
  method BuildService(nouns: seq<string>, c: Cluster, t: Tier, i: nat, r: real, ghost k: nat) returns (v: Service)
    requires i < t.Size() && k == Start(c, t) + i
    ensures v == Named(nouns, k, r)
  {
    SlotIs(c, t, i);
    assert SidAt(k) == Sid(CLUSTERS[c], t, i) && TierAt(k) == t && NumberAt(k) == i;
    var noun := match Pick(r, |nouns|) case None => "undefined" case Some(n) => nouns[n];
    v := Service(Sid(CLUSTERS[c], t, i), noun + "-" + t.Word() + "-" + Decimal(i), CLUSTERS[c], t);
  }

  method OneService(d: Draws, nouns: seq<string>, c: Cluster, t: Tier, i: nat, ghost k: nat) returns (v: Service)
    requires d.Valid() && d.nouns == nouns && i < t.Size()
    requires k == Start(c, t) + i < TOTAL && d.g.phase == Naming(k)
    modifies d
    ensures d.Valid() && d.g.phase == NamingFrom(k + 1)
    ensures d.g.services == old(d.g.services) + [v] && d.g.calls == old(d.g.calls)
  {
    hide Run;
    var r := d.Rnd();
    v := BuildService(nouns, c, t, i, r, k);
  }

  /** One tier of one cluster: its services follow those already there. */
  method OneTier(d: Draws, nouns: seq<string>, c: nat, t: Tier) returns (bucket: seq<Service>)
    requires d.Valid() && d.nouns == nouns && c < |CLUSTERS| && d.g.phase == NamingFrom(Start(c, t))
    modifies d
    ensures d.Valid() && d.g.phase == NamingFrom(Start(c, t) + t.Size()) && |bucket| == t.Size()
    ensures d.g.services == old(d.g.services) + bucket && d.g.calls == old(d.g.calls)
  {
    hide Run;
    bucket := [];
    for i := 0 to t.Size()
      invariant d.Valid() && d.g.phase == NamingFrom(Start(c, t) + i) && |bucket| == i
      invariant d.g.services == old(d.g.services) + bucket && d.g.calls == old(d.g.calls)
    {
      SlotIs(c, t, i);
      var v := OneService(d, nouns, c, t, i, Start(c, t) + i);
      assert old(d.g.services) + (bucket + [v]) == (old(d.g.services) + bucket) + [v];
      bucket := bucket + [v];
    }
  }

  predicate Before(c: nat, t: Tier, c': nat, depth: nat) {
    c < c' || (c == c' && t.Depth() < depth)
  }

  ghost predicate BucketsUpTo(buckets: Buckets, services: seq<Service>, c: nat, depth: nat) {
    forall c': nat, t': Tier | c' < |CLUSTERS| && Before(c', t', c, depth) :: HasBucket(buckets, services, c', t')
  }

  lemma BucketsKept(buckets: Buckets, services: seq<Service>, c: nat, t: Tier, bucket: seq<Service>, next: nat)
    requires next == t.Depth() + 1
    requires c < |CLUSTERS| && |services| == Start(c, t) && |bucket| == t.Size()
    requires BucketsUpTo(buckets, services, c, next - 1)
    ensures BucketsUpTo(buckets[(CLUSTERS[c], t) := bucket], services + bucket, c, next)
  {
    var both := services + bucket;
    forall c': nat, t': Tier | c' < |CLUSTERS| && Before(c', t', c, next)
      ensures HasBucket(buckets[(CLUSTERS[c], t) := bucket], both, c', t')
    {
      if c' == c && t' == t {
        assert both[Start(c, t)..Start(c, t) + t.Size()] == bucket;
      } else {
        assert HasBucket(buckets, services, c', t');
        var i := Start(c', t');
        assert both[i..i + t'.Size()] == services[i..i + t'.Size()];
      }
    }
  }

  /** All the tiers of one cluster. */
  method OneCluster(d: Draws, nouns: seq<string>, c: nat, services: seq<Service>, buckets: Buckets)
    returns (services': seq<Service>, buckets': Buckets)
    requires d.Valid() && d.nouns == nouns && c < |CLUSTERS| && d.g.phase == NamingFrom(c * PER_CLUSTER)
    requires |services| == c * PER_CLUSTER && services == d.g.services && BucketsUpTo(buckets, services, c, 0)
    modifies d
    ensures d.Valid() && d.g.phase == NamingFrom((c + 1) * PER_CLUSTER)
    ensures |services'| == (c + 1) * PER_CLUSTER && services' == d.g.services && d.g.calls == old(d.g.calls)
    ensures BucketsUpTo(buckets', services', c, 4)
  {
    hide Run;
    services', buckets' := services, buckets;
    for j := 0 to |TIERS|
      invariant |services'| == if j < |TIERS| then Start(c, TIERS[j]) else (c + 1) * PER_CLUSTER
      invariant d.Valid() && d.g.phase == NamingFrom(|services'|)
      invariant services' == d.g.services && d.g.calls == old(d.g.calls) && BucketsUpTo(buckets', services', c, j)
    {
      var t := TIERS[j];
      var bucket := OneTier(d, nouns, c, t);
      BucketsKept(buckets', services', c, t, bucket, j + 1);
      services', buckets' := services' + bucket, buckets'[(CLUSTERS[c], t) := bucket];
    }
  }

  /** All 240 services, and the buckets the calls are picked from. */
  method Roll(d: Draws, nouns: seq<string>) returns (services: seq<Service>, buckets: Buckets)
    requires d.Valid() && d.nouns == nouns && d.g == START
    modifies d
    ensures d.Valid() && d.g.phase == From(0) && d.g.services == services && d.g.calls == []
    ensures |services| == TOTAL && AllBuckets(buckets, services)
  {
    hide Run;
    services, buckets := [], map[];
    for c := 0 to |CLUSTERS|
      invariant d.Valid() && d.g.phase == NamingFrom(c * PER_CLUSTER)
      invariant |services| == c * PER_CLUSTER && services == d.g.services && d.g.calls == []
      invariant BucketsUpTo(buckets, services, c, 0)
    {
      services, buckets := OneCluster(d, nouns, c, services, buckets);
    }
  }

  // --------------------------------------------------------------- the calls --

  /** The services of one tier of one cluster, in order. */
  predicate IsBucket(bucket: seq<Service>, c: Cluster, t: Tier) {
    && |bucket| == t.Size()
    && forall i: nat | i < |bucket| :: bucket[i].sid == Sid(CLUSTERS[c], t, i) && bucket[i].tier == t
  }

  ghost predicate Rolled(nouns: seq<string>, services: seq<Service>, buckets: Buckets) {
    ServicesOk(nouns, Done, services) && AllBuckets(buckets, services)
  }

  /** byClusterTier.get(...) for the tier below a service. */
  method BucketOf(nouns: seq<string>, services: seq<Service>, buckets: Buckets, c: Cluster, svc: Service, ghost k: nat)
    returns (bucket: seq<Service>)
    requires Rolled(nouns, services, buckets) && Caller(k) && svc.tier == TierAt(k)
    ensures IsBucket(bucket, c, Down(k))
  {
    CallersCall(k);
    var t := svc.tier.Below();
    assert HasBucket(buckets, services, c, t);
    bucket := buckets[(CLUSTERS[c], t)];
    forall i: nat | i < |bucket| ensures bucket[i].sid == Sid(CLUSTERS[c], t, i) && bucket[i].tier == t {
      SlotIs(c, t, i);
      assert bucket[i] == services[Start(c, t) + i];
      assert IsService(nouns, services[Start(c, t) + i], Start(c, t) + i);
    }
  }

  /** One call within the cluster, or the exception. */
  method OneCall(d: Draws, svc: Service, bucket: seq<Service>, cid: nat, ghost k: nat, ghost left: nat)
    returns (call: Option<Call>)
    requires d.Valid() && d.g.phase == Calling(k, left) && cid == |d.g.calls|
    requires svc.sid == SidAt(k) && svc.tier == TierAt(k) && IsBucket(bucket, ClusterOf(k), Down(k))
    modifies d
    ensures d.Valid() && d.g.services == old(d.g.services)
    ensures call.None? ==> d.g.phase == Thrown
    ensures call.Some? ==> d.g.calls == old(d.g.calls) + [call.value]
    ensures call.Some? ==> d.g.phase == if left > 1 then Calling(k, left - 1) else Tossing(k)
  {
    hide Run;
    var r := d.Rnd();
    var i := Pick(r, |bucket|);
    if i.None? {
      return None;
    }
    var to := bucket[i.value];
    var protocol := if to.tier == Data then "sql" else if svc.tier == Edge then "http" else "grpc";
    r := d.Rnd();
    call := Some(Call(Cid(cid), svc.sid, to.sid, protocol, Milliseconds(r, 2, 120)));
  }

  /** The calls of a service within its cluster. */
  method OwnCalls(d: Draws, svc: Service, bucket: seq<Service>, cid: nat, ghost k: nat) returns (ok: bool, made: seq<Call>)
    requires d.Valid() && d.g.phase == Fanning(k) && cid == |d.g.calls|
    requires svc.sid == SidAt(k) && svc.tier == TierAt(k) && IsBucket(bucket, ClusterOf(k), Down(k))
    modifies d
    ensures d.Valid() && d.g.services == old(d.g.services)
    ensures d.g.phase == if ok then Tossing(k) else Thrown
    ensures ok ==> d.g.calls == old(d.g.calls) + made
  {
    hide Run;
    var r := d.Rnd();
    FanOutIsTop(r);
    var fanOut := FanOut(r);
    made := [];
    for i := 0 to fanOut
      invariant d.Valid() && d.g.phase == if i < fanOut then Calling(k, fanOut - i) else Tossing(k)
      invariant d.g.services == old(d.g.services) && d.g.calls == old(d.g.calls) + made && |made| == i
    {
      var call := OneCall(d, svc, bucket, cid + i, k, fanOut - i);
      if call.None? {
        return false, made;
      }
      assert old(d.g.calls) + (made + [call.value]) == (old(d.g.calls) + made) + [call.value];
      made := made + [call.value];
    }
    ok := true;
  }

  /** pick(CLUSTERS.filter(...)) */
  method PickOther(d: Draws, ghost k: nat, cluster: Cluster) returns (c: Option<Cluster>)
    requires d.Valid() && d.g.phase == Choosing(k) && cluster == ClusterOf(k)
    modifies d
    ensures d.Valid() && d.g.services == old(d.g.services) && d.g.calls == old(d.g.calls)
    ensures match c
            case None => d.g.phase == Thrown
            case Some(j) => d.g.phase == Aiming(k, j)
  {
    hide Run;
    var others := Others(cluster, |CLUSTERS|);
    var r := d.Rnd();
    var i := Pick(r, |others|);
    c := if i.Some? then Some(others[i.value]) else None;
  }

  /** pick(byClusterTier.get(...)) in the other cluster. */
  method PickTarget(d: Draws, size: nat, ghost k: nat, ghost c: Cluster) returns (i: Option<nat>)
    requires d.Valid() && d.g.phase == Aiming(k, c) && size == Down(k).Size()
    modifies d
    ensures d.Valid() && d.g.services == old(d.g.services) && d.g.calls == old(d.g.calls)
    ensures match i
            case None => d.g.phase == Thrown
            case Some(at) => d.g.phase == CrossTiming(k, c, at) && at < size
  {
    hide Run;
    var r := d.Rnd();
    i := Pick(r, size);
  }

  method BuildCross(svc: Service, to: Service, cid: nat, r: real, ghost k: nat, ghost c: Cluster, ghost at: nat) returns (call: Call)
    requires svc.sid == SidAt(k) && to.sid == Sid(CLUSTERS[c], Down(k), at)
    ensures call == CrossCall(cid, k, c, at, r)
  {
    call := Call(Cid(cid), svc.sid, to.sid, "queue", Milliseconds(r, 10, 300));
  }

  method TimeCross(d: Draws, svc: Service, to: Service, cid: nat, ghost k: nat, ghost c: Cluster, ghost at: nat)
    returns (call: Call)
    requires d.Valid() && d.g.phase == CrossTiming(k, c, at) && cid == |d.g.calls|
    requires svc.sid == SidAt(k) && to.sid == Sid(CLUSTERS[c], Down(k), at)
    modifies d
    ensures d.Valid() && d.g.phase == From(k + 1)
    ensures d.g.services == old(d.g.services) && d.g.calls == old(d.g.calls) + [call]
  {
    hide Run;
    var r := d.Rnd();
    call := BuildCross(svc, to, cid, r, k, c, at);
  }

  /** One call to another cluster, or the exception. */
  method CrossTo(d: Draws, svc: Service, bucket: seq<Service>, cid: nat, ghost k: nat, ghost c: Cluster) returns (call: Option<Call>)
    requires d.Valid() && d.g.phase == Aiming(k, c) && cid == |d.g.calls|
    requires svc.sid == SidAt(k) && IsBucket(bucket, c, Down(k))
    modifies d
    ensures d.Valid() && d.g.services == old(d.g.services)
    ensures d.g.phase == if call.Some? then From(k + 1) else Thrown
    ensures call.Some? ==> d.g.calls == old(d.g.calls) + [call.value]
  {
    hide Run;
    var i := PickTarget(d, |bucket|, k, c);
    if i.None? {
      return None;
    }
    var made := TimeCross(d, svc, bucket[i.value], cid, k, c, i.value);
    call := Some(made);
  }

  method OtherCluster(d: Draws, nouns: seq<string>, services: seq<Service>, buckets: Buckets, svc: Service, k: nat, cid: nat)
    returns (call: Option<Call>)
    requires d.Valid() && d.g.phase == Choosing(k) && cid == |d.g.calls| && Rolled(nouns, services, buckets)
    requires Caller(k) && svc.sid == SidAt(k) && svc.tier == TierAt(k)
    modifies d
    ensures d.Valid() && d.g.services == old(d.g.services)
    ensures d.g.phase == if call.Some? then From(k + 1) else Thrown
    ensures call.Some? ==> d.g.calls == old(d.g.calls) + [call.value]
  {
    hide Run;
    var c := PickOther(d, k, ClusterOf(k));
    if c.None? {
      return None;
    }
    var bucket := BucketOf(nouns, services, buckets, c.value, svc, k);
    call := CrossTo(d, svc, bucket, cid, k, c.value);
  }

  /** rnd() < 0.05 */
  method Flip(d: Draws, ghost k: nat) returns (heads: bool)
    requires d.Valid() && d.g.phase == Tossing(k)
    modifies d
    ensures d.Valid() && d.g.services == old(d.g.services) && d.g.calls == old(d.g.calls)
    ensures d.g.phase == if heads then Choosing(k) else From(k + 1)
  {
    hide Run;
    var r := d.Rnd();
    heads := r < 0.05;
  }

  /** At most one call across clusters, when the coin draw is below 0.05. */
  method Across(d: Draws, nouns: seq<string>, services: seq<Service>, buckets: Buckets, svc: Service, k: nat, cid: nat)
    returns (ok: bool, call: Option<Call>)
    requires d.Valid() && d.g.phase == Tossing(k) && cid == |d.g.calls| && Rolled(nouns, services, buckets)
    requires Caller(k) && svc.sid == SidAt(k) && svc.tier == TierAt(k)
    modifies d
    ensures d.Valid() && d.g.services == old(d.g.services)
    ensures d.g.phase == if ok then From(k + 1) else Thrown
    ensures ok ==> d.g.calls == if call.Some? then old(d.g.calls) + [call.value] else old(d.g.calls)
  {
    hide Run;
    var heads := Flip(d, k);
    if !heads {
      return true, None;
    }
    call := OtherCluster(d, nouns, services, buckets, svc, k, cid);
    ok := call.Some?;
  }

  lemma NotACaller(k: nat)
    requires k < TOTAL && TierAt(k) == Data
    ensures From(k) == From(k + 1)
  {
    assert k / PER_CLUSTER < |CLUSTERS|;
  }

  lemma ACaller(k: nat)
    requires k < TOTAL && TierAt(k) != Data
    ensures Caller(k) && From(k) == Fanning(k)
  {
  }

  /** The calls of a service that is not in the data tier. */
  method CallerCalls(d: Draws, nouns: seq<string>, services: seq<Service>, buckets: Buckets, svc: Service, k: nat, cid: nat)
    returns (ok: bool, made: seq<Call>)
    requires d.Valid() && d.g.phase == Fanning(k) && cid == |d.g.calls| && Rolled(nouns, services, buckets)
    requires Caller(k) && svc.sid == SidAt(k) && svc.tier == TierAt(k)
    modifies d
    ensures d.Valid() && d.g.services == old(d.g.services)
    ensures d.g.phase == if ok then From(k + 1) else Thrown
    ensures ok ==> d.g.calls == old(d.g.calls) + made
  {
    hide Run;
    var bucket := BucketOf(nouns, services, buckets, ClusterOf(k), svc, k);
    ok, made := OwnCalls(d, svc, bucket, cid, k);
    if ok {
      var call;
      ok, call := Across(d, nouns, services, buckets, svc, k, cid + |made|);
      if ok && call.Some? {
        assert old(d.g.calls) + (made + [call.value]) == (old(d.g.calls) + made) + [call.value];
        made := made + [call.value];
      }
    }
  }

  /** All the calls of service k. */
  method CallsOf(d: Draws, nouns: seq<string>, services: seq<Service>, buckets: Buckets, k: nat, cid: nat)
    returns (ok: bool, made: seq<Call>)
    requires d.Valid() && d.g.phase == From(k) && cid == |d.g.calls| && k < TOTAL && Rolled(nouns, services, buckets)
    modifies d
    ensures d.Valid() && d.g.services == old(d.g.services)
    ensures d.g.phase == if ok then From(k + 1) else Thrown
    ensures ok ==> d.g.calls == old(d.g.calls) + made
  {
    hide Run;
    assert IsService(nouns, services[k], k);
    if services[k].tier == Data {
      NotACaller(k);
      return true, [];
    }
    ACaller(k);
    ok, made := CallerCalls(d, nouns, services, buckets, services[k], k, cid);
  }

  lemma HaltedIsFinal(nouns: seq<string>, seed: Register, n: nat)
    requires GenAt(nouns, DrawsOf(seed), n).phase.Halted()
    ensures FleetOf(nouns, seed) == Outcome(GenAt(nouns, DrawsOf(seed), n))
  {
    SeedsDrawInRange(seed);
    GenHasPhase(nouns, DrawsOf(seed), n);
    HaltsInTime(nouns, DrawsOf(seed), n);
    if n > MAX_DRAWS {
      StaysHalted(nouns, DrawsOf(seed), MAX_DRAWS, n);
    }
  }

  /** The calls of all the services, in order. */
  method AllCalls(d: Draws, nouns: seq<string>, services: seq<Service>, buckets: Buckets) returns (ok: bool, calls: seq<Call>)
    requires d.Valid() && d.g.phase == From(0) && d.g.calls == [] && Rolled(nouns, services, buckets)
    modifies d
    ensures d.Valid() && d.g.services == old(d.g.services)
    ensures d.g.phase == if ok then Done else Thrown
    ensures ok ==> d.g.calls == calls
  {
    hide Run;
    calls := [];
    for k := 0 to TOTAL
      invariant d.Valid() && d.g.phase == From(k) && d.g.services == old(d.g.services) && d.g.calls == calls
    {
      var made;
      ok, made := CallsOf(d, nouns, services, buckets, k, |calls|);
      if !ok {
        return;
      }
      calls := calls + made;
    }
    assert From(TOTAL) == Done;
    ok := true;
  }

  lemma RolledServices(nouns: seq<string>, seed: Register, n: nat)
    requires GenAt(nouns, DrawsOf(seed), n).phase == From(0)
    ensures ServicesOk(nouns, Done, GenAt(nouns, DrawsOf(seed), n).services)
  {
    SeedsDrawInRange(seed);
    AlwaysOk(nouns, DrawsOf(seed), n);
  }

  /** The whole fleet, or nothing: an exception. It is the one the seed decides, so the same seed always makes the
      same fleet; and all that FleetSeeds proves of it holds of what this returns. */
  method Generate(nouns: seq<string>, seed: Register) returns (fleet: Option<Fleet>)
    ensures fleet == FleetOf(nouns, seed)
  {
    hide Run;
    var d := new Draws(nouns, seed);
    var services, buckets := Roll(d, nouns);
    RolledServices(nouns, seed, d.n);
    var ok, calls := AllCalls(d, nouns, services, buckets);
    HaltedIsFinal(nouns, seed, d.n);
    fleet := if ok then Some(Fleet(services, calls)) else None;
  }
}
