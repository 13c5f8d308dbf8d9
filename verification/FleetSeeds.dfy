/** What the seed decides: the fleet, when generating it throws, and when some service makes four calls. */
module FleetSeeds {
  import opened Options
  import opened Runs
  import opened Topology
  import opened Xorshift
  import opened XorshiftPeriod
  import opened FleetMachine
  import opened FleetShape

  // ------------------------------------------------------- every fleet there is --

  lemma OkAtTheEnd(nouns: seq<string>, seed: Register)
    ensures var g := GenAt(nouns, DrawsOf(seed), MAX_DRAWS);
            GenOk(nouns, g) && (g.phase.Done? || g.phase.Thrown?) && g.phase == PhaseAt(DrawsOf(seed), MAX_DRAWS)
  {
    SeedsDrawInRange(seed);
    AlwaysOk(nouns, DrawsOf(seed), MAX_DRAWS);
    GenHasPhase(nouns, DrawsOf(seed), MAX_DRAWS);
    HaltsInTime(nouns, DrawsOf(seed), MAX_DRAWS);
  }

  /** The services in their order, each named from the nouns; and one to four calls within the cluster and at
      most one across for each service above the data tier, none for the others. */
  ghost predicate Complete(nouns: seq<string>, f: Fleet) {
    && ServicesOk(nouns, Done, f.services) && CallsOk(f.calls)
    && forall k: nat | k < TOTAL :: Finished(k, OwnSize(f.calls, k), CrossSize(f.calls, k))
  }

  lemma FleetIsComplete(nouns: seq<string>, seed: Register, f: Fleet)
    requires FleetOf(nouns, seed) == Some(f)
    ensures Complete(nouns, f)
  {
    OkAtTheEnd(nouns, seed);
    forall k: nat | k < TOTAL ensures Finished(k, OwnSize(f.calls, k), CrossSize(f.calls, k)) {
      assert Bounded(Done, k, OwnSize(f.calls, k), CrossSize(f.calls, k));
    }
  }

  /** The service with this id is the one of its slot. */
  lemma TargetIs(nouns: seq<string>, f: Fleet, cluster: nat, t: Tier, at: nat) returns (m: nat)
    requires ServicesOk(nouns, Done, f.services) && cluster < |CLUSTERS| && at < t.Size()
    ensures m < TOTAL && f.services[m].sid == Sid(CLUSTERS[cluster], t, at)
    ensures f.services[m].tier == t && f.services[m].cluster == CLUSTERS[cluster]
  {
    m := Start(cluster, t) + at;
    SlotIs(cluster, t, at);
    assert IsService(nouns, f.services[m], m);
  }

  lemma CallGoes(nouns: seq<string>, f: Fleet, c: Call, k: nat)
    requires ServicesOk(nouns, Done, f.services) && Caller(k)
    ensures IsOwn(c, k) ==> Goes(f.services, c, k, true)
    ensures IsCross(c, k) ==> Goes(f.services, c, k, false)
  {
    assert IsService(nouns, f.services[k], k);
    CallersCall(k);
    if IsOwn(c, k) {
      var at: nat :| at < Down(k).Size() && c.to == Sid(CLUSTERS[ClusterOf(k)], Down(k), at);
      var m := TargetIs(nouns, f, ClusterOf(k), Down(k), at);
    }
    if IsCross(c, k) {
      var cluster: Cluster, at: nat :| IsOther(k, cluster) && at < Down(k).Size() && c.to == Sid(CLUSTERS[cluster], Down(k), at);
      var m := TargetIs(nouns, f, cluster, Down(k), at);
    }
  }

  /** Every generated fleet is layered: unique ids, endpoints that exist, each call one tier down. */
  lemma CompleteIsLayered(nouns: seq<string>, f: Fleet)
    requires Complete(nouns, f)
    ensures Layered(f)
  {
    forall i, j | 0 <= i < |f.services| && 0 <= j < |f.services| && f.services[i].sid == f.services[j].sid ensures i == j {
      assert IsService(nouns, f.services[i], i) && IsService(nouns, f.services[j], j);
      UniqueSids(i, j);
    }
    forall i, j | 0 <= i < |f.calls| && 0 <= j < |f.calls| && f.calls[i].cid == f.calls[j].cid ensures i == j {
      CidInjective(i, j);
    }
    forall c | c in f.calls ensures exists k: nat, own | k < |f.services| :: Goes(f.services, c, k, own) {
      assert CallOk(c);
      var k: nat :| Caller(k) && (IsOwn(c, k) || IsCross(c, k));
      CallGoes(nouns, f, c, k);
    }
  }

  lemma FleetIsLayered(nouns: seq<string>, seed: Register, f: Fleet)
    requires FleetOf(nouns, seed) == Some(f)
    ensures Complete(nouns, f) && Layered(f)
  {
    FleetIsComplete(nouns, seed, f);
    CompleteIsLayered(nouns, f);
  }

  // -------------------------------------------------------- what the seed decides --

  /** Draw n + 1 finds the state all ones. */
  ghost predicate TopAt(seed: Register, n: nat) {
    After(seed, n + 1) == TOP
  }

  ghost predicate ThrowsAt(seed: Register, n: nat) {
    PhaseAt(DrawsOf(seed), n).Fatal() && TopAt(seed, n)
  }

  ghost predicate WidensAt(seed: Register, n: nat) {
    PhaseAt(DrawsOf(seed), n).Fanning? && TopAt(seed, n)
  }

  lemma TopIsOne(seed: Register, n: nat)
    ensures DrawsOf(seed)(n + 1) == 1.0 <==> TopAt(seed, n)
  {
    UnitRange(After(seed, n + 1));
  }

  lemma ThrowsAtIs(seed: Register, i: nat)
    ensures Throws()(PhaseAt(DrawsOf(seed), i), DrawsOf(seed)(i + 1)) <==> ThrowsAt(seed, i)
  {
    TopIsOne(seed, i);
  }

  lemma WidensAtIs(seed: Register, i: nat)
    ensures Widens()(PhaseAt(DrawsOf(seed), i), DrawsOf(seed)(i + 1)) <==> WidensAt(seed, i)
  {
    TopIsOne(seed, i);
  }

  lemma ThrownAt(seed: Register, n: nat)
    ensures HasThrown(DrawsOf(seed), n) <==> exists i: nat | i < n :: ThrowsAt(seed, i)
  {
    var draws := DrawsOf(seed);
    forall i: nat ensures Throws()(Run(PhaseStep, Naming(0), draws, i), draws(i + 1)) == ThrowsAt(seed, i) {
      ThrowsAtIs(seed, i);
    }
    hide Run, Throws, ThrowsAt, DrawsOf;
  }

  lemma WidenedAt(seed: Register, n: nat)
    ensures HasWidened(DrawsOf(seed), n) <==> exists i: nat | i < n :: WidensAt(seed, i)
  {
    var draws := DrawsOf(seed);
    forall i: nat ensures Widens()(Run(PhaseStep, Naming(0), draws, i), draws(i + 1)) == WidensAt(seed, i) {
      WidensAtIs(seed, i);
    }
    hide Run, Widens, WidensAt, DrawsOf;
  }

  /** Generation throws exactly when a draw for a callee, a cluster or a target finds the state all ones. */
  lemma ThrowsExactlyWhen(nouns: seq<string>, seed: Register)
    ensures FleetOf(nouns, seed) == None <==> exists n: nat | n < MAX_DRAWS :: ThrowsAt(seed, n)
  {
    OkAtTheEnd(nouns, seed);
    SeedsDrawInRange(seed);
    ThrownBy(DrawsOf(seed), MAX_DRAWS);
    ThrownAt(seed, MAX_DRAWS);
  }

  ghost predicate SomeoneMakesFour(f: Fleet) {
    exists k: nat | k < TOTAL :: OwnSize(f.calls, k) == 4
  }

  /** And in a finished fleet some service makes four calls within its cluster exactly when a draw for a fan-out does. */
  lemma FourExactlyWhen(nouns: seq<string>, seed: Register, f: Fleet)
    requires FleetOf(nouns, seed) == Some(f)
    ensures SomeoneMakesFour(f) <==> exists n: nat | n < MAX_DRAWS :: WidensAt(seed, n)
  {
    OkAtTheEnd(nouns, seed);
    SeedsDrawInRange(seed);
    WideBy(nouns, DrawsOf(seed), MAX_DRAWS);
    WidenedAt(seed, MAX_DRAWS);
    assert forall k: nat :: Planned(Done, k, OwnSize(f.calls, k)) == OwnSize(f.calls, k);
  }

  /** What a caller can check beforehand: if none of the seed's first states is all ones, the fleet is finished
      and every service above the data tier makes one to three calls within its cluster. */
  lemma SafeSeed(nouns: seq<string>, seed: Register)
    requires forall n: nat | n < MAX_DRAWS :: !TopAt(seed, n)
    ensures FleetOf(nouns, seed).Some?
    ensures var f := FleetOf(nouns, seed).value; forall k: nat | Caller(k) :: 1 <= OwnSize(f.calls, k) <= 3
  {
    ThrowsExactlyWhen(nouns, seed);
    var f := FleetOf(nouns, seed).value;
    FourExactlyWhen(nouns, seed, f);
    FleetIsComplete(nouns, seed, f);
    forall k: nat | Caller(k) ensures 1 <= OwnSize(f.calls, k) <= 3 {
      assert Finished(k, OwnSize(f.calls, k), CrossSize(f.calls, k));
    }
  }

  /** A zero seed only ever draws zero. */
  lemma ZeroSeedIsSafe(n: nat)
    ensures !TopAt(0, n)
  {
    RunStaysNonZero(0, n + 1);
  }

  // --------------------------------------------------------------- seeds that fail --

  lemma {:induction false} NamesFirst(draws: nat -> real, n: nat)
    requires n < TOTAL
    ensures PhaseAt(draws, n) == Naming(n)
  {
    if n > 0 {
      NamesFirst(draws, n - 1);
    }
  }

  /** The first draw after the nouns is a fan-out, and the next one a callee. */
  lemma ThenCalls(draws: nat -> real)
    ensures PhaseAt(draws, TOTAL) == Fanning(0)
    ensures PhaseAt(draws, TOTAL + 1) == Calling(0, FanOut(draws(TOTAL + 1)))
  {
    NamesFirst(draws, TOTAL - 1);
    assert PhaseAt(draws, TOTAL) == PhaseStep(Naming(TOTAL - 1), draws(TOTAL));
    assert PhaseAt(draws, TOTAL + 1) == PhaseStep(Fanning(0), draws(TOTAL + 1));
  }

  /** A seed that throws: its state is all ones at the first callee. */
  lemma ThrowingSeed(nouns: seq<string>)
    ensures FleetOf(nouns, Back(TOP, TOTAL + 2)) == None
  {
    var n: nat := TOTAL + 1;
    var seed := Back(TOP, n + 1);
    AfterBack(TOP, n + 1);
    ThenCalls(DrawsOf(seed));
    assert ThrowsAt(seed, n);
    ThrowsExactlyWhen(nouns, seed);
  }

  /** A seed whose fleet has a service with four calls: its state is all ones at the first fan-out, and not again. */
  lemma FourCallSeed(nouns: seq<string>)
    ensures FleetOf(nouns, Back(TOP, TOTAL + 1)).Some?
    ensures SomeoneMakesFour(FleetOf(nouns, Back(TOP, TOTAL + 1)).value)
  {
    var seed := Back(TOP, TOTAL + 1);
    AfterBack(TOP, TOTAL + 1);
    ThenCalls(DrawsOf(seed));
    forall n: nat | n < MAX_DRAWS ensures !ThrowsAt(seed, n) {
      NotAgain(seed, n);
    }
    assert WidensAt(seed, TOTAL);
    hide PhaseAt, FleetOf, DrawsOf, TopAt;
    ThrowsExactlyWhen(nouns, seed);
    FourExactlyWhen(nouns, seed, FleetOf(nouns, seed).value);
  }

  /** Before the first fan-out only nouns are drawn; after it a run from the all-ones register has not come back. */
  lemma NotAgain(seed: Register, n: nat)
    requires After(seed, TOTAL + 1) == TOP && n < MAX_DRAWS
    ensures !ThrowsAt(seed, n)
  {
    hide Step;
    if n < TOTAL {
      NamesFirst(DrawsOf(seed), n);
    } else if n == TOTAL {
      ThenCalls(DrawsOf(seed));
    } else {
      hide PhaseAt;
      AfterThen(seed, TOTAL + 1, n - TOTAL);
      if TopAt(seed, n) {
        ReturnsExactlyWhen(n - TOTAL);
      }
    }
  }

  // ------------------------------------------------------------- the default seed --

  /** The default seed has a fleet, and each service above the data tier makes one to three calls within its cluster. */
  lemma DefaultSeedIsSafe(nouns: seq<string>)
    ensures FleetOf(nouns, DEFAULT_SEED).Some?
    ensures var f := FleetOf(nouns, DEFAULT_SEED).value; forall k: nat | Caller(k) :: 1 <= OwnSize(f.calls, k) <= 3
  {
    hide After, FleetOf, OwnSize;
    DefaultSeedAfter();
    forall n: nat | n < MAX_DRAWS ensures !TopAt(DEFAULT_SEED, n) {
      AfterThen(TOP, 2006680153, n + 1);
      if After(DEFAULT_SEED, n + 1) == TOP {
        ReturnsExactlyWhen(2006680153 + (n + 1));
      }
    }
    SafeSeed(nouns, DEFAULT_SEED);
  }
}
