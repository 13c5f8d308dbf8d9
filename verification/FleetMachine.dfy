/** The generation of a fleet one draw at a time: what each draw is for, and what it adds, is a function of the
    seed alone. */
module FleetMachine {
  import opened Options
  import opened Names
  import opened Runs
  import opened Topology
  import opened Xorshift

  // ------------------------------------------------------------- the services --

  const PER_CLUSTER: nat := 60
  const TOTAL: nat := 240

  /** The services of a cluster before its data tier: those that call. */
  const CALLERS: nat := 48

  /** A cluster, by its place in the list. */
  type Cluster = c: nat | c < |CLUSTERS| witness 0

  /** Where a tier starts within its cluster. */
  function Offset(t: Tier): nat {
    match t
    case Edge => 0
    case Api => 8
    case Core => 26
    case Data => 48
  }

  /** The k-th service: clusters in order, in each its tiers in order, in each its services by number. */
  function TierAt(k: nat): Tier {
    var r := k % PER_CLUSTER;
    if r < 8 then Edge else if r < 26 then Api else if r < 48 then Core else Data
  }

  function ClusterOf(k: nat): Cluster {
    k / PER_CLUSTER % |CLUSTERS|
  }

  function NumberAt(k: nat): nat {
    k % PER_CLUSTER - Offset(TierAt(k))
  }

  function SidAt(k: nat): string {
    Sid(CLUSTERS[ClusterOf(k)], TierAt(k), NumberAt(k))
  }

  /** The tier that service k calls. */
  function Down(k: nat): Tier {
    if TierAt(k) == Data then Data else TierAt(k).Below()
  }

  /** Where cluster c and tier t start among all the services. */
  function Start(c: nat, t: Tier): nat {
    c * PER_CLUSTER + Offset(t)
  }

  // --------------------------------------------------------------- one draw --

  /** xs[Math.floor(v * xs.length)]: a place in a list of n, or nothing - the list read past its end. */
  function Pick(v: real, n: nat): Option<nat> {
    var i := (v * n as real).Floor;
    if 0 <= i < n then Some(i) else None
  }

  /** 1 + Math.floor(v * 3) */
  function FanOut(v: real): nat {
    var i := (v * 3.0).Floor;
    if i >= 0 then 1 + i else 1
  }

  /** Math.round(least + v * span) */
  function Milliseconds(v: real, least: nat, span: nat): int {
    (least as real + v * span as real + 0.5).Floor
  }

  /** CLUSTERS.filter((c) => c !== cluster), as places in the list. */
  function Others(cluster: Cluster, n: nat): (r: seq<Cluster>)
    requires n <= |CLUSTERS|
    ensures forall i | 0 <= i < |r| :: r[i] < n && CLUSTERS[r[i]] != CLUSTERS[cluster]
    ensures forall c: Cluster | c < n && CLUSTERS[c] != CLUSTERS[cluster] :: c in r
  {
    if n == 0 then [] else Others(cluster, n - 1) + if CLUSTERS[n - 1] != CLUSTERS[cluster] then [n - 1] else []
  }

  function OtherClusters(k: nat): seq<Cluster> {
    Others(ClusterOf(k), |CLUSTERS|)
  }

  predicate IsOther(k: nat, cluster: Cluster) {
    CLUSTERS[cluster] != CLUSTERS[ClusterOf(k)]
  }

  /** How a tier calls the one below it in its own cluster: what ends at the data tier is sql. */
  function Protocol(from: Tier): string {
    match from
    case Edge => "http"
    case Api => "grpc"
    case Core => "sql"
    case Data => "sql"
  }

  /** What the next draw is for: the noun of service k, its fan-out, the callee and the latency of an own-cluster
      call with so many to go, the coin, the other cluster, the target there, and that call's latency. */
  datatype Phase =
    | Naming(k: nat)
    | Fanning(k: nat)
    | Calling(k: nat, left: nat)
    | Timing(k: nat, left: nat, at: nat)
    | Tossing(k: nat)
    | Choosing(k: nat)
    | Aiming(k: nat, cluster: Cluster)
    | CrossTiming(k: nat, cluster: Cluster, at: nat)
    | Done
    | Thrown
  {
    predicate Halted() {
      Done? || Thrown?
    }

    /** A pick whose missing result is read: past the end of its list it throws. */
    predicate Fatal() {
      Calling? || Choosing? || Aiming?
    }

    function Next(v: real): Phase {
      match this
      case Naming(k) => if k + 1 < TOTAL then Naming(k + 1) else From(0)
      case Fanning(k) => Calling(k, FanOut(v))
      case Calling(k, left) =>
        (match Pick(v, Down(k).Size())
         case None => Thrown
         case Some(i) => Timing(k, left, i))
      case Timing(k, left, _) => if left > 1 then Calling(k, left - 1) else Tossing(k)
      case Tossing(k) => if v < 0.05 then Choosing(k) else From(k + 1)
      case Choosing(k) =>
        (match Pick(v, |OtherClusters(k)|)
         case None => Thrown
         case Some(i) => Aiming(k, OtherClusters(k)[i]))
      case Aiming(k, c) =>
        (match Pick(v, Down(k).Size())
         case None => Thrown
         case Some(i) => CrossTiming(k, c, i))
      case CrossTiming(k, _, _) => From(k + 1)
      case Done => Done
      case Thrown => Thrown
    }

    predicate Valid() {
      match this
      case Naming(k) => k < TOTAL
      case Fanning(k) => Caller(k)
      case Calling(k, left) => Caller(k) && 1 <= left <= 4
      case Timing(k, left, at) => Caller(k) && 1 <= left <= 4 && at < Down(k).Size()
      case Tossing(k) => Caller(k)
      case Choosing(k) => Caller(k)
      case Aiming(k, c) => Caller(k) && IsOther(k, c)
      case CrossTiming(k, c, at) => Caller(k) && IsOther(k, c) && at < Down(k).Size()
      case Done => true
      case Thrown => true
    }
  }

  predicate Caller(k: nat) {
    k < TOTAL && k % PER_CLUSTER < CALLERS
  }

  /** The first service from k on that calls anyone. */
  function From(k: nat): Phase {
    if Caller(k) then Fanning(k)
    else
      var next := (k / PER_CLUSTER + 1) * PER_CLUSTER;
      if next < TOTAL then Fanning(next) else Done
  }

  /** What has been generated, and whether a fan-out draw asked for four calls. */
  datatype Gen = Gen(phase: Phase, services: seq<Service>, calls: seq<Call>, wide: bool) {
    function Next(nouns: seq<string>, v: real): Gen {
      Gen(phase.Next(v),
          if phase.Naming? then services + [Named(nouns, phase.k, v)] else services,
          if phase.Timing? then calls + [OwnCall(|calls|, phase.k, phase.at, v)]
          else if phase.CrossTiming? then calls + [CrossCall(|calls|, phase.k, phase.cluster, phase.at, v)]
          else calls,
          wide || (phase.Fanning? && FanOut(v) == 4))
    }
  }

  /** A service is named by the noun its draw picks; a draw of 1 picks none. */
  function Named(nouns: seq<string>, k: nat, v: real): Service {
    var noun := match Pick(v, |nouns|) case None => "undefined" case Some(i) => nouns[i];
    Service(SidAt(k), noun + "-" + TierAt(k).Word() + "-" + Decimal(NumberAt(k)), CLUSTERS[ClusterOf(k)], TierAt(k))
  }

  function OwnCall(n: nat, k: nat, at: nat, v: real): Call {
    Call(Cid(n), SidAt(k), Sid(CLUSTERS[ClusterOf(k)], Down(k), at), Protocol(TierAt(k)), Milliseconds(v, 2, 120))
  }

  function CrossCall(n: nat, k: nat, cluster: Cluster, at: nat, v: real): Call {
    Call(Cid(n), SidAt(k), Sid(CLUSTERS[cluster], Down(k), at), "queue", Milliseconds(v, 10, 300))
  }

  // --------------------------------------------------------------- all draws --

  function PhaseStep(p: Phase, v: real): Phase {
    p.Next(v)
  }

  function GenStep(nouns: seq<string>): (Gen, real) -> Gen {
    (g: Gen, v: real) => g.Next(nouns, v)
  }

  const START: Gen := Gen(Naming(0), [], [], false)

  /** What draw n + 1 is for. */
  function PhaseAt(draws: nat -> real, n: nat): Phase {
    Run(PhaseStep, Naming(0), draws, n)
  }

  /** What has been generated after n draws. */
  function GenAt(nouns: seq<string>, draws: nat -> real, n: nat): Gen {
    Run(GenStep(nouns), START, draws, n)
  }

  /** The draws of a seed. */
  function DrawsOf(seed: Register): nat -> real {
    (n: nat) => Unit(After(seed, n))
  }

  /** A noun each, then at most a fan-out, four calls, a coin and a call across for each service that calls. */
  const MAX_DRAWS: nat := TOTAL + 13 * (|CLUSTERS| * CALLERS)

  function Outcome(g: Gen): Option<Fleet> {
    if g.phase.Done? then Some(Fleet(g.services, g.calls)) else None
  }

  /** The fleet of a seed, or nothing: the generation threw. */
  function FleetOf(nouns: seq<string>, seed: Register): Option<Fleet> {
    Outcome(GenAt(nouns, DrawsOf(seed), MAX_DRAWS))
  }

  lemma SeedsDrawInRange(seed: Register)
    ensures InRange(DrawsOf(seed))
  {
    forall n: nat ensures 0.0 <= DrawsOf(seed)(n) <= 1.0 {
      UnitRange(After(seed, n));
    }
  }

  /** A pick is the place its draw scales to. */
  lemma PickIsPlace(v: real, n: nat, i: nat)
    ensures Pick(v, n) == Some(i) <==> i < n && i as real <= v * n as real < (i + 1) as real
  {
  }

  lemma PickIsTop(v: real, n: nat)
    requires 0.0 <= v <= 1.0 && n > 0
    ensures Pick(v, n) == None <==> v == 1.0
  {
    assert 0.0 <= v * n as real <= n as real;
    if v < 1.0 {
      assert v * n as real < n as real;
    }
  }

  lemma FanOutIsTop(v: real)
    requires 0.0 <= v <= 1.0
    ensures 1 <= FanOut(v) <= 4 && (FanOut(v) == 4 <==> v == 1.0)
  {
  }

  lemma SomeOther(k: nat)
    ensures OtherClusters(k) != []
  {
    assert CLUSTERS[0] != CLUSTERS[1];
  }

  lemma FromIsValid(k: nat)
    ensures From(k).Valid()
  {
    var next := (k / PER_CLUSTER + 1) * PER_CLUSTER;
    assert next % PER_CLUSTER == 0;
  }

  lemma CallersCall(k: nat)
    requires Caller(k)
    ensures TierAt(k) != Data && Down(k) == TierAt(k).Below() && Down(k).Size() > 0
  {
  }

  lemma NextIsValid(p: Phase, v: real)
    requires p.Valid() && 0.0 <= v <= 1.0
    ensures p.Next(v).Valid()
  {
    match p
    case Naming(k) => FromIsValid(0);
    case Fanning(_) => FanOutIsTop(v);
    case Tossing(k) => FromIsValid(k + 1);
    case CrossTiming(k, _, _) => FromIsValid(k + 1);
    case _ =>
  }

  /** How many services call from k on. */
  function CallersFrom(k: nat): nat {
    if k >= TOTAL then 0
    else (3 - k / PER_CLUSTER) * CALLERS + if k % PER_CLUSTER < CALLERS then CALLERS - k % PER_CLUSTER else 0
  }

  /** How many draws may still come. */
  function Budget(p: Phase): int {
    match p
    case Naming(k) => TOTAL - k + 13 * CallersFrom(0)
    case Fanning(k) => 13 * CallersFrom(k)
    case Calling(k, left) => 2 * left + 4 + 13 * CallersFrom(k + 1)
    case Timing(k, left, _) => 2 * left + 3 + 13 * CallersFrom(k + 1)
    case Tossing(k) => 4 + 13 * CallersFrom(k + 1)
    case Choosing(k) => 3 + 13 * CallersFrom(k + 1)
    case Aiming(k, _) => 2 + 13 * CallersFrom(k + 1)
    case CrossTiming(k, _, _) => 1 + 13 * CallersFrom(k + 1)
    case Done => 0
    case Thrown => 0
  }

  lemma Positive(k: nat)
    ensures CallersFrom(k) >= 0
  {
    assert k < TOTAL ==> k / PER_CLUSTER <= 3;
  }

  lemma CallersStep(k: nat)
    requires Caller(k)
    ensures CallersFrom(k) == 1 + CallersFrom(k + 1) && CallersFrom(k + 1) >= 0
  {
    var q, r := k / PER_CLUSTER, k % PER_CLUSTER;
    assert k + 1 == q * PER_CLUSTER + (r + 1);
    assert (k + 1) / PER_CLUSTER == q && (k + 1) % PER_CLUSTER == r + 1;
    Positive(k + 1);
  }

  lemma FromBudget(k: nat)
    ensures 0 <= Budget(From(k)) <= 13 * CallersFrom(k)
  {
    var q := k / PER_CLUSTER;
    var next := (q + 1) * PER_CLUSTER;
    assert next / PER_CLUSTER == q + 1 && next % PER_CLUSTER == 0;
    Positive(k);
    Positive(next);
  }

  lemma FanningShrinks(k: nat, v: real)
    requires Caller(k) && 0.0 <= v <= 1.0
    ensures Budget(Calling(k, FanOut(v))) < Budget(Fanning(k))
  {
    FanOutIsTop(v);
    CallersStep(k);
  }

  /** Every draw spends some of the budget, until the generation halts. */
  lemma BudgetShrinks(p: Phase, v: real)
    requires p.Valid() && 0.0 <= v <= 1.0 && !p.Halted()
    ensures Budget(p.Next(v)) < Budget(p)
  {
    match p
    case Naming(k) => FromBudget(0);
    case Fanning(k) => FanningShrinks(k, v);
    case Tossing(k) => FromBudget(k + 1);
    case CrossTiming(k, _, _) => FromBudget(k + 1);
    case _ => LeftOverIsPositive(p);
  }

  lemma LeftOverIsPositive(p: Phase)
    requires p.Calling? || p.Timing? || p.Choosing? || p.Aiming?
    ensures CallersFrom(p.k + 1) >= 0
  {
    Positive(p.k + 1);
  }

  lemma FirstBudget()
    ensures Naming(0).Valid() && Budget(Naming(0)) == MAX_DRAWS
  {
    assert CallersFrom(0) == |CLUSTERS| * CALLERS;
  }

  lemma Frozen(p: Phase, v: real)
    requires p.Halted()
    ensures p.Next(v) == p
  {
  }

  lemma BudgetIsPositive(p: Phase)
    requires p.Valid() && !p.Halted()
    ensures Budget(p) > 0
  {
    match p
    case Naming(_) => Positive(0);
    case Fanning(k) => CallersStep(k);
    case Tossing(k) => Positive(k + 1);
    case CrossTiming(k, _, _) => Positive(k + 1);
    case _ => LeftOverIsPositive(p);
  }

  function IsValid(): Phase -> bool {
    (p: Phase) => p.Valid()
  }

  function IsHalted(): Phase -> bool {
    (p: Phase) => p.Halted()
  }

  function IsThrown(): Phase -> bool {
    (p: Phase) => p.Thrown?
  }

  lemma PhasesStayValid()
    ensures Invariant(PhaseStep, IsValid())
  {
    forall p, v | IsValid()(p) && 0.0 <= v <= 1.0 ensures IsValid()(PhaseStep(p, v)) {
      NextIsValid(p, v);
    }
  }

  lemma PhasesSpend()
    ensures Spending(PhaseStep, IsValid(), IsHalted(), Budget)
  {
    forall p, v | IsValid()(p) && IsHalted()(p) ensures PhaseStep(p, v) == p {
      Frozen(p, v);
    }
    forall p, v | IsValid()(p) && 0.0 <= v <= 1.0 && !IsHalted()(p) ensures Budget(PhaseStep(p, v)) < Budget(p) {
      BudgetShrinks(p, v);
    }
  }

  lemma PhaseIsValid(draws: nat -> real, n: nat)
    requires InRange(draws)
    ensures PhaseAt(draws, n).Valid()
    ensures PhaseAt(draws, n).Halted() || Budget(PhaseAt(draws, n)) + n <= MAX_DRAWS
  {
    FirstBudget();
    PhasesStayValid();
    PhasesSpend();
    Spends(PhaseStep, Naming(0), draws, n, IsValid(), IsHalted(), Budget);
  }

  lemma GenHasPhase(nouns: seq<string>, draws: nat -> real, n: nat)
    ensures GenAt(nouns, draws, n).phase == PhaseAt(draws, n)
  {
    Projects(GenStep(nouns), START, (g: Gen) => g.phase, PhaseStep, draws, n);
  }

  lemma StaysHalted(nouns: seq<string>, draws: nat -> real, n: nat, m: nat)
    requires PhaseAt(draws, n).Halted() && n <= m
    ensures GenAt(nouns, draws, m) == GenAt(nouns, draws, n)
  {
    GenHasPhase(nouns, draws, n);
    forall v ensures GenStep(nouns)(GenAt(nouns, draws, n), v) == GenAt(nouns, draws, n) {
      Frozen(PhaseAt(draws, n), v);
    }
    Stays(GenStep(nouns), START, draws, n, m);
  }

  /** Every run of draws halts within the budget, and then stays as it is. */
  lemma HaltsInTime(nouns: seq<string>, draws: nat -> real, n: nat)
    requires InRange(draws)
    ensures PhaseAt(draws, MAX_DRAWS).Halted()
    ensures !PhaseAt(draws, n).Halted() ==> n < MAX_DRAWS
    ensures PhaseAt(draws, n).Halted() && n <= MAX_DRAWS ==> GenAt(nouns, draws, MAX_DRAWS) == GenAt(nouns, draws, n)
  {
    PhaseIsValid(draws, MAX_DRAWS);
    PhaseIsValid(draws, n);
    if !PhaseAt(draws, MAX_DRAWS).Halted() {
      BudgetIsPositive(PhaseAt(draws, MAX_DRAWS));
    }
    if !PhaseAt(draws, n).Halted() {
      BudgetIsPositive(PhaseAt(draws, n));
    }
    if PhaseAt(draws, n).Halted() && n <= MAX_DRAWS {
      StaysHalted(nouns, draws, n, MAX_DRAWS);
    }
  }

  // ------------------------------------------------------- what goes wrong when --

  /** A draw of 1 on a pick that throws. */
  function Throws(): (Phase, real) -> bool {
    (p: Phase, v: real) => p.Fatal() && v == 1.0
  }

  /** A draw of 1 on a fan-out. */
  function Widens(): (Phase, real) -> bool {
    (p: Phase, v: real) => IsWidening(p, v)
  }

  predicate IsWidening(p: Phase, v: real) {
    p.Fanning? && v == 1.0
  }

  lemma ThrownStep(p: Phase, v: real)
    requires p.Valid() && 0.0 <= v <= 1.0
    ensures p.Next(v).Thrown? <==> p.Thrown? || Throws()(p, v)
  {
    match p
    case Calling(k, _) => PickIsTop(v, Down(k).Size());
    case Choosing(k) => SomeOther(k); PickIsTop(v, |OtherClusters(k)|);
    case Aiming(k, _) => PickIsTop(v, Down(k).Size());
    case _ =>
  }

  lemma ThrowingMarks()
    ensures Marking(PhaseStep, IsValid(), IsThrown(), Throws())
  {
    forall p, v | IsValid()(p) && 0.0 <= v <= 1.0
      ensures IsThrown()(PhaseStep(p, v)) <==> IsThrown()(p) || Throws()(p, v)
    {
      ThrownStep(p, v);
    }
  }

  /** Has a draw of 1 fallen on a pick that throws, within the first n draws? */
  ghost predicate HasThrown(draws: nat -> real, n: nat) {
    MarkedBefore(PhaseStep, Naming(0), draws, n, Throws())
  }

  /** Has a draw of 1 fallen on a fan-out, within the first n draws? */
  ghost predicate HasWidened(draws: nat -> real, n: nat) {
    MarkedBefore(PhaseStep, Naming(0), draws, n, Widens())
  }

  lemma ThrownBy(draws: nat -> real, n: nat)
    requires InRange(draws)
    ensures PhaseAt(draws, n).Thrown? <==> HasThrown(draws, n)
  {
    PhasesStayValid();
    ThrowingMarks();
    MarkedBy(PhaseStep, Naming(0), draws, n, IsValid(), IsThrown(), Throws());
  }

  function IsWide(): Gen -> bool {
    (g: Gen) => g.wide
  }

  function GenWidens(): (Gen, real) -> bool {
    (g: Gen, v: real) => IsWidening(g.phase, v)
  }

  lemma WideningMarks(nouns: seq<string>)
    ensures Marking(GenStep(nouns), (g: Gen) => true, IsWide(), GenWidens())
  {
    forall g: Gen, v | 0.0 <= v <= 1.0 ensures IsWide()(GenStep(nouns)(g, v)) <==> IsWide()(g) || GenWidens()(g, v) {
      FanOutIsTop(v);
      assert GenStep(nouns)(g, v) == g.Next(nouns, v);
    }
  }

  lemma WideBy(nouns: seq<string>, draws: nat -> real, n: nat)
    requires InRange(draws)
    ensures GenAt(nouns, draws, n).wide <==> HasWidened(draws, n)
  {
    var any := (g: Gen) => true;
    WideningMarks(nouns);
    assert Marking(GenStep(nouns), any, IsWide(), GenWidens());
    MarkedBy(GenStep(nouns), START, draws, n, any, IsWide(), GenWidens());
    MarksProject(GenStep(nouns), START, (g: Gen) => g.phase, PhaseStep, draws, n, GenWidens(), Widens());
  }
}
