/** What every draw of a seed decides, said of the finished fleet: the noun of each service, then for each service that
    calls its fan-out, its callees, its coin and its call across, each by the number of its own draw. */
module FleetScript {
  import opened Options
  import opened Names
  import opened Runs
  import opened Topology
  import opened Xorshift
  import opened FleetMachine
  import opened FleetShape
  import opened FleetSeeds

  // -------------------------------------------------------------- what a draw says --

  /** The place among n that a draw falls on. */
  predicate Falls(v: real, n: nat, i: nat) {
    i < n && i as real <= v * n as real < (i + 1) as real
  }

  /** The nearest whole number. */
  predicate Nearest(p: int, x: real) {
    p as real - 0.5 <= x < p as real + 0.5
  }

  const WORDS := ["edge", "api", "core", "data"]
  const SIZES: seq<nat> := [8, 18, 22, 12]
  const FIRSTS: seq<nat> := [0, 8, 26, 48]
  const DOWN_PROTOCOLS := ["http", "grpc", "sql"]
  const PLACES := ["prod-east", "prod-west", "staging", "tools"]

  /** The id of service i of tier t in cluster c. */
  function Id(c: nat, t: nat, i: nat): string
    requires c < 4 && t < 4
  {
    PLACES[c] + ":" + WORDS[t] + "-" + Decimal(i)
  }

  /** The o-th cluster that is not c. */
  function Other(c: nat, o: nat): nat {
    if o < c then o else o + 1
  }

  /** Service i of tier t in cluster c, named by the noun its draw falls on. */
  ghost predicate SaysName(nouns: seq<string>, s: Service, c: nat, t: nat, i: nat, v: real)
    requires c < 4 && t < 4
  {
    && s.sid == Id(c, t, i) && s.cluster == PLACES[c] && s.tier == TIERS[t]
    && (forall at: nat | Falls(v, |nouns|, at) :: s.name == nouns[at] + "-" + WORDS[t] + "-" + Decimal(i))
    && ((forall at: nat :: !Falls(v, |nouns|, at)) ==> s.name == "undefined-" + WORDS[t] + "-" + Decimal(i))
  }

  /** The place of tier t in cluster c that a draw falls on. */
  predicate GoesTo(to: string, v: real, c: nat, t: nat, at: nat)
    requires t < 4
  {
    c < 4 && Falls(v, SIZES[t], at) && to == Id(c, t, at)
  }

  /** A call within the cluster: the target and the latency that two draws say. */
  ghost predicate SaysOwn(call: Call, n: nat, c: nat, t: nat, i: nat, v: real, w: real)
    requires c < 4 && t < 3
  {
    var below := t + 1;
    && call.cid == "c" + Decimal(n) && call.from == Id(c, t, i) && call.protocol == DOWN_PROTOCOLS[t]
    && Nearest(call.p95, 2.0 + 120.0 * w)
    && exists at: nat :: GoesTo(call.to, v, c, below, at)
  }

  /** A call to another cluster: the cluster, the target and the latency that three draws say. */
  ghost predicate SaysCross(call: Call, n: nat, c: nat, t: nat, i: nat, u: real, v: real, w: real)
    requires c < 4 && t < 3
  {
    var below := t + 1;
    && call.cid == "c" + Decimal(n) && call.from == Id(c, t, i) && call.protocol == "queue"
    && Nearest(call.p95, 10.0 + 300.0 * w)
    && exists o: nat, at: nat :: Falls(u, 3, o) && GoesTo(call.to, v, Other(c, o), below, at)
  }

  /** One to three calls, by the place the draw falls on; four for a draw of 1. */
  predicate SaysFan(v: real, fan: nat) {
    1 <= fan <= 4 && if fan == 4 then v == 1.0 else Falls(v, 3, fan - 1)
  }

  /** The calls from index j on up to j' are those that service i of tier t in cluster c makes by draws d + 1 to d'. */
  ghost predicate Script(draws: nat -> real, calls: seq<Call>, c: nat, t: nat, i: nat, d: nat, j: nat, d': nat, j': nat)
    requires c < 4 && t < 3
  {
    exists fan: nat :: ScriptOf(draws, calls, c, t, i, d, j, fan, d', j')
  }

  ghost predicate ScriptOf(draws: nat -> real, calls: seq<Call>, c: nat, t: nat, i: nat, d: nat, j: nat, fan: nat, d': nat, j': nat)
    requires c < 4 && t < 3
  {
    var coin := d + 2 + 2 * fan;
    && SaysFan(draws(d + 1), fan) && j <= j + fan <= j' <= |calls|
    && (forall q: nat | q < fan :: SaysOwn(calls[j + q], j + q, c, t, i, draws(d + 2 + 2 * q), draws(d + 3 + 2 * q)))
    && if draws(coin) < 0.05
       then d' == coin + 3 && j' == j + fan + 1
            && SaysCross(calls[j + fan], j + fan, c, t, i, draws(coin + 1), draws(coin + 2), draws(coin + 3))
       else d' == coin && j' == j + fan
  }

  // ---------------------------------------------------------- the machine says the same --

  lemma OneNext(nouns: seq<string>, draws: nat -> real, n: nat)
    ensures GenAt(nouns, draws, n + 1) == GenAt(nouns, draws, n).Next(nouns, draws(n + 1))
    ensures GenAt(nouns, draws, n).phase == PhaseAt(draws, n)
  {
    GenHasPhase(nouns, draws, n);
  }

  lemma MillisecondsNearest(v: real, least: nat, span: nat)
    ensures Nearest(Milliseconds(v, least, span), least as real + v * span as real)
  {
  }

  /** Where a service stands: its cluster, its tier and its number. */
  predicate Stands(k: nat, c: nat, t: nat, i: nat) {
    c < 4 && t < 4 && i < SIZES[t] && k == 60 * c + FIRSTS[t] + i
  }

  lemma StandsIs(k: nat, c: nat, t: nat, i: nat)
    requires Stands(k, c, t, i)
    ensures ClusterOf(k) == c && TierAt(k) == TIERS[t] && NumberAt(k) == i && k < TOTAL
    ensures SidAt(k) == Id(c, t, i) && CLUSTERS[c] == PLACES[c] && TIERS[t].Word() == WORDS[t]
    ensures Caller(k) <==> t < 3
  {
    assert k / PER_CLUSTER == c && k % PER_CLUSTER == FIRSTS[t] + i;
  }

  lemma TierBelow(k: nat, c: nat, t: nat, i: nat, o: nat, at: nat)
    requires Stands(k, c, t, i) && t < 3 && o < 4
    ensures Down(k).Size() == SIZES[t + 1] && Sid(CLUSTERS[o], Down(k), at) == Id(o, t + 1, at)
    ensures Protocol(TierAt(k)) == DOWN_PROTOCOLS[t]
  {
    StandsIs(k, c, t, i);
  }

  lemma FanSays(v: real)
    requires 0.0 <= v <= 1.0
    ensures SaysFan(v, FanOut(v))
  {
  }

  lemma OthersMore(c: Cluster, n: nat)
    requires n < 4
    ensures Others(c, n + 1) == Others(c, n) + if n == c then [] else [n]
  {
    if CLUSTERS[n] == CLUSTERS[c] {
      ClustersDiffer(n, c);
    }
  }

  /** Skips c, and counts on from the next. */
  ghost predicate Skips(s: seq<Cluster>, c: nat, n: nat) {
    |s| == (if n <= c then n else n - 1) && forall o: nat | o < |s| :: s[o] == Other(c, o)
  }

  lemma SkipsOn(s: seq<Cluster>, c: nat, n: nat)
    requires n < 4 && Skips(s, c, n)
    ensures Skips(s + (if n == c then [] else [n]), c, n + 1)
  {
  }

  lemma {:induction false} OthersSkip(c: Cluster, n: nat)
    requires n <= 4
    ensures Skips(Others(c, n), c, n)
  {
    if n > 0 {
      OthersSkip(c, n - 1);
      OthersMore(c, n - 1);
      hide *;
      SkipsOn(Others(c, n - 1), c, n - 1);
    }
  }

  lemma OthersAre(k: nat, c: nat, t: nat, i: nat)
    requires Stands(k, c, t, i)
    ensures |OtherClusters(k)| == 3 && forall o: nat | o < 3 :: OtherClusters(k)[o] == Other(c, o) < 4
  {
    StandsIs(k, c, t, i);
    OthersSkip(c, 4);
    hide Others, Stands;
  }

  /** The generation never throws. */
  ghost predicate Quiet(draws: nat -> real) {
    InRange(draws) && forall n: nat :: !PhaseAt(draws, n).Thrown?
  }

  /** Two draws make one call within the cluster. */
  lemma OwnBlock(nouns: seq<string>, draws: nat -> real, n: nat, k: nat, left: nat, c: nat, t: nat, i: nat) returns (call: Call)
    requires Quiet(draws) && PhaseAt(draws, n) == Calling(k, left) && Stands(k, c, t, i) && t < 3
    ensures PhaseAt(draws, n + 2) == if left > 1 then Calling(k, left - 1) else Tossing(k)
    ensures var g := GenAt(nouns, draws, n);
            && GenAt(nouns, draws, n + 2).calls == g.calls + [call] && GenAt(nouns, draws, n + 2).services == g.services
            && SaysOwn(call, |g.calls|, c, t, i, draws(n + 1), draws(n + 2))
  {
    OneNext(nouns, draws, n);
    OneNext(nouns, draws, n + 1);
    OneNext(nouns, draws, n + 2);
    TierBelow(k, c, t, i, c, 0);
    assert !PhaseAt(draws, n + 1).Thrown?;
    var at := Pick(draws(n + 1), Down(k).Size()).value;
    PickIsPlace(draws(n + 1), Down(k).Size(), at);
    call := OwnCall(|GenAt(nouns, draws, n).calls|, k, at, draws(n + 2));
    hide Run, GenAt, PhaseAt, Quiet;
    OwnSays(call, |GenAt(nouns, draws, n).calls|, k, c, t, i, at, draws(n + 1), draws(n + 2));
  }

  lemma OwnSays(call: Call, n: nat, k: nat, c: nat, t: nat, i: nat, at: nat, v: real, w: real)
    requires Stands(k, c, t, i) && t < 3 && Falls(v, SIZES[t + 1], at) && call == OwnCall(n, k, at, w)
    ensures SaysOwn(call, n, c, t, i, v, w)
  {
    StandsIs(k, c, t, i);
    TierBelow(k, c, t, i, c, at);
    MillisecondsNearest(w, 2, 120);
    hide Milliseconds, Nearest, Id, Falls;
    assert GoesTo(call.to, v, c, t + 1, at);
  }

  lemma CrossSays(call: Call, n: nat, k: nat, c: nat, t: nat, i: nat, o: nat, at: nat, u: real, v: real, w: real)
    requires Stands(k, c, t, i) && t < 3 && Falls(u, 3, o) && Falls(v, SIZES[t + 1], at) && Other(c, o) < 4
    requires call == CrossCall(n, k, Other(c, o), at, w)
    ensures SaysCross(call, n, c, t, i, u, v, w)
  {
    StandsIs(k, c, t, i);
    TierBelow(k, c, t, i, Other(c, o), at);
    MillisecondsNearest(w, 10, 300);
    hide Milliseconds, Nearest, Id, Falls;
    assert GoesTo(call.to, v, Other(c, o), t + 1, at);
  }

  /** All calls of a service within its cluster. */
  lemma {:induction false} OwnBlocks(nouns: seq<string>, draws: nat -> real, n: nat, k: nat, left: nat, c: nat, t: nat, i: nat)
      returns (made: seq<Call>)
    requires Quiet(draws) && PhaseAt(draws, n) == Calling(k, left) && left > 0 && Stands(k, c, t, i) && t < 3
    ensures PhaseAt(draws, n + 2 * left) == Tossing(k) && |made| == left
    ensures var g, h := GenAt(nouns, draws, n), GenAt(nouns, draws, n + 2 * left);
            && h.calls == g.calls + made && h.services == g.services
            && forall q: nat | q < left ::
                 SaysOwn(made[q], |g.calls| + q, c, t, i, draws(n + 1 + 2 * q), draws(n + 2 + 2 * q))
    decreases left
  {
    hide Run, GenAt, PhaseAt, Quiet, SaysOwn;
    var g := GenAt(nouns, draws, n);
    var call := OwnBlock(nouns, draws, n, k, left, c, t, i);
    made := [call];
    if left > 1 {
      var rest := OwnBlocks(nouns, draws, n + 2, k, left - 1, c, t, i);
      made := [call] + rest;
      forall q: nat | q < left
        ensures SaysOwn(made[q], |g.calls| + q, c, t, i, draws(n + 1 + 2 * q), draws(n + 2 + 2 * q))
      {
        if q > 0 {
          assert made[q] == rest[q - 1];
          assert n + 2 + 1 + 2 * (q - 1) == n + 1 + 2 * q && n + 2 + 2 + 2 * (q - 1) == n + 2 + 2 * q;
        }
      }
    }
  }

  lemma CoinStep(nouns: seq<string>, g: Gen, v: real, k: nat)
    requires g.phase == Tossing(k)
    ensures g.Next(nouns, v).phase == if v < 0.05 then Choosing(k) else From(k + 1)
    ensures g.Next(nouns, v).calls == g.calls && g.Next(nouns, v).services == g.services
  {
  }

  lemma ChooseStep(nouns: seq<string>, g: Gen, v: real, k: nat, c: nat, t: nat, i: nat) returns (o: nat)
    requires g.phase == Choosing(k) && Stands(k, c, t, i) && !g.Next(nouns, v).phase.Thrown?
    ensures Falls(v, 3, o) && Other(c, o) < 4 && g.Next(nouns, v).phase == Aiming(k, Other(c, o))
    ensures g.Next(nouns, v).calls == g.calls && g.Next(nouns, v).services == g.services
  {
    OthersAre(k, c, t, i);
    hide OtherClusters;
    o := Pick(v, 3).value;
    PickIsPlace(v, 3, o);
  }

  lemma AimStep(nouns: seq<string>, g: Gen, v: real, k: nat, c: nat, t: nat, i: nat, other: Cluster) returns (at: nat)
    requires g.phase == Aiming(k, other) && Stands(k, c, t, i) && t < 3 && !g.Next(nouns, v).phase.Thrown?
    ensures Falls(v, SIZES[t + 1], at) && g.Next(nouns, v).phase == CrossTiming(k, other, at)
    ensures g.Next(nouns, v).calls == g.calls && g.Next(nouns, v).services == g.services
  {
    TierBelow(k, c, t, i, other, 0);
    hide Down;
    at := Pick(v, SIZES[t + 1]).value;
    PickIsPlace(v, SIZES[t + 1], at);
  }

  lemma CrossTimeStep(nouns: seq<string>, g: Gen, v: real, k: nat, other: Cluster, at: nat)
    requires g.phase == CrossTiming(k, other, at)
    ensures g.Next(nouns, v).phase == From(k + 1)
    ensures g.Next(nouns, v).calls == g.calls + [CrossCall(|g.calls|, k, other, at, v)] && g.Next(nouns, v).services == g.services
  {
    hide From;
  }

  lemma NotThrown(nouns: seq<string>, draws: nat -> real, n: nat)
    requires Quiet(draws)
    ensures !GenAt(nouns, draws, n).phase.Thrown?
  {
    OneNext(nouns, draws, n);
    assert !PhaseAt(draws, n).Thrown?;
  }

  /** Three draws make a call across. */
  lemma AcrossBlock(nouns: seq<string>, draws: nat -> real, n: nat, k: nat, c: nat, t: nat, i: nat) returns (call: Call)
    requires Quiet(draws) && PhaseAt(draws, n) == Choosing(k) && Stands(k, c, t, i) && t < 3
    ensures PhaseAt(draws, n + 3) == From(k + 1)
    ensures var g, h := GenAt(nouns, draws, n), GenAt(nouns, draws, n + 3);
            && h.calls == g.calls + [call] && h.services == g.services
            && SaysCross(call, |g.calls|, c, t, i, draws(n + 1), draws(n + 2), draws(n + 3))
  {
    hide Run, GenAt, PhaseAt, Quiet, Gen.Next, SaysCross, From, CrossCall;
    OneNext(nouns, draws, n);
    OneNext(nouns, draws, n + 1);
    OneNext(nouns, draws, n + 2);
    OneNext(nouns, draws, n + 3);
    NotThrown(nouns, draws, n + 1);
    NotThrown(nouns, draws, n + 2);
    var g := GenAt(nouns, draws, n);
    var o := ChooseStep(nouns, g, draws(n + 1), k, c, t, i);
    var at := AimStep(nouns, GenAt(nouns, draws, n + 1), draws(n + 2), k, c, t, i, Other(c, o));
    CrossTimeStep(nouns, GenAt(nouns, draws, n + 2), draws(n + 3), k, Other(c, o), at);
    call := CrossCall(|g.calls|, k, Other(c, o), at, draws(n + 3));
    CrossSays(call, |g.calls|, k, c, t, i, o, at, draws(n + 1), draws(n + 2), draws(n + 3));
  }

  /** The coin, and the call across. */
  lemma CoinBlock(nouns: seq<string>, draws: nat -> real, n: nat, k: nat, c: nat, t: nat, i: nat) returns (made: seq<Call>, n': nat)
    requires Quiet(draws) && PhaseAt(draws, n) == Tossing(k) && Stands(k, c, t, i) && t < 3
    ensures PhaseAt(draws, n') == From(k + 1)
    ensures var g, h := GenAt(nouns, draws, n), GenAt(nouns, draws, n');
            && h.calls == g.calls + made && h.services == g.services
            && if draws(n + 1) < 0.05
               then n' == n + 4 && |made| == 1
                    && SaysCross(made[0], |g.calls|, c, t, i, draws(n + 2), draws(n + 3), draws(n + 4))
               else n' == n + 1 && made == []
  {
    hide Run, GenAt, PhaseAt, Quiet, Gen.Next, SaysCross, From;
    OneNext(nouns, draws, n);
    OneNext(nouns, draws, n + 1);
    CoinStep(nouns, GenAt(nouns, draws, n), draws(n + 1), k);
    if draws(n + 1) < 0.05 {
      n' := n + 4;
      var call := AcrossBlock(nouns, draws, n + 1, k, c, t, i);
      made := [call];
    } else {
      n', made := n + 1, [];
    }
  }

  lemma FanStep(nouns: seq<string>, g: Gen, v: real, k: nat)
    requires g.phase == Fanning(k) && 0.0 <= v <= 1.0
    ensures g.Next(nouns, v).phase == Calling(k, FanOut(v)) && SaysFan(v, FanOut(v))
    ensures g.Next(nouns, v).calls == g.calls && g.Next(nouns, v).services == g.services
  {
    FanSays(v);
  }

  lemma FanBlock(nouns: seq<string>, draws: nat -> real, d: nat, k: nat) returns (fan: nat)
    requires Quiet(draws) && PhaseAt(draws, d) == Fanning(k)
    ensures 1 <= fan <= 4 && SaysFan(draws(d + 1), fan) && PhaseAt(draws, d + 1) == Calling(k, fan)
    ensures GenAt(nouns, draws, d + 1).calls == GenAt(nouns, draws, d).calls
    ensures GenAt(nouns, draws, d + 1).services == GenAt(nouns, draws, d).services
  {
    assert 0.0 <= draws(d + 1) <= 1.0;
    hide Run, GenAt, PhaseAt, Quiet, Gen.Next;
    OneNext(nouns, draws, d);
    OneNext(nouns, draws, d + 1);
    fan := FanOut(draws(d + 1));
    FanStep(nouns, GenAt(nouns, draws, d), draws(d + 1), k);
  }

  /** The draws of one service's calls, after its fan-out. */
  lemma CallBlock(nouns: seq<string>, draws: nat -> real, d: nat, k: nat, fan: nat, c: nat, t: nat, i: nat)
      returns (own: seq<Call>, across: seq<Call>, d': nat)
    requires Quiet(draws) && PhaseAt(draws, d + 1) == Calling(k, fan) && Stands(k, c, t, i) && t < 3
    requires 1 <= fan && SaysFan(draws(d + 1), fan)
    ensures PhaseAt(draws, d') == From(k + 1)
    ensures var g, h := GenAt(nouns, draws, d + 1), GenAt(nouns, draws, d');
            && h.calls == g.calls + own + across && h.services == g.services
            && Script(draws, g.calls + own + across, c, t, i, d, |g.calls|, d', |g.calls + own + across|)
  {
    hide Run, GenAt, PhaseAt, Quiet, Gen.Next, SaysCross, SaysOwn, SaysFan, From, Script, Stands;
    StandsBounds(k, c, t, i);
    own := OwnBlocks(nouns, draws, d + 1, k, fan, c, t, i);
    across, d' := CoinBlock(nouns, draws, d + 1 + 2 * fan, k, c, t, i);
    Assemble(draws, GenAt(nouns, draws, d + 1).calls, own, across, c, t, i, d, fan, d');
  }

  lemma StandsBounds(k: nat, c: nat, t: nat, i: nat)
    requires Stands(k, c, t, i)
    ensures c < 4 && t < 4
  {
  }

  /** All draws of one service. */
  lemma ServiceBlock(nouns: seq<string>, draws: nat -> real, d: nat, k: nat, c: nat, t: nat, i: nat) returns (made: seq<Call>, d': nat)
    requires Quiet(draws) && PhaseAt(draws, d) == Fanning(k) && Stands(k, c, t, i) && t < 3
    ensures PhaseAt(draws, d') == From(k + 1)
    ensures var g, h := GenAt(nouns, draws, d), GenAt(nouns, draws, d');
            && h.calls == g.calls + made && h.services == g.services
            && Script(draws, h.calls, c, t, i, d, |g.calls|, d', |h.calls|)
  {
    hide Run, GenAt, PhaseAt, Quiet, SaysFan, From, Script, Stands;
    StandsBounds(k, c, t, i);
    var fan := FanBlock(nouns, draws, d, k);
    var own, across, e := CallBlock(nouns, draws, d, k, fan, c, t, i);
    made, d' := own + across, e;
    assert GenAt(nouns, draws, d).calls + own + across == GenAt(nouns, draws, d).calls + made;
  }

  /** A service's calls within its cluster and the one across make its script. */
  lemma Assemble(draws: nat -> real, before: seq<Call>, own: seq<Call>, across: seq<Call>,
                 c: nat, t: nat, i: nat, d: nat, fan: nat, d': nat)
    requires c < 4 && t < 3 && SaysFan(draws(d + 1), fan) && |own| == fan
    requires forall q: nat | q < fan ::
               SaysOwn(own[q], |before| + q, c, t, i, draws(d + 1 + 1 + 2 * q), draws(d + 1 + 2 + 2 * q))
    requires var n := d + 1 + 2 * fan;
             if draws(n + 1) < 0.05
             then d' == n + 4 && |across| == 1
                  && SaysCross(across[0], |before| + fan, c, t, i, draws(n + 2), draws(n + 3), draws(n + 4))
             else d' == n + 1 && across == []
    ensures var calls := before + own + across;
            Script(draws, calls, c, t, i, d, |before|, d', |calls|)
  {
    hide SaysCross, SaysOwn;
    SaysFanIsPositive(draws(d + 1), fan);
    hide SaysFan;
    var calls := before + own + across;
    forall q: nat | q < fan
      ensures SaysOwn(calls[|before| + q], |before| + q, c, t, i, draws(d + 2 + 2 * q), draws(d + 3 + 2 * q))
    {
      assert calls[|before| + q] == own[q];
      assert d + 1 + 1 + 2 * q == d + 2 + 2 * q && d + 1 + 2 + 2 * q == d + 3 + 2 * q;
    }
    assert across != [] ==> calls[|before| + fan] == across[0];
    assert ScriptOf(draws, calls, c, t, i, d, |before|, fan, d', |calls|);
  }

  lemma SaysFanIsPositive(v: real, fan: nat)
    requires SaysFan(v, fan)
    ensures 1 <= fan <= 4
  {
  }

  // ---------------------------------------------------------------- the whole fleet --

  /** The m-th service that calls: its cluster, its tier and its number. */
  function ClusterOfCaller(m: nat): nat {
    m / 48
  }

  function TierOfCaller(m: nat): nat {
    if m % 48 < 8 then 0 else if m % 48 < 26 then 1 else 2
  }

  function NumberOfCaller(m: nat): nat {
    if m % 48 < 8 then m % 48 else if m % 48 < 26 then m % 48 - 8 else m % 48 - 26
  }

  const CALLING: nat := 192

  /** Service m of those that call makes calls js to js' by draws ds + 1 to ds'. */
  ghost predicate Scripted(draws: nat -> real, calls: seq<Call>, m: nat, d: nat, j: nat, d': nat, j': nat)
    requires m < CALLING
  {
    Script(draws, calls, ClusterOfCaller(m), TierOfCaller(m), NumberOfCaller(m), d, j, d', j')
  }

  function CallerAt(m: nat): nat {
    60 * (m / 48) + m % 48
  }

  lemma CallerStands(m: nat)
    requires m < CALLING
    ensures Stands(CallerAt(m), ClusterOfCaller(m), TierOfCaller(m), NumberOfCaller(m)) && TierOfCaller(m) < 3
  {
  }

  lemma NextCaller(m: nat)
    requires m < CALLING
    ensures From(CallerAt(m) + 1) == if m + 1 < CALLING then Fanning(CallerAt(m + 1)) else Done
  {
    var c, r := m / 48, m % 48;
    var k := CallerAt(m);
    assert (k + 1) / PER_CLUSTER == c && (k + 1) % PER_CLUSTER == r + 1;
    if r == 47 {
      assert (m + 1) / 48 == c + 1 && (m + 1) % 48 == 0;
    } else {
      assert (m + 1) / 48 == c && (m + 1) % 48 == r + 1;
    }
  }

  lemma ScriptLater(draws: nat -> real, calls: seq<Call>, more: seq<Call>, m: nat, d: nat, j: nat, d': nat, j': nat)
    requires m < CALLING && Scripted(draws, calls, m, d, j, d', j')
    ensures Scripted(draws, calls + more, m, d, j, d', j')
  {
    var c, t, i := ClusterOfCaller(m), TierOfCaller(m), NumberOfCaller(m);
    var fan: nat :| ScriptOf(draws, calls, c, t, i, d, j, fan, d', j');
    hide SaysOwn, SaysCross, SaysFan;
    assert forall q: nat | q < |calls| :: (calls + more)[q] == calls[q];
    assert ScriptOf(draws, calls + more, c, t, i, d, j, fan, d', j');
  }

  /** The services before the m-th that calls have made their calls by draw ds[m], the first js[m] of all. */
  ghost predicate Chained(nouns: seq<string>, draws: nat -> real, m: nat, ds: seq<nat>, js: seq<nat>)
    requires m <= CALLING
  {
    && |ds| == |js| == m + 1 && ds[0] == TOTAL && js[0] == 0
    && PhaseAt(draws, ds[m]) == (if m < CALLING then Fanning(CallerAt(m)) else Done)
    && GenAt(nouns, draws, ds[m]).services == GenAt(nouns, draws, TOTAL).services
    && |GenAt(nouns, draws, ds[m]).calls| == js[m]
    && forall p: nat | p < m :: Scripted(draws, GenAt(nouns, draws, ds[m]).calls, p, ds[p], js[p], ds[p + 1], js[p + 1])
  }

  lemma ChainOne(nouns: seq<string>, draws: nat -> real, m: nat, ds: seq<nat>, js: seq<nat>) returns (ds': seq<nat>, js': seq<nat>)
    requires Quiet(draws) && m < CALLING && Chained(nouns, draws, m, ds, js)
    ensures Chained(nouns, draws, m + 1, ds', js')
  {
    hide Run, GenAt, PhaseAt, Quiet, Script, From, CallerAt, Stands, Scripted;
    CallerStands(m);
    NextCaller(m);
    var calls := GenAt(nouns, draws, ds[m]).calls;
    var made, e := ServiceBlock(nouns, draws, ds[m], CallerAt(m), ClusterOfCaller(m), TierOfCaller(m), NumberOfCaller(m));
    ds', js' := ds + [e], js + [|GenAt(nouns, draws, e).calls|];
    ScriptedIs(draws, GenAt(nouns, draws, e).calls, m, ds[m], js[m], e, |GenAt(nouns, draws, e).calls|);
    forall p: nat | p < m + 1
      ensures Scripted(draws, GenAt(nouns, draws, e).calls, p, ds'[p], js'[p], ds'[p + 1], js'[p + 1])
    {
      if p < m {
        ScriptLater(draws, calls, made, p, ds[p], js[p], ds[p + 1], js[p + 1]);
      }
    }
  }

  lemma ScriptedIs(draws: nat -> real, calls: seq<Call>, m: nat, d: nat, j: nat, d': nat, j': nat)
    requires m < CALLING
    requires CallerStandsOk(m) && Script(draws, calls, ClusterOfCaller(m), TierOfCaller(m), NumberOfCaller(m), d, j, d', j')
    ensures Scripted(draws, calls, m, d, j, d', j')
  {
  }

  predicate CallerStandsOk(m: nat) {
    ClusterOfCaller(m) < 4 && TierOfCaller(m) < 3
  }

  lemma {:induction false} Chain(nouns: seq<string>, draws: nat -> real, m: nat) returns (ds: seq<nat>, js: seq<nat>)
    requires Quiet(draws) && m <= CALLING
    ensures Chained(nouns, draws, m, ds, js)
  {
    if m == 0 {
      NamesAt(nouns, draws, TOTAL);
      ThenCalls(draws);
      ds, js := [TOTAL], [0];
      assert CallerAt(0) == 0;
    } else {
      var ds0, js0 := Chain(nouns, draws, m - 1);
      ds, js := ChainOne(nouns, draws, m - 1, ds0, js0);
    }
  }

  lemma NameStep(nouns: seq<string>, g: Gen, v: real, k: nat)
    requires g.phase == Naming(k)
    ensures g.Next(nouns, v).services == g.services + [Named(nouns, k, v)] && g.Next(nouns, v).calls == g.calls
  {
    hide Phase.Next, Named;
  }

  ghost predicate NamedSoFar(nouns: seq<string>, draws: nat -> real, g: Gen, n: nat) {
    && |g.services| == n && g.calls == []
    && forall k: nat | k < n :: g.services[k] == Named(nouns, k, draws(k + 1))
  }

  lemma NamedMore(nouns: seq<string>, draws: nat -> real, g: Gen, n: nat)
    requires NamedSoFar(nouns, draws, g, n) && g.phase == Naming(n)
    ensures NamedSoFar(nouns, draws, g.Next(nouns, draws(n + 1)), n + 1)
  {
    hide Gen.Next, Named;
    NameStep(nouns, g, draws(n + 1), n);
  }

  lemma NamedNone(nouns: seq<string>, draws: nat -> real)
    ensures NamedSoFar(nouns, draws, GenAt(nouns, draws, 0), 0)
  {
  }

  /** After n draws, n services have their names, and there are no calls. */
  lemma {:induction false} NamesAt(nouns: seq<string>, draws: nat -> real, n: nat)
    requires n <= TOTAL
    ensures NamedSoFar(nouns, draws, GenAt(nouns, draws, n), n)
  {
    hide *;
    if n == 0 {
      NamedNone(nouns, draws);
    } else {
      NamesAt(nouns, draws, n - 1);
      NamesFirst(draws, n - 1);
      OneNext(nouns, draws, n - 1);
      NamedMore(nouns, draws, GenAt(nouns, draws, n - 1), n - 1);
    }
  }

  lemma NameSays(nouns: seq<string>, k: nat, c: nat, t: nat, i: nat, v: real)
    requires Stands(k, c, t, i) && 0.0 <= v <= 1.0
    ensures SaysName(nouns, Named(nouns, k, v), c, t, i, v)
  {
    StandsIs(k, c, t, i);
    forall at: nat ensures Pick(v, |nouns|) == Some(at) <==> Falls(v, |nouns|, at) {
      PickIsPlace(v, |nouns|, at);
    }
    if Pick(v, |nouns|).Some? {
      assert Falls(v, |nouns|, Pick(v, |nouns|).value);
    }
  }

  /** Only a generation that never throws leaves a fleet. */
  lemma FleetMeansQuiet(nouns: seq<string>, seed: Register, f: Fleet)
    requires FleetOf(nouns, seed) == Some(f)
    ensures Quiet(DrawsOf(seed))
  {
    SeedsDrawInRange(seed);
    var draws := DrawsOf(seed);
    forall n: nat ensures !PhaseAt(draws, n).Thrown? {
      HaltsInTime(nouns, draws, n);
      GenHasPhase(nouns, draws, n);
      GenHasPhase(nouns, draws, MAX_DRAWS);
      if n <= MAX_DRAWS {
        if PhaseAt(draws, n).Halted() {
          StaysHalted(nouns, draws, n, MAX_DRAWS);
        }
      } else {
        StaysHalted(nouns, draws, MAX_DRAWS, n);
      }
    }
  }

  lemma DoneIsTheFleet(nouns: seq<string>, seed: Register, f: Fleet, n: nat)
    requires FleetOf(nouns, seed) == Some(f) && PhaseAt(DrawsOf(seed), n) == Done
    ensures GenAt(nouns, DrawsOf(seed), n).services == f.services && GenAt(nouns, DrawsOf(seed), n).calls == f.calls
  {
    SeedsDrawInRange(seed);
    HaltsInTime(nouns, DrawsOf(seed), n);
    if n <= MAX_DRAWS {
      StaysHalted(nouns, DrawsOf(seed), n, MAX_DRAWS);
    } else {
      StaysHalted(nouns, DrawsOf(seed), MAX_DRAWS, n);
    }
    hide Run, GenAt, PhaseAt;
  }

  /** The n-th draw of a seed, from 1. */
  function Draw(seed: Register, n: nat): real {
    Unit(After(seed, n))
  }

  /** Every service of a seed's fleet has the name its draw says: that of service i of tier t in cluster c is the one
      after those of the services before it. */
  lemma NamesSaid(nouns: seq<string>, seed: Register, f: Fleet, c: nat, t: nat, i: nat)
    requires FleetOf(nouns, seed) == Some(f) && c < 4 && t < 4 && i < SIZES[t]
    ensures |f.services| == 240
    ensures var k := 60 * c + FIRSTS[t] + i; k < 240 && SaysName(nouns, f.services[k], c, t, i, Draw(seed, k + 1))
  {
    var draws, k := DrawsOf(seed), 60 * c + FIRSTS[t] + i;
    FleetMeansQuiet(nouns, seed, f);
    var ds, js := Chain(nouns, draws, CALLING);
    DoneIsTheFleet(nouns, seed, f, ds[CALLING]);
    NamesAt(nouns, draws, TOTAL);
    StandsIs(k, c, t, i);
    UnitRange(After(seed, k + 1));
    NameSays(nouns, k, c, t, i, Draw(seed, k + 1));
    hide Run, GenAt, PhaseAt, Quiet, Scripted, SaysName, Step, Iterate, Unit;
  }

  /** And its calls are what the draws after the nouns say, service after service: one list of draw numbers and one of
      call indexes say where each service's own begin and end. */
  lemma CallsSaid(nouns: seq<string>, seed: Register, f: Fleet) returns (ds: seq<nat>, js: seq<nat>)
    requires FleetOf(nouns, seed) == Some(f)
    ensures |ds| == |js| == 193 && ds[0] == 240 && js[0] == 0 && js[192] == |f.calls|
    ensures forall m: nat | m < 192 :: Scripted(DrawsOf(seed), f.calls, m, ds[m], js[m], ds[m + 1], js[m + 1])
    ensures forall n: nat :: DrawsOf(seed)(n) == Draw(seed, n)
  {
    assert forall n: nat :: DrawsOf(seed)(n) == Draw(seed, n);
    hide Run, GenAt, PhaseAt, Quiet, Scripted, Step, Iterate, Unit;
    FleetMeansQuiet(nouns, seed, f);
    ds, js := Chain(nouns, DrawsOf(seed), CALLING);
    DoneIsTheFleet(nouns, seed, f, ds[CALLING]);
  }
}
