/** The strided fixtures: edge k runs from k * a to k * b modulo the number of vertices.  How many
    edges leave a vertex, how many are self-loops, and where the two builders part. */
module Strided {
  import opened Options
  import opened Divisors
  import opened PowerOfTwo
  import opened Multigraph
  import opened Adjacency
  import opened DegreeCounts
  import DegreeProducts

  // ---------------------------------------------------------------- divisors --

  lemma Multiple(m: nat, t: int)
    requires m > 0
    ensures (m * t) % m == 0
  {
    Remainder(m * t, m, t, 0);
  }

  lemma MultipleOfCofactor(k: int, a: int, n: int, g: int, p: int, q: int)
    requires n > 0 && q > 0 && a == g * p && n == g * q && k % q == 0
    ensures (k * a) % n == 0
  {
    var t := k / q;
    assert k == q * t;
    assert (q * t) * (g * p) == (g * q) * (t * p);
    Multiple(n, t * p);
  }

  lemma CofactorOfMultiple(k: int, a: int, n: int, g: int, p: int, q: int, x: int, y: int)
    requires n > 0 && g > 0 && q > 0 && a == g * p && n == g * q && a * x + n * y == g && (k * a) % n == 0
    ensures k % q == 0
  {
    var u := (k * a) / n;
    assert k * a == n * u;
    Cofactor(k, g, p, q, x, y, u);
    Multiple(q, u * x + k * y);
  }

  lemma GcdParts(a: nat, n: nat) returns (p: nat, q: nat, x: int, y: int)
    requires n > 0
    ensures var g := Gcd(a, n); g > 0 && q > 0 && a == g * p && n == g * q && a * x + n * y == g
    ensures n % Gcd(a, n) == 0 && n / Gcd(a, n) == q
  {
    p, q, x, y := Bezout(a, n);
    Remainder(n, Gcd(a, n), q, 0);
  }

  /** n divides k * a exactly when n / gcd(a, n) divides k. */
  lemma DividesProduct(k: nat, a: nat, n: nat)
    requires n > 0
    ensures n % Gcd(a, n) == 0
    ensures n / Gcd(a, n) > 0
    ensures (k * a) % n == 0 <==> k % (n / Gcd(a, n)) == 0
  {
    var g := Gcd(a, n);
    var p, q, x, y := GcdParts(a, n);
    if k % q == 0 {
      MultipleOfCofactor(k, a, n, g, p, q);
    }
    if (k * a) % n == 0 {
      CofactorOfMultiple(k, a, n, g, p, q, x, y);
    }
  }

  lemma Cofactor(k: int, g: int, p: int, q: int, x: int, y: int, u: int)
    requires g != 0 && (g * p) * x + (g * q) * y == g && k * (g * p) == (g * q) * u
    ensures k == q * (u * x + k * y)
  {
    CoprimeParts(g, p, q, x, y);
    assert k * p == q * u by {
      assert g * (k * p) == k * (g * p) && g * (q * u) == (g * q) * u;
      Cancel(g, k * p, q * u);
    }
    Recombine(k, p, q, x, y, u);
  }

  lemma CoprimeParts(g: int, p: int, q: int, x: int, y: int)
    requires g != 0 && (g * p) * x + (g * q) * y == g
    ensures p * x + q * y == 1
  {
    assert g * (p * x + q * y) == g * 1 by {
      assert g * (p * x) == (g * p) * x && g * (q * y) == (g * q) * y;
    }
    Cancel(g, p * x + q * y, 1);
  }

  lemma Recombine(k: int, p: int, q: int, x: int, y: int, u: int)
    requires p * x + q * y == 1 && k * p == q * u
    ensures k == q * (u * x + k * y)
  {
    assert k == k * (p * x + q * y);
    assert k * (p * x + q * y) == (k * p) * x + k * (q * y);
    assert (q * u) * x + k * (q * y) == q * (u * x + k * y);
  }

  lemma Cancel(g: int, x: int, y: int)
    requires g != 0 && g * x == g * y
    ensures x == y
  {
    var d := x - y;
    assert g * d == g * x - g * y;
    assert d > 0 && g > 0 ==> g * d > 0;
    assert d > 0 && g < 0 ==> g * d < 0;
    assert d < 0 && g > 0 ==> g * d < 0;
    assert d < 0 && g < 0 ==> g * d > 0;
  }

  // --------------------------------------------------------------- the edges --

  /** The edges of the fixture, in building order. */
  function EdgeAt(kind: string, n: nat, a: nat, b: nat, k: nat): (e: Edge)
    requires n > 0
    ensures e.from < n && e.to < n
  {
    Edge((k * a) % n, (k * b) % n, {kind})
  }

  function Fixture(kind: string, n: nat, a: nat, b: nat, count: nat): (g: Graph)
    requires n > 0
    ensures g.Valid() && |g.edges| == count && g.order == n
    ensures forall k :: 0 <= k < count ==> g.edges[k] == EdgeAt(kind, n, a, b, k)
  {
    Graph(n, seq(count, k requires 0 <= k => EdgeAt(kind, n, a, b, k)))
  }

  lemma LoopAt(kind: string, n: nat, a: nat, b: nat, k: nat)
    requires n > 0 && a <= b
    ensures EdgeAt(kind, n, a, b, k).IsLoop() <==> (k * (b - a)) % n == 0
  {
    assert k * b == k * a + k * (b - a);
    if (k * a) % n == (k * b) % n {
      var t := Difference(k * b, k * a, n);
      Multiple(n, t);
    }
    if (k * (b - a)) % n == 0 {
      SameResidue(k * b, k * a, n, (k * (b - a)) / n);
    }
  }

  lemma {:induction false} CountMultiples(kind: string, g: Graph, n: nat, a: nat, b: nat, q: nat, k: nat)
    requires n > 0 && a <= b && q > 0 && k <= |g.edges|
    requires forall i: nat :: i < |g.edges| ==> g.edges[i] == EdgeAt(kind, n, a, b, i)
    requires forall i: nat :: (i * (b - a)) % n == 0 <==> i % q == 0
    ensures LoopsOfType(g, kind, k) == (k + q - 1) / q
  {
    if k == 0 {
      Remainder(q - 1, q, 0, q - 1);
    } else {
      CountMultiples(kind, g, n, a, b, q, k - 1);
      LoopAt(kind, n, a, b, k - 1);
      RoundUp(k - 1, q);
    }
  }

  /** Rounding up moves on at the multiples. */
  lemma RoundUp(k: nat, q: nat)
    requires q > 0
    ensures (k + 1 + q - 1) / q == (k + q - 1) / q + if k % q == 0 then 1 else 0
  {
    var d, r := k / q, k % q;
    assert k == q * d + r && q * (d + 1) == q * d + q;
    Remainder(k + q, q, d + 1, r);
    if r == 0 {
      Remainder(k + q - 1, q, d, q - 1);
    } else {
      Remainder(k + q - 1, q, d + 1, r - 1);
    }
  }

  /** The fixture of n * deg edges has exactly deg * gcd(b - a, n) self-loops. */
  lemma SelfLoops(kind: string, n: nat, deg: nat, a: nat, b: nat)
    requires n > 0 && a <= b
    ensures LoopsOfType(Fixture(kind, n, a, b, n * deg), kind, n * deg) == deg * Gcd(b - a, n)
  {
    var g, q := Gcd(b - a, n), n / Gcd(b - a, n);
    DividesProduct(0, b - a, n);
    forall i: nat ensures (i * (b - a)) % n == 0 <==> i % q == 0 {
      DividesProduct(i, b - a, n);
    }
    CountMultiples(kind, Fixture(kind, n, a, b, n * deg), n, a, b, q, n * deg);
    WholeMultiples(n, q, g, deg);
  }

  lemma WholeMultiples(n: nat, q: nat, g: nat, deg: nat)
    requires q > 0 && g > 0 && n % g == 0 && q == n / g
    ensures (n * deg + q - 1) / q == deg * g
  {
    assert n == q * g;
    assert (q * g) * deg == q * (deg * g);
    Remainder(n * deg + q - 1, q, deg * g, q - 1);
  }

  // ------------------------------------------------------------- the degrees --

  /** (x - r) / n, for an x that leaves s, by whether s reaches r. */
  lemma ShiftedQuotient(n: nat, d: nat, s: nat, r: nat)
    requires s < n && r < n
    ensures (n * d + s + n - 1 - r) / n == if s <= r then d else d + 1
  {
    if s <= r {
      Remainder(n * d + s + n - 1 - r, n, d, s + n - 1 - r);
    } else {
      assert n * (d + 1) == n * d + n;
      Remainder(n * d + s + n - 1 - r, n, d + 1, s - 1 - r);
    }
  }

  /** The number of k below a bound with k % n == r grows by one past each of them. */
  lemma RoundUpFrom(k: nat, n: nat, r: nat)
    requires r < n
    ensures (k + 1 + n - 1 - r) / n == (k + n - 1 - r) / n + if k % n == r then 1 else 0
  {
    var d, s := k / n, k % n;
    assert k == n * d + s;
    ShiftedQuotient(n, d, s, r);
    if s + 1 < n {
      ShiftedQuotient(n, d, s + 1, r);
    } else {
      assert n * (d + 1) == n * d + n;
      ShiftedQuotient(n, d + 1, 0, r);
    }
  }

  lemma {:induction false} CountStarts(kind: string, g: Graph, n: nat, a: nat, b: nat, v: nat, r: nat, k: nat)
    requires r < n && k <= |g.edges|
    requires forall i: nat :: i < |g.edges| ==> g.edges[i] == EdgeAt(kind, n, a, b, i)
    requires forall i: nat :: (i * a) % n == v <==> i % n == r
    ensures |AdjacentVia(g, Some({kind}), true, v, k)| == (k + n - 1 - r) / n
  {
    if k == 0 {
      Remainder(n - 1 - r, n, 0, n - 1 - r);
    } else {
      CountStarts(kind, g, n, a, b, v, r, k - 1);
      RoundUpFrom(k - 1, n, r);
      SingleType(kind, g.edges[k - 1]);
    }
  }

  /** Over a stride coprime to n, the edges that start at v are one residue class. */
  lemma StartsAt(n: nat, a: nat, v: nat) returns (r: nat)
    requires v < n && Gcd(a, n) == 1
    ensures r < n && forall i: nat :: (i * a) % n == v <==> i % n == r
  {
    var p, q, x, y := Bezout(a, n);
    r := (v * x) % n;
    forall i: nat ensures (i * a) % n == v <==> i % n == r {
      Inverse(n, a, x, y, v, i);
    }
  }

  lemma Inverse(n: nat, a: nat, x: int, y: int, v: nat, i: nat)
    requires v < n && a * x + n * y == 1
    ensures (i * a) % n == v <==> i % n == (v * x) % n
  {
    Remainder(v, n, 0, v);
    if (i * a) % n == v {
      var t := Difference(i * a, v, n);
      Undo(n, a, x, y, v, i, t);
      SameResidue(i, v * x, n, t * x + i * y);
    }
    if i % n == (v * x) % n {
      var t := Difference(i, v * x, n);
      Redo(n, a, x, y, v, i, t);
      SameResidue(i * a, v, n, t * a - v * y);
    }
  }

  lemma Undo(n: int, a: int, x: int, y: int, v: int, i: int, t: int)
    requires a * x + n * y == 1 && i * a == v + n * t
    ensures i == v * x + n * (t * x + i * y)
  {
    assert i * (a * x + n * y) == i;
    assert i * (a * x + n * y) == (i * a) * x + n * (i * y);
    assert (v + n * t) * x == v * x + n * (t * x);
  }

  lemma Redo(n: int, a: int, x: int, y: int, v: int, i: int, t: int)
    requires a * x + n * y == 1 && i == v * x + n * t
    ensures i * a == v + n * (t * a - v * y)
  {
    assert v * (a * x + n * y) == v;
    assert v * (a * x + n * y) == (v * x) * a + n * (v * y);
    assert (v * x + n * t) * a == (v * x) * a + n * (t * a);
  }

  lemma WholeClass(n: nat, deg: nat, r: nat)
    requires r < n
    ensures (n * deg + n - 1 - r) / n == deg
  {
    Remainder(n * deg + n - 1 - r, n, deg, n - 1 - r);
  }

  ghost predicate EveryOutDegree(kind: string, g: Graph, deg: nat) {
    forall v :: 0 <= v < g.order ==> |Adjacent(g, Some({kind}), true, v)| == deg
  }

  lemma CoprimeDegrees(kind: string, n: nat, deg: nat, a: nat, b: nat)
    requires n > 0 && Gcd(a, n) == 1
    ensures EveryOutDegree(kind, Fixture(kind, n, a, b, n * deg), deg)
  {
    forall v: nat | v < n ensures |Adjacent(Fixture(kind, n, a, b, n * deg), Some({kind}), true, v)| == deg {
      var r := StartsAt(n, a, v);
      CountStarts(kind, Fixture(kind, n, a, b, n * deg), n, a, b, v, r, n * deg);
      WholeClass(n, deg, r);
    }
  }

  lemma {:induction false} NeverStarts(kind: string, g: Graph, v: nat, k: nat)
    requires k <= |g.edges| && forall i :: 0 <= i < |g.edges| ==> g.edges[i].from != v
    ensures AdjacentVia(g, Some({kind}), true, v, k) == []
  {
    if k > 0 {
      NeverStarts(kind, g, v, k - 1);
    }
  }

  lemma NoStartAtOne(n: nat, a: nat, k: nat)
    requires n > 0 && Gcd(a, n) > 1
    ensures (k * a) % n != 1
  {
    var p, q, x, y := Bezout(a, n);
    if (k * a) % n == 1 {
      assert k * a == n * ((k * a) / n) + 1;
      NotUnit(Gcd(a, n), k, p, q, (k * a) / n);
      assert false;
    }
  }

  lemma NotUnit(g: nat, k: int, p: int, q: int, t: int)
    requires g > 1
    ensures k * (g * p) != (g * q) * t + 1
  {
    var u := k * p - q * t;
    assert g * u == k * (g * p) - (g * q) * t by {
      assert k * (g * p) == g * (k * p) && (g * q) * t == g * (q * t);
      assert g * u == g * (k * p) - g * (q * t);
    }
    assert u >= 1 ==> g * u > 1;
    assert u <= 0 ==> g * u <= 0;
  }

  lemma CommonFactorDegrees(kind: string, n: nat, deg: nat, a: nat, b: nat)
    requires n > 0 && deg > 0 && Gcd(a, n) > 1
    ensures !EveryOutDegree(kind, Fixture(kind, n, a, b, n * deg), deg)
  {
    var g := Fixture(kind, n, a, b, n * deg);
    forall i: nat | i < |g.edges| ensures g.edges[i].from != 1 {
      NoStartAtOne(n, a, i);
    }
    NeverStarts(kind, g, 1, |g.edges|);
    GcdAtMost(a, n);
    assert |Adjacent(g, Some({kind}), true, 1)| == 0;
  }

  lemma GcdAtMost(a: nat, n: nat)
    requires n > 0
    ensures Gcd(a, n) <= n
  {
    var p, q, x, y := Bezout(a, n);
    assert q > 0;
  }

  /** Every vertex has out-degree deg exactly when the start stride is coprime to the size. */
  lemma DegreesExactlyWhenCoprime(kind: string, n: nat, deg: nat, a: nat, b: nat)
    requires n > 0 && deg > 0
    ensures EveryOutDegree(kind, Fixture(kind, n, a, b, n * deg), deg) <==> Gcd(a, n) == 1
  {
    if Gcd(a, n) == 1 {
      CoprimeDegrees(kind, n, deg, a, b);
    } else {
      CommonFactorDegrees(kind, n, deg, a, b);
    }
  }

  /** Over a coprime stride every chain of h hops has n * deg^h walks. */
  lemma StridedChain(kind: string, n: nat, deg: nat, a: nat, b: nat, hops: nat)
    requires n > 0 && Gcd(a, n) == 1
    ensures |Matches(Fixture(kind, n, a, b, n * deg), Pattern(ANY_NODE, seq(hops, _ => DegreeProducts.Hop(Some({kind})))))|
            == n * DegreeProducts.Pow(deg, hops)
  {
    CoprimeDegrees(kind, n, deg, a, b);
    DegreeProducts.UniformChain(Fixture(kind, n, a, b, n * deg), Some({kind}), deg, hops);
  }

  // ------------------------------------------------------------ the builders --

  const DEG := 5
  const FROM := 7919
  const TO := 104729

  /** The far end of edge k in the in-memory builder. */
  function FreshTo(n: nat, noLoop: bool, k: nat): nat
    requires n > 0
  {
    var from, to := (k * FROM) % n, (k * TO) % n;
    if noLoop && to == from then (to + 1) % n else to
  }

  /** ... and in the NDJSON builder, which leaves out the second reduction. */
  function NativeTo(n: nat, noLoop: bool, k: nat): nat
    requires n > 0
  {
    var from, to := (k * FROM) % n, (k * TO) % n;
    if noLoop && to == from then to + 1 else to
  }

  method Fresh(n: nat, noLoop: bool) returns (g: Graph)
    requires n > 0
    ensures g.Valid() && g.order == n && |g.edges| == n * DEG
    ensures forall k :: 0 <= k < n * DEG ==> g.edges[k] == Edge((k * FROM) % n, FreshTo(n, noLoop, k), {"KNOWS"})
    ensures !noLoop ==> g == Fixture("KNOWS", n, FROM, TO, n * DEG)
    ensures noLoop && n >= 2 ==> forall k :: 0 <= k < |g.edges| ==> !g.edges[k].IsLoop()
  {
    var edges: seq<Edge> := [];
    for k := 0 to n * DEG
      invariant |edges| == k
      invariant forall i :: 0 <= i < k ==> edges[i] == Edge((i * FROM) % n, FreshTo(n, noLoop, i), {"KNOWS"})
      invariant forall i :: 0 <= i < k ==> edges[i].to < n && (noLoop && n >= 2 ==> !edges[i].IsLoop())
    {
      var from, to := (k * FROM) % n, (k * TO) % n;
      NextVertex(n, to);
      edges := edges + [Edge(from, if noLoop && to == from then (to + 1) % n else to, {"KNOWS"})];
    }
    g := Graph(n, edges);
  }

  lemma NextVertex(n: nat, v: nat)
    requires v < n
    ensures (v + 1) % n == if v == n - 1 then 0 else v + 1
  {
    if v == n - 1 {
      Remainder(n, n, 1, 0);
    } else {
      Remainder(v + 1, n, 0, v + 1);
    }
  }

  /** The two builders make the same edge unless the shift is on and a loop sits on the last vertex,
      where the NDJSON names a vertex that does not exist. */
  lemma EdgesDiffer(n: nat, noLoop: bool, k: nat)
    requires n > 0
    ensures FreshTo(n, noLoop, k) != NativeTo(n, noLoop, k)
            <==> noLoop && (k * FROM) % n == (k * TO) % n == n - 1
    ensures FreshTo(n, noLoop, k) != NativeTo(n, noLoop, k) <==> NativeTo(n, noLoop, k) >= n
  {
    NextVertex(n, (k * TO) % n);
  }

  lemma LoopOnLastDivides(n: nat, k: nat)
    requires n > 0 && (k * FROM) % n == (k * TO) % n == n - 1
    ensures (TO - FROM) % n == 0
  {
    LoopAt("KNOWS", n, FROM, TO, k);
    var d := TO - FROM;
    var t, u := (k * d) / n, (k * FROM) / n;
    assert k * d == n * t && k * FROM == n * u + n - 1;
    assert d == n * (d * (u + 1) - FROM * t) by {
      assert d * (k * FROM) == FROM * (k * d);
      assert d * (n * u + n - 1) == n * (d * (u + 1)) - d;
      assert FROM * (n * t) == n * (FROM * t);
      assert n * (d * (u + 1) - FROM * t) == n * (d * (u + 1)) - n * (FROM * t);
    }
    Multiple(n, d * (u + 1) - FROM * t);
  }

  lemma StrideGcd()
    ensures Gcd(7919, 96810) == 1
  {
    assert Gcd(9, 2) == Gcd(2, 1) == Gcd(1, 0) == 1;
    assert Gcd(200, 191) == Gcd(191, 9) == Gcd(9, 2);
    assert Gcd(1782, 791) == Gcd(791, 200) == Gcd(200, 191);
    assert Gcd(96810, 7919) == Gcd(7919, 1782) == Gcd(1782, 791);
    assert Gcd(7919, 96810) == Gcd(96810, 7919);
  }

  lemma StridesCoprime(n: nat)
    requires n > 0 && 96810 % n == 0
    ensures Gcd(7919, n) == 1
  {
    StrideGcd();
    CoprimeToDivisor(7919, 96810, n);
  }

  /** A number coprime to d is coprime to every divisor of d. */
  lemma CoprimeToDivisor(a: nat, d: nat, n: nat)
    requires n > 0 && d % n == 0 && Gcd(a, d) == 1
    ensures Gcd(a, n) == 1
  {
    var t := d / n;
    assert d == n * t;
    var p, q, _, _ := Bezout(a, n);
    var _, _, x, y := Bezout(a, d);
    CommonDivisorOfCombination(Gcd(a, n), a, d, n, p, q, t, x, y);
  }

  /** A divisor of a and of n, where n divides d, divides any combination of a and d: here, 1. */
  lemma CommonDivisorOfCombination(g: nat, a: int, d: int, n: int, p: int, q: int, t: int, x: int, y: int)
    requires g > 0 && a == g * p && n == g * q && d == n * t && a * x + d * y == 1
    ensures g == 1
  {
    var u := p * x + (q * t) * y;
    assert 1 == g * u by {
      assert (g * p) * x == g * (p * x) && (g * q) * t == g * (q * t);
      assert (g * (q * t)) * y == g * ((q * t) * y);
      assert g * u == g * (p * x) + g * ((q * t) * y);
    }
    assert u > 0;
    assert g > 1 && u >= 1 ==> g * u > 1;
  }

  /** The two builders give the same graph exactly when the shift is off or the size does not divide
      the difference of the strides, 96810. */
  lemma BuildersAgree(n: nat, noLoop: bool)
    requires n > 0
    ensures (forall k: nat :: k < n * DEG ==> FreshTo(n, noLoop, k) == NativeTo(n, noLoop, k))
            <==> !noLoop || 96810 % n != 0
  {
    if noLoop && 96810 % n == 0 {
      StridesCoprime(n);
      var r := StartsAt(n, FROM, n - 1);
      Remainder(r, n, 0, r);
      EdgesDiffer(n, noLoop, r);
      DividesByAll(n, r);
      LoopAt("KNOWS", n, FROM, TO, r);
      assert r < n * DEG;
      assert FreshTo(n, noLoop, r) != NativeTo(n, noLoop, r);
    } else {
      forall k: nat | k < n * DEG ensures FreshTo(n, noLoop, k) == NativeTo(n, noLoop, k) {
        EdgesDiffer(n, noLoop, k);
        if FreshTo(n, noLoop, k) != NativeTo(n, noLoop, k) {
          LoopOnLastDivides(n, k);
        }
      }
    }
  }

  /** The NDJSON builder: a graph - every line names vertices that exist - exactly when there is no shift or no loop
      sits on the last vertex; then it is what the in-memory builder makes. */
  method Native(n: nat, noLoop: bool) returns (g: Graph)
    requires n > 0
    ensures g.order == n && |g.edges| == n * DEG
    ensures g.Valid() <==> !noLoop || 96810 % n != 0
    ensures g.Valid() ==> forall k :: 0 <= k < n * DEG ==> g.edges[k] == Edge((k * FROM) % n, FreshTo(n, noLoop, k), {"KNOWS"})
    ensures !noLoop ==> g == Fixture("KNOWS", n, FROM, TO, n * DEG)
  {
    var lines: seq<Edge> := [];
    for k := 0 to n * DEG
      invariant |lines| == k
      invariant forall i :: 0 <= i < k ==> lines[i] == Edge((i * FROM) % n, NativeTo(n, noLoop, i), {"KNOWS"})
    {
      var from, to := (k * FROM) % n, (k * TO) % n;
      lines := lines + [Edge(from, if noLoop && to == from then to + 1 else to, {"KNOWS"})];
    }
    g := Graph(n, lines);
    NativeIsValid(n, noLoop, g);
  }

  lemma NativeIsValid(n: nat, noLoop: bool, g: Graph)
    requires n > 0 && g.order == n && |g.edges| == n * DEG
    requires forall k :: 0 <= k < n * DEG ==> g.edges[k] == Edge((k * FROM) % n, NativeTo(n, noLoop, k), {"KNOWS"})
    ensures g.Valid() <==> !noLoop || 96810 % n != 0
    ensures g.Valid() ==> forall k :: 0 <= k < n * DEG ==> g.edges[k] == Edge((k * FROM) % n, FreshTo(n, noLoop, k), {"KNOWS"})
  {
    BuildersAgree(n, noLoop);
    forall k: nat | k < n * DEG
      ensures FreshTo(n, noLoop, k) == NativeTo(n, noLoop, k) <==> g.edges[k].from < n && g.edges[k].to < n
    {
      EdgesDiffer(n, noLoop, k);
    }
  }

  lemma DividesByAll(n: nat, k: nat)
    requires n > 0 && 96810 % n == 0
    ensures (k * 96810) % n == 0
  {
    var t := 96810 / n;
    assert k * 96810 == n * (k * t) by {
      assert 96810 == n * t;
    }
    Multiple(n, k * t);
  }

  /** The fixture at 200,000 vertices has the 50 self-loops its comment reports. */
  lemma DefaultFixtureLoops()
    ensures LoopsOfType(Fixture("KNOWS", 200000, FROM, TO, 200000 * DEG), "KNOWS", 200000 * DEG) == 50
  {
    SelfLoops("KNOWS", 200000, DEG, FROM, TO);
    assert Gcd(96810, 200000) == Gcd(200000, 96810) == Gcd(96810, 6380) == Gcd(6380, 1110) == Gcd(1110, 830)
           == Gcd(830, 280) == Gcd(280, 270) == Gcd(270, 10) == Gcd(10, 0) == 10;
  }
}
