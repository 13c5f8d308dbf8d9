/** The linear congruential generators of the fixtures: their exact step, their full period, and how
    evenly their low bits are spread. */
module Lcg {
  import opened PowerOfTwo

  const MULTIPLIER := 1103515245
  const INCREMENT := 12345

  // ------------------------------------------------------ 32-bit arithmetic --

  function ToUint32(x: int): nat {
    x % 0x1_0000_0000
  }

  function ToInt32(x: int): int {
    var u := ToUint32(x);
    if u < 0x8000_0000 then u else u - 0x1_0000_0000
  }

  /** Math.imul, ECMA-262 section 21.3.2.19: the product modulo 2^32, read as signed. */
  function Imul(x: int, y: int): int {
    ToInt32(ToUint32(x) * ToUint32(y))
  }

  /** `(Math.imul(s, a) + c) >>> 0` */
  function Step32(s: int): nat {
    ToUint32(Imul(s, MULTIPLIER) + INCREMENT)
  }

  /** `(Math.imul(s, a) + c) & 0x7fffffff`: the low 31 bits. */
  function Step31(s: int): nat {
    ToUint32(Imul(s, MULTIPLIER) + INCREMENT) % 0x8000_0000
  }

  /** Through the signed product and the wrap, the step is plain modular arithmetic. */
  lemma StepIsAffine(s: int)
    ensures Step32(s) == (1103515245 * s + 12345) % 0x1_0000_0000
    ensures Step31(s) == (1103515245 * s + 12345) % 0x8000_0000
  {
    var product := ToUint32(s) * ToUint32(MULTIPLIER);
    assert product == MULTIPLIER * (s - 0x1_0000_0000 * (s / 0x1_0000_0000));
    var x := Imul(s, MULTIPLIER) + INCREMENT;
    var wraps := if product % 0x1_0000_0000 < 0x8000_0000 then 0 else 1;
    var t := -MULTIPLIER * (s / 0x1_0000_0000) - product / 0x1_0000_0000 - wraps;
    assert x == MULTIPLIER * s + INCREMENT + 0x1_0000_0000 * t;
    SameResidue(x, MULTIPLIER * s + INCREMENT, 0x1_0000_0000, t);
    SameResidue(x, MULTIPLIER * s + INCREMENT, 0x8000_0000, 2 * t);
    SameResidue(ToUint32(x), x, 0x8000_0000, -2 * (x / 0x1_0000_0000));
  }

  // ---------------------------------------------------------- the generator --

  /** The closure of working-set-probe: one state, advanced by every call. */
  class Generator {
    var s: int

    constructor (seed: int)
      ensures s == seed
    {
      s := seed;
    }

    method Next() returns (r: nat)
      modifies this
      ensures s == r == State(old(s), 1, 31)
    {
      StepIsAffine(s);
      PowersNeeded();
      s := Step31(s);
      r := s;
    }
  }

  /** The module variable of minmax-coltype-probe, and its bounded draw. */
  class Draws {
    var seed: int

    constructor ()
      ensures seed == 0x2f6e2b1
    {
      seed := 0x2f6e2b1;
    }

    method NextInt(bound: nat) returns (r: nat)
      requires bound > 0
      modifies this
      ensures seed == State(old(seed), 1, 32) && r == seed % bound && r < bound
    {
      StepIsAffine(seed);
      PowersNeeded();
      seed := Step32(seed);
      r := seed % bound;
    }
  }

  lemma PowersNeeded()
    ensures Pow2(31) == 0x8000_0000 && Pow2(32) == 0x1_0000_0000
  {
    assert Pow2(8) == 256;
    Pow2Splits(8, 16);
    Pow2Splits(16, 32);
  }

  /** The state after n draws of the w-bit generator. */
  function State(s: int, n: nat, w: nat): int {
    if n == 0 then s else (MULTIPLIER * State(s, n - 1, w) + INCREMENT) % Pow2(w)
  }

  // ------------------------------------------------------------- the period --

  /** n steps without any reduction are one affine map: x to Factor(n) * x + Offset(n). */
  function Factor(n: nat): int {
    if n == 0 then 1 else MULTIPLIER * Factor(n - 1)
  }

  function Offset(n: nat): int {
    if n == 0 then 0 else MULTIPLIER * Offset(n - 1) + INCREMENT
  }

  lemma StepResidue(x: int, y: int, m: int)
    requires m > 0 && x % m == y % m
    ensures (MULTIPLIER * x + INCREMENT) % m == (MULTIPLIER * y + INCREMENT) % m
  {
    var t := Difference(x, y, m);
    SameResidue(MULTIPLIER * x + INCREMENT, MULTIPLIER * y + INCREMENT, m, MULTIPLIER * t);
  }

  lemma ResidueTwice(x: int, m: int)
    requires m > 0
    ensures (x % m) % m == x % m
  {
    Remainder(x % m, m, 0, x % m);
  }

  lemma {:induction false} StateIsAffine(s: int, n: nat, w: nat)
    ensures State(s, n, w) % Pow2(w) == After(s, n) % Pow2(w)
  {
    if n > 0 {
      StateIsAffine(s, n - 1, w);
      StepResidue(State(s, n - 1, w), After(s, n - 1), Pow2(w));
      ResidueTwice(MULTIPLIER * State(s, n - 1, w) + INCREMENT, Pow2(w));
      Associate(MULTIPLIER, Factor(n - 1), s);
    }
  }

  lemma Reorder(c: int, x: int, y: int)
    ensures x * (c * y) == c * (x * y)
  {
  }

  lemma {:induction false} ComposeSteps(m: nat, n: nat)
    ensures Factor(m + n) == Factor(m) * Factor(n)
    ensures Offset(m + n) == Factor(n) * Offset(m) + Offset(n)
  {
    if n > 0 {
      ComposeSteps(m, n - 1);
      Reorder(MULTIPLIER, Factor(m), Factor(n - 1));
      Associate(MULTIPLIER, Factor(n - 1), Offset(m));
    }
  }

  /** After 2^j steps the factor is 1 modulo 2^(j+2), and the offset is 2^j times an odd number:
      the multiplier is 1 modulo 4 and the increment is odd, and doubling keeps the pattern. */
  lemma {:induction false} Doubling(j: nat) returns (p: int, q: int)
    ensures Factor(Pow2(j)) == 1 + 4 * Pow2(j) * p
    ensures Offset(Pow2(j)) == Pow2(j) * q && q % 2 == 1
  {
    if j == 0 {
      assert Factor(1) == MULTIPLIER * Factor(0) && Offset(1) == MULTIPLIER * Offset(0) + INCREMENT;
      p, q := 275878811, INCREMENT;
    } else {
      var p0, q0 := Doubling(j - 1);
      var m := Pow2(j - 1);
      ComposeSteps(m, m);
      p, q := DoubleOnce(m, p0, q0, Factor(m), Offset(m));
    }
  }

  lemma DoubleOnce(m: nat, p0: int, q0: int, f: int, o: int) returns (p: int, q: int)
    requires f == 1 + 4 * m * p0 && o == m * q0 && q0 % 2 == 1
    ensures f * f == 1 + 4 * (2 * m) * p
    ensures f * o + o == 2 * m * q && q % 2 == 1
  {
    var x := m * p0;
    p := p0 + 2 * (x * p0);
    q := q0 + 2 * (x * q0);
    SquareOfFactor(m, p0, x);
    OffsetOfDouble(m, q0, x);
  }

  lemma SquareOfFactor(m: int, p0: int, x: int)
    requires x == m * p0
    ensures (1 + 4 * m * p0) * (1 + 4 * m * p0) == 1 + 4 * (2 * m) * (p0 + 2 * (x * p0))
  {
    assert 4 * m * p0 == 4 * x;
    assert (1 + 4 * x) * (1 + 4 * x) == 1 + 8 * x + 16 * (x * x);
    assert m * (x * p0) == x * (m * p0);
    Spread(8 * m, p0, 2 * (x * p0));
    assert 8 * m * p0 == 8 * x && 8 * m * (2 * (x * p0)) == 16 * (m * (x * p0));
  }

  lemma OffsetOfDouble(m: int, q0: int, x: int)
    ensures (1 + 4 * x) * (m * q0) + m * q0 == 2 * m * (q0 + 2 * (x * q0))
  {
    assert x * (m * q0) == m * (x * q0);
    Spread(2 * m, q0, 2 * (x * q0));
    assert 2 * m * q0 == 2 * (m * q0) && 2 * m * (2 * (x * q0)) == 4 * (m * (x * q0));
  }

  lemma Spread(x: int, y: int, z: int)
    ensures x * (y + z) == x * y + x * z
  {
  }

  /** The state n steps after s, as one affine map. */
  function After(s: int, n: nat): int {
    Factor(n) * s + Offset(n)
  }

  lemma AfterMore(s: int, m: nat, n: nat)
    ensures After(s, m + n) == Factor(n) * After(s, m) + Offset(n)
  {
    ComposeSteps(m, n);
    var f, g := Factor(m), Factor(n);
    Spread(g, f * s, Offset(m));
    Associate(g, f, s);
    assert f * g == g * f;
  }

  /** r rounds of 2^j steps move a state by r * 2^j, modulo 2^(j+1). */
  lemma {:induction false} Rounds(s: int, j: nat, r: nat) returns (t: int)
    ensures After(s, Pow2(j) * r) == s + Pow2(j) * r + 2 * Pow2(j) * t
  {
    if r == 0 {
      t := 0;
    } else {
      var m := Pow2(j);
      var t0 := Rounds(s, j, r - 1);
      var p, q := Doubling(j);
      Spread(m, r - 1, 1);
      AfterMore(s, m * (r - 1), m);
      var t1 := RoundOnce(m, p, q, After(s, m * (r - 1)));
      t := t0 + t1;
      Spread(2 * m, t0, t1);
    }
  }

  lemma RoundOnce(m: nat, p: int, q: int, x: int) returns (t: int)
    requires q % 2 == 1
    ensures (1 + 4 * m * p) * x + m * q == x + m + 2 * m * t
  {
    var h := q / 2;
    t := 2 * (p * x) + h;
    assert (1 + 4 * m * p) * x == x + 4 * (m * (p * x)) by {
      assert (4 * m * p) * x == 4 * (m * (p * x));
    }
    Spread(m, 2 * h, 1);
    assert m * (2 * h) == 2 * (m * h);
    Spread(2 * m, 2 * (p * x), h);
    assert 2 * m * (2 * (p * x)) == 4 * (m * (p * x)) && 2 * m * h == 2 * (m * h);
  }

  /** FULL PERIOD.  From every seed, the low m bits of the state come back exactly every 2^m draws;
      for m = w that is the whole state. */
  lemma PeriodOfLowBits(s: int, n: nat, m: nat, w: nat)
    requires m <= w
    ensures State(s, n, w) % Pow2(m) == s % Pow2(m) <==> n % Pow2(m) == 0
  {
    StateIsAffine(s, n, w);
    CoarserResidue(State(s, n, w), After(s, n), m, w);
    if n % Pow2(m) == 0 {
      ReturnsInTime(s, n, m);
    } else {
      NoEarlyReturn(s, n, m);
    }
  }

  lemma ReturnsInTime(s: int, n: nat, m: nat)
    requires n % Pow2(m) == 0
    ensures After(s, n) % Pow2(m) == s % Pow2(m)
  {
    var r := n / Pow2(m);
    assert n == Pow2(m) * r;
    var t := Rounds(s, m, r);
    Spread(Pow2(m), r, 2 * t);
    assert Pow2(m) * (2 * t) == 2 * Pow2(m) * t;
    SameResidue(After(s, n), s, Pow2(m), r + 2 * t);
  }

  lemma NoEarlyReturn(s: int, n: nat, m: nat)
    requires n % Pow2(m) != 0
    ensures After(s, n) % Pow2(m) != s % Pow2(m)
  {
    if n == 0 {
      Remainder(0, Pow2(m), 0, 0);
    }
    var j, r := OddPart(n);
    if j >= m {
      Pow2Splits(m, j);
      assert n == Pow2(m) * (Pow2(j - m) * r) by {
        Associate(Pow2(m), Pow2(j - m), r);
      }
      Remainder(n, Pow2(m), Pow2(j - m) * r, 0);
    }
    var y := After(s, n);
    if y % Pow2(m) == s % Pow2(m) {
      CoarserResidue(y, s, j + 1, m);
      var u := Difference(y, s, Pow2(j + 1));
      var t := Rounds(s, j, r);
      OddIsNotEven(Pow2(j), r, t, u);
    }
  }

  lemma OddIsNotEven(m: nat, r: int, t: int, u: int)
    requires m > 0 && r % 2 == 1
    ensures m * r + 2 * m * t != 2 * m * u
  {
    var d := r + 2 * t - 2 * u;
    assert m * d == m * r + 2 * m * t - 2 * m * u by {
      Spread(m, r, 2 * t - 2 * u);
      Spread(m, 2 * t, -2 * u);
      assert m * (2 * t) == 2 * m * t && m * (-2 * u) == -(2 * m * u);
    }
    assert d != 0;
    assert d > 0 ==> m * d > 0;
    assert d < 0 ==> m * d < 0;
  }

  // ------------------------------------------------------------ the low bits --

  lemma {:induction false} StateFrom(s: int, i: nat, d: nat, w: nat)
    ensures State(s, i + d, w) == State(State(s, i, w), d, w)
  {
    if d > 0 {
      StateFrom(s, i, d - 1, w);
    }
  }

  /** Two draws agree on their low m bits exactly when they are a multiple of 2^m apart. */
  lemma LowBitsAgree(s: int, i: nat, k: nat, m: nat, w: nat)
    requires m <= w && i <= k
    ensures State(s, i, w) % Pow2(m) == State(s, k, w) % Pow2(m) <==> (k - i) % Pow2(m) == 0
  {
    StateFrom(s, i, k - i, w);
    PeriodOfLowBits(State(s, i, w), k - i, m, w);
  }

  ghost function ResiduesOf(s: int, from: nat, n: nat, m: nat, w: nat): (r: set<int>) {
    set i | from <= i < from + n :: State(s, i, w) % Pow2(m)
  }

  lemma NewResidue(s: int, from: nat, n: nat, m: nat, w: nat)
    requires m <= w && n < Pow2(m)
    ensures State(s, from + n, w) % Pow2(m) !in ResiduesOf(s, from, n, m, w)
  {
    forall i: nat | from <= i < from + n ensures State(s, i, w) % Pow2(m) != State(s, from + n, w) % Pow2(m) {
      LowBitsAgree(s, i, from + n, m, w);
      Remainder(from + n - i, Pow2(m), 0, from + n - i);
    }
  }

  lemma {:induction false} ResiduesDiffer(s: int, from: nat, n: nat, m: nat, w: nat)
    requires m <= w && n <= Pow2(m)
    ensures |ResiduesOf(s, from, n, m, w)| == n
  {
    if n == 0 {
      assert ResiduesOf(s, from, 0, m, w) == {};
    } else {
      ResiduesDiffer(s, from, n - 1, m, w);
      NewResidue(s, from, n - 1, m, w);
      OneMoreResidue(s, from, n - 1, m, w);
      hide *;
    }
  }

  lemma OneMoreResidue(s: int, from: nat, n: nat, m: nat, w: nat)
    ensures ResiduesOf(s, from, n + 1, m, w) == ResiduesOf(s, from, n, m, w) + {State(s, from + n, w) % Pow2(m)}
  {
  }

  lemma {:induction false} FullSet(s: set<int>, n: nat)
    requires (forall x :: x in s ==> 0 <= x < n) && |s| == n
    ensures forall x :: 0 <= x < n ==> x in s
  {
    if n > 0 {
      if n - 1 !in s {
        Within(s, n - 1);
      }
      FullSet(s - {n - 1}, n - 1);
    }
  }

  lemma {:induction false} Within(s: set<int>, n: nat)
    requires forall x :: x in s ==> 0 <= x < n
    ensures |s| <= n
  {
    if n == 0 {
      assert forall x :: x !in s;
      assert s == {};
    } else {
      Within(s - {n - 1}, n - 1);
    }
  }

  /** Any 2^m draws in a row show every value of the low m bits, each once. */
  lemma EveryResidueOnce(s: int, from: nat, m: nat, w: nat, x: nat)
    requires m <= w && x < Pow2(m)
    ensures exists i: nat :: from <= i < from + Pow2(m) && State(s, i, w) % Pow2(m) == x
    ensures forall i: nat, k: nat :: from <= i < k < from + Pow2(m) ==> State(s, i, w) % Pow2(m) != State(s, k, w) % Pow2(m)
  {
    ResiduesDiffer(s, from, Pow2(m), m, w);
    FullSet(ResiduesOf(s, from, Pow2(m), m, w), Pow2(m));
    assert x in ResiduesOf(s, from, Pow2(m), m, w);
    forall i: nat, k: nat | from <= i < k < from + Pow2(m)
      ensures State(s, i, w) % Pow2(m) != State(s, k, w) % Pow2(m)
    {
      LowBitsAgree(s, i, k, m, w);
      Remainder(k - i, Pow2(m), 0, k - i);
    }
  }

  /** Node i of the column fixture draws once, and derives its dictionary value from the draw. */
  function DrawOf(i: nat): int {
    State(0x2f6e2b1, i + 1, 32) % 1000000
  }

  /** The first node's value, spelled out. */
  lemma FirstDraw()
    ensures DrawOf(0) == 263574
  {
    PowersNeeded();
    hide Pow2;
    var product := MULTIPLIER * 0x2f6e2b1 + INCREMENT;
    assert product == 0x1_0000_0000 * 12778346 + 3256263574;
    assert State(0x2f6e2b1, 0, 32) == 0x2f6e2b1;
    assert State(0x2f6e2b1, 1, 32) == 3256263574;
    assert DrawOf(0) == 3256263574 % 1000000;
  }

  /** Any eight consecutive nodes carry all eight dictionary values, and booleans alternate. */
  lemma DictionaryColumn(i: nat, x: nat)
    requires x < 8
    ensures exists k: nat :: i <= k < i + 8 && DrawOf(k) % 8 == x
    ensures DrawOf(i) % 2 != DrawOf(i + 1) % 2
  {
    assert Pow2(3) == 8 && Pow2(1) == 2;
    EveryResidueOnce(0x2f6e2b1, i + 1, 3, 32, x);
    var k: nat :| i + 1 <= k < i + 1 + 8 && State(0x2f6e2b1, k, 32) % 8 == x;
    BoundKeepsLowBits(State(0x2f6e2b1, k, 32));
    assert DrawOf(k - 1) % 8 == x;
    LowBitsAgree(0x2f6e2b1, i + 1, i + 2, 1, 32);
    BoundKeepsLowBits(State(0x2f6e2b1, i + 1, 32));
    BoundKeepsLowBits(State(0x2f6e2b1, i + 2, 32));
  }

  /** 1000000 is a multiple of 8, so reducing a draw to it keeps the low three bits. */
  lemma BoundKeepsLowBits(x: int)
    ensures (x % 1000000) % 8 == x % 8 && (x % 1000000) % 2 == x % 2
  {
    SameResidue(x % 1000000, x, 8, -125000 * (x / 1000000));
    SameResidue(x % 1000000, x, 2, -500000 * (x / 1000000));
  }
}
