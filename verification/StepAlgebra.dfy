/** The generator's step is linear over the bits, so polynomials in the step act on a register: they add, commute with
    the step, and square term by term. */
module StepAlgebra {
  import opened Xorshift

  // ------------------------------------------------------- registers as vectors --

  datatype Vec = Vec(bits: Register)

  const NIL: Vec := Vec(0)
  const ONES: Vec := Vec(TOP)

  function Xor(x: Register, y: Register): Register {
    x ^ y
  }

  function Sum(a: Vec, b: Vec): Vec {
    Vec(Xor(a.bits, b.bits))
  }

  function Go(a: Vec): Vec {
    Vec(Step(a.bits))
  }

  lemma XorIs(x: Register, y: Register)
    ensures Xor(x, y) == x ^ y
  {
  }

  lemma XorLaws(x: Register, y: Register)
    ensures Xor(x, 0) == x && Xor(0, x) == x && Xor(x, x) == 0
    ensures Xor(x, y) == Xor(y, x)
  {
  }

  lemma SumNil(a: Vec)
    ensures Sum(a, NIL) == a && Sum(NIL, a) == a && Sum(a, a) == NIL
  {
    XorLaws(a.bits, 0);
    hide Xor;
  }

  lemma Regroup(x: Register, y: Register, z: Register, w: Register)
    ensures Xor(x ^ y, z ^ w) == Xor(x ^ z, y ^ w)
  {
  }

  lemma XorSwaps(x: Register, y: Register, z: Register, w: Register)
    ensures Xor(Xor(x, y), Xor(z, w)) == Xor(Xor(x, z), Xor(y, w))
  {
    hide *;
    XorIs(x, y);
    XorIs(z, w);
    XorIs(x, z);
    XorIs(y, w);
    Regroup(x, y, z, w);
  }

  lemma SumSwaps(a: Vec, b: Vec, c: Vec, d: Vec)
    ensures Sum(Sum(a, b), Sum(c, d)) == Sum(Sum(a, c), Sum(b, d))
  {
    XorSwaps(a.bits, b.bits, c.bits, d.bits);
    hide Xor;
  }

  lemma SumCommutes(a: Vec, b: Vec)
    ensures Sum(a, b) == Sum(b, a)
  {
    XorLaws(a.bits, b.bits);
    hide Xor;
  }

  /** What is added twice is gone. */
  lemma SumCancels(a: Vec, b: Vec, d: Vec)
    ensures Sum(Sum(a, b), Sum(b, d)) == Sum(a, d)
  {
    hide *;
    SumSwaps(a, b, d, b);
    SumCommutes(b, d);
    SumNil(b);
    SumNil(Sum(a, d));
  }

  lemma Mix13OfXor(x: Register, y: Register)
    ensures Mix13(x ^ y) == Xor(x ^ (x << 13), y ^ (y << 13))
  {
  }

  lemma Mix13IsLinear(x: Register, y: Register)
    ensures Mix13(Xor(x, y)) == Xor(Mix13(x), Mix13(y))
  {
    hide *;
    XorIs(x, y);
    Mixes13(x);
    Mixes13(y);
    Mix13OfXor(x, y);
  }

  lemma Mix17OfXor(x: Register, y: Register)
    ensures Mix17(x ^ y) == Xor(x ^ (x >> 17), y ^ (y >> 17))
  {
  }

  lemma Mix17IsLinear(x: Register, y: Register)
    ensures Mix17(Xor(x, y)) == Xor(Mix17(x), Mix17(y))
  {
    hide *;
    XorIs(x, y);
    Mixes17(x);
    Mixes17(y);
    Mix17OfXor(x, y);
  }

  lemma Mix5OfXor(x: Register, y: Register)
    ensures Mix5(x ^ y) == Xor(x ^ (x << 5), y ^ (y << 5))
  {
  }

  lemma Mix5IsLinear(x: Register, y: Register)
    ensures Mix5(Xor(x, y)) == Xor(Mix5(x), Mix5(y))
  {
    hide *;
    XorIs(x, y);
    Mixes5(x);
    Mixes5(y);
    Mix5OfXor(x, y);
  }

  /** The step is linear over the bits. */
  lemma GoIsLinear(a: Vec, b: Vec)
    ensures Go(Sum(a, b)) == Sum(Go(a), Go(b))
    ensures Go(NIL) == NIL
  {
    hide Xor, Mix13, Mix17, Mix5;
    ZeroIsFixed(0);
    var x, y := a.bits, b.bits;
    Mix13IsLinear(x, y);
    Mix17IsLinear(Mix13(x), Mix13(y));
    Mix5IsLinear(Mix17(Mix13(x)), Mix17(Mix13(y)));
  }

  // ------------------------------------------------------- polynomials in the step --

  /** A polynomial over the bits: bit i of the word is the coefficient of the i-th power. */
  datatype Poly = Poly(word: bv64)

  const ZERO: Poly := Poly(0)

  predicate Odd(c: Poly) {
    c.word & 1 == 1
  }

  function Half(c: Poly): Poly {
    Poly(c.word >> 1)
  }

  function Add(c: Poly, d: Poly): Poly {
    Poly(c.word ^ d.word)
  }

  function Times(bit: bool, a: Vec): Vec {
    if bit then a else NIL
  }

  lemma HalfIsLess(x: bv64)
    ensures x != 0 ==> x >> 1 < x
  {
  }

  lemma HalfShrinks(c: Poly)
    ensures c != ZERO ==> Half(c).word < c.word
    ensures Half(ZERO) == ZERO && !Odd(ZERO)
  {
    HalfIsLess(c.word);
  }

  lemma HalfAt(x: bv64)
    ensures Half(Poly(x)) == Poly(x >> 1) && Odd(Poly(x)) == (x & 1 == 1)
  {
  }

  lemma HalfOfSum(c: Poly, d: Poly)
    ensures Half(Add(c, d)) == Add(Half(c), Half(d))
    ensures Odd(Add(c, d)) == (Odd(c) != Odd(d))
  {
  }

  /** c(step) applied to a. */
  function Act(c: Poly, a: Vec): Vec
    decreases c.word
  {
    if c == ZERO then NIL
    else
      HalfShrinks(c);
      Sum(Times(Odd(c), a), Go(Act(Half(c), a)))
  }

  lemma ActStep(c: Poly, a: Vec)
    ensures Act(c, a) == Sum(Times(Odd(c), a), Go(Act(Half(c), a)))
  {
    hide Sum, Go, Odd, Half;
    HalfShrinks(c);
    GoIsLinear(NIL, NIL);
    SumNil(NIL);
  }

  lemma TimesLaws(p: bool, q: bool, a: Vec, b: Vec)
    ensures Times(p != q, a) == Sum(Times(p, a), Times(q, a))
    ensures Times(p, Sum(a, b)) == Sum(Times(p, a), Times(p, b))
    ensures Go(Times(p, a)) == Times(p, Go(a))
  {
    hide Sum, Go;
    SumNil(a);
    SumNil(NIL);
    GoIsLinear(NIL, NIL);
  }

  lemma AddStep(c: Poly, d: Poly, a: Vec)
    requires Act(Add(Half(c), Half(d)), a) == Sum(Act(Half(c), a), Act(Half(d), a))
    ensures Act(Add(c, d), a) == Sum(Act(c, a), Act(d, a))
  {
    hide *;
    var x, y := Act(Half(c), a), Act(Half(d), a);
    ActStep(c, a);
    ActStep(d, a);
    ActStep(Add(c, d), a);
    HalfOfSum(c, d);
    TimesLaws(Odd(c), Odd(d), a, a);
    GoIsLinear(x, y);
    SumSwaps(Times(Odd(c), a), Times(Odd(d), a), Go(x), Go(y));
  }

  lemma ActZero(a: Vec)
    ensures Act(ZERO, a) == NIL
  {
  }

  lemma AddZero(d: Poly)
    ensures Add(ZERO, d) == d
  {
  }

  /** Polynomials add as they act. */
  lemma {:induction false} ActOfAdd(c: Poly, d: Poly, a: Vec)
    ensures Act(Add(c, d), a) == Sum(Act(c, a), Act(d, a))
    decreases c.word
  {
    hide *;
    HalfShrinks(c);
    if c == ZERO {
      ActZero(a);
      AddZero(d);
      SumNil(Act(d, a));
    } else {
      ActOfAdd(Half(c), Half(d), a);
      AddStep(c, d, a);
    }
  }

  lemma GoStep(c: Poly, a: Vec)
    requires Act(Half(c), Go(a)) == Go(Act(Half(c), a))
    ensures Act(c, Go(a)) == Go(Act(c, a))
  {
    hide *;
    ActStep(c, a);
    ActStep(c, Go(a));
    GoIsLinear(Times(Odd(c), a), Go(Act(Half(c), a)));
    TimesLaws(Odd(c), Odd(c), a, a);
  }

  /** A polynomial in the step commutes with the step. */
  lemma {:induction false} ActOfGo(c: Poly, a: Vec)
    ensures Act(c, Go(a)) == Go(Act(c, a))
    decreases c.word
  {
    hide *;
    HalfShrinks(c);
    if c == ZERO {
      ActZero(a);
      ActZero(Go(a));
      GoIsLinear(NIL, NIL);
    } else {
      ActOfGo(Half(c), a);
      GoStep(c, a);
    }
  }

  lemma SumStep(c: Poly, a: Vec, b: Vec)
    requires Act(Half(c), Sum(a, b)) == Sum(Act(Half(c), a), Act(Half(c), b))
    ensures Act(c, Sum(a, b)) == Sum(Act(c, a), Act(c, b))
  {
    hide *;
    var x, y := Act(Half(c), a), Act(Half(c), b);
    ActStep(c, a);
    ActStep(c, b);
    ActStep(c, Sum(a, b));
    GoIsLinear(x, y);
    TimesLaws(Odd(c), Odd(c), a, b);
    SumSwaps(Times(Odd(c), a), Times(Odd(c), b), Go(x), Go(y));
  }

  lemma {:induction false} ActOfSum(c: Poly, a: Vec, b: Vec)
    ensures Act(c, Sum(a, b)) == Sum(Act(c, a), Act(c, b))
    decreases c.word
  {
    hide *;
    HalfShrinks(c);
    if c == ZERO {
      ActZero(a);
      ActZero(b);
      ActZero(Sum(a, b));
      SumNil(NIL);
    } else {
      ActOfSum(Half(c), a, b);
      SumStep(c, a, b);
    }
  }

  /** c(step * step) applied to a. */
  function ActSquared(c: Poly, a: Vec): Vec
    decreases c.word
  {
    if c == ZERO then NIL
    else
      HalfShrinks(c);
      Sum(Times(Odd(c), a), Go(Go(ActSquared(Half(c), a))))
  }

  lemma SquaredStep(c: Poly, a: Vec)
    ensures ActSquared(c, a) == Sum(Times(Odd(c), a), Go(Go(ActSquared(Half(c), a))))
    ensures ActSquared(ZERO, a) == NIL
  {
    hide Sum, Go, Odd, Half;
    HalfShrinks(c);
    GoIsLinear(NIL, NIL);
    SumNil(NIL);
  }

  lemma TwiceStep(c: Poly, a: Vec)
    requires Act(Half(c), Act(Half(c), a)) == ActSquared(Half(c), a)
    ensures Act(c, Act(c, a)) == ActSquared(c, a)
  {
    hide Act, ActSquared, Go, Half, Odd, Sum;
    var x, xx := Act(Half(c), a), ActSquared(Half(c), a);
    SquaredStep(c, a);
    ActStep(c, a);
    ActStep(c, Act(c, a));
    ActOfGo(Half(c), x);
    SumNil(Go(x));
    SumNil(Go(Go(xx)));
    if Odd(c) {
      ActOfSum(Half(c), a, Go(x));
      GoIsLinear(x, Go(xx));
      SumCancels(a, Go(x), Go(Go(xx)));
    }
  }

  /** c applied twice: of the products, those of different terms cancel. */
  lemma {:induction false} ActTwice(c: Poly, a: Vec)
    ensures Act(c, Act(c, a)) == ActSquared(c, a)
    decreases c.word
  {
    hide *;
    HalfShrinks(c);
    if c == ZERO {
      ActZero(a);
      ActZero(NIL);
      SquaredStep(c, a);
    } else {
      ActTwice(Half(c), a);
      TwiceStep(c, a);
    }
  }

  /** n steps. */
  function Far(a: Vec, n: nat): Vec {
    Iterate(Go, a, n)
  }

  lemma {:induction false} FarIsAfter(s: Register, n: nat)
    ensures Far(Vec(s), n) == Vec(After(s, n))
  {
    hide Step;
    if n > 0 {
      FarIsAfter(s, n - 1);
    }
  }

  lemma {:induction false} FarThen(a: Vec, m: nat, n: nat)
    ensures Far(a, m + n) == Far(Far(a, m), n)
  {
    hide Go;
    if n > 0 {
      FarThen(a, m, n - 1);
    }
  }

  lemma {:induction false} ActFar(c: Poly, a: Vec, n: nat)
    ensures Act(c, Far(a, n)) == Far(Act(c, a), n)
  {
    hide Go, Act;
    if n > 0 {
      ActFar(c, a, n - 1);
      ActOfGo(c, Far(a, n - 1));
    }
  }

  lemma {:induction false} FarOfSum(a: Vec, b: Vec, n: nat)
    ensures Far(Sum(a, b), n) == Sum(Far(a, n), Far(b, n))
  {
    hide Go, Sum;
    if n > 0 {
      FarOfSum(a, b, n - 1);
      GoIsLinear(Far(a, n - 1), Far(b, n - 1));
    }
  }

  lemma {:induction false} FarNil(n: nat)
    ensures Far(NIL, n) == NIL
  {
    hide Go;
    if n > 0 {
      FarNil(n - 1);
      GoIsLinear(NIL, NIL);
    }
  }
}
