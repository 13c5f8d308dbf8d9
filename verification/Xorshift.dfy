/** The generator behind the fleet: an xorshift on a 32-bit register, whose value divided by
    2^32 - 1 is the draw. */
module Xorshift {

  type Register = bv32

  /** The register with every bit set: the one whose draw is 1. */
  const TOP: Register := 0xffff_ffff

  function Mix13(x: Register): Register {
    x ^ (x << 13)
  }

  function Mix17(x: Register): Register {
    x ^ (x >> 17)
  }

  function Mix5(x: Register): Register {
    x ^ (x << 5)
  }

  function Step(s: Register): Register {
    Mix5(Mix17(Mix13(s)))
  }

  function Undo13(y: Register): Register {
    y ^ (y << 13) ^ (y << 26)
  }

  function Undo5(y: Register): Register {
    y ^ (y << 5) ^ (y << 10) ^ (y << 15) ^ (y << 20) ^ (y << 25) ^ (y << 30)
  }

  function Unstep(s: Register): Register {
    Undo13(Mix17(Undo5(s)))
  }

  lemma Mixes(x: Register)
    ensures Mix13(x) == x ^ (x << 13)
    ensures Mix17(x) == x ^ (x >> 17)
    ensures Mix5(x) == x ^ (x << 5)
  {
    hide *;
    Mixes13(x);
    Mixes17(x);
    Mixes5(x);
  }

  lemma Mixes13(x: Register)
    ensures Mix13(x) == x ^ (x << 13)
  {
  }

  lemma Mixes17(x: Register)
    ensures Mix17(x) == x ^ (x >> 17)
  {
  }

  lemma Mixes5(x: Register)
    ensures Mix5(x) == x ^ (x << 5)
  {
  }

  lemma Undoes(x: Register)
    ensures Undo13(x) == x ^ (x << 13) ^ (x << 26)
    ensures Undo5(x) == x ^ (x << 5) ^ (x << 10) ^ (x << 15) ^ (x << 20) ^ (x << 25) ^ (x << 30)
  {
  }

  lemma Undone13(x: Register)
    ensures Undo13(x ^ (x << 13)) == x && Mix13(x ^ (x << 13) ^ (x << 26)) == x
  {
  }

  /** A shift by more than half the width is undone by itself. */
  lemma Undone17(x: Register)
    ensures Mix17(x ^ (x >> 17)) == x
  {
  }

  lemma Undone5(x: Register)
    ensures Undo5(x ^ (x << 5)) == x
    ensures Mix5(x ^ (x << 5) ^ (x << 10) ^ (x << 15) ^ (x << 20) ^ (x << 25) ^ (x << 30)) == x
  {
  }

  lemma MixesUndone(x: Register)
    ensures Undo13(Mix13(x)) == x && Mix13(Undo13(x)) == x
    ensures Mix17(Mix17(x)) == x
    ensures Undo5(Mix5(x)) == x && Mix5(Undo5(x)) == x
  {
    hide *;
    Mixes(x);
    Undoes(x);
    Undone13(x);
    Undone17(x);
    Undone5(x);
  }

  /** The step is a bijection of the states, with an explicit inverse. */
  lemma StepIsBijection(s: Register)
    ensures Unstep(Step(s)) == s && Step(Unstep(s)) == s
  {
    hide Mix13, Mix17, Mix5, Undo13, Undo5;
    MixesUndone(s);
    MixesUndone(Mix13(s));
    MixesUndone(Mix17(Mix13(s)));
    MixesUndone(Undo5(s));
    MixesUndone(Mix17(Undo5(s)));
  }

  lemma StepIsInjective(s: Register, t: Register)
    requires Step(s) == Step(t)
    ensures s == t
  {
    StepIsBijection(s);
    StepIsBijection(t);
  }

  /** Only zero steps to zero. */
  lemma ZeroIsFixed(s: Register)
    ensures Step(s) == 0 <==> s == 0
  {
    assert Step(0) == 0;
    if Step(s) == 0 {
      StepIsInjective(s, 0);
    }
  }

  function Iterate<T>(f: T -> T, s: T, n: nat): T {
    if n == 0 then s else f(Iterate(f, s, n - 1))
  }

  lemma {:induction false} FixedOnly<T(!new)>(f: T -> T, s: T, z: T, n: nat)
    requires forall x :: f(x) == z <==> x == z
    ensures Iterate(f, s, n) == z <==> s == z
  {
    if n > 0 {
      FixedOnly(f, s, z, n - 1);
    }
  }

  lemma {:induction false} InjectiveRuns<T(!new)>(f: T -> T, s: T, t: T, n: nat)
    requires forall x, y :: f(x) == f(y) ==> x == y
    requires Iterate(f, s, n) == Iterate(f, t, n)
    ensures s == t
  {
    if n > 0 {
      InjectiveRuns(f, s, t, n - 1);
    }
  }

  /** Going back n steps and m of them forth again. */
  lemma {:induction false} Rewinds<T(!new)>(f: T -> T, back: T -> T, s: T, n: nat, m: nat)
    requires m <= n && forall x :: f(back(x)) == x
    ensures Iterate(f, Iterate(back, s, n), m) == Iterate(back, s, n - m)
  {
    if m > 0 {
      Rewinds(f, back, s, n, m - 1);
    }
  }

  /** The state after n draws. */
  function After(s: Register, n: nat): Register {
    Iterate(Step, s, n)
  }

  lemma AfterStep(s: Register, n: nat)
    ensures After(s, n + 1) == Step(After(s, n))
  {
  }

  /** Every state of a run is zero, or none is. */
  lemma RunStaysNonZero(s: Register, n: nat)
    ensures After(s, n) == 0 <==> s == 0
  {
    forall x: Register ensures Step(x) == 0 <==> x == 0 {
      ZeroIsFixed(x);
    }
    FixedOnly(Step, s, 0, n);
  }

  /** Two runs that meet after the same number of draws began at the same seed. */
  lemma RunsNeverMerge(s: Register, t: Register, n: nat)
    requires After(s, n) == After(t, n)
    ensures s == t
  {
    forall x: Register, y: Register | Step(x) == Step(y) ensures x == y {
      StepIsInjective(x, y);
    }
    InjectiveRuns(Step, s, t, n);
  }

  /** The state n draws before. */
  function Back(s: Register, n: nat): Register {
    Iterate(Unstep, s, n)
  }

  lemma AfterBack(s: Register, n: nat)
    ensures After(Back(s, n), n) == s
  {
    forall x: Register ensures Step(Unstep(x)) == x {
      StepIsBijection(x);
    }
    Rewinds(Step, Unstep, s, n, n);
  }

  function Unit(s: Register): real {
    s as int as real / 4294967295.0
  }

  lemma Quotient(n: int)
    ensures n as real / 4294967295.0 == 1.0 <==> n == 4294967295
    ensures n as real / 4294967295.0 == 0.0 <==> n == 0
    ensures 0 <= n <= 4294967295 ==> 0.0 <= n as real / 4294967295.0 <= 1.0
  {
  }

  lemma EndsAsInt(s: Register)
    ensures s as int == 4294967295 <==> s == TOP
    ensures s as int == 0 <==> s == 0
  {
  }

  /** A draw lies in the closed interval from 0 to 1; it is 1 for one state only. */
  lemma UnitRange(s: Register)
    ensures 0.0 <= Unit(s) <= 1.0
    ensures Unit(s) == 1.0 <==> s == TOP
    ensures Unit(s) == 0.0 <==> s == 0
  {
    Quotient(s as int);
    EndsAsInt(s);
  }
}
