/** The greatest common divisor, and the combination of two numbers that makes it. */
module Divisors {
  function Gcd(a: nat, b: nat): (g: nat)
    ensures a > 0 || b > 0 ==> g > 0
    decreases b
  {
    if b == 0 then a else Gcd(b, a % b)
  }

  /** The gcd divides both numbers and is a combination of them. */
  lemma {:induction false} Bezout(a: nat, b: nat) returns (p: nat, q: nat, x: int, y: int)
    ensures a == Gcd(a, b) * p && b == Gcd(a, b) * q
    ensures a * x + b * y == Gcd(a, b)
    decreases b
  {
    if b == 0 {
      p, q, x, y := 1, 0, 1, 0;
    } else {
      var g := Gcd(a, b);
      assert g == Gcd(b, a % b);
      var q0, r0, y0, x0 := Bezout(b, a % b);
      p, q, x, y := EuclidStep(g, a, b, a / b, a % b, q0, r0, x0, y0);
    }
  }

  lemma EuclidStep(g: nat, a: nat, b: nat, d: nat, r: nat, q0: nat, r0: nat, x0: int, y0: int)
      returns (p: nat, q: nat, x: int, y: int)
    requires a == b * d + r && b == g * q0 && r == g * r0 && b * y0 + r * x0 == g
    ensures a == g * p && b == g * q && a * x + b * y == g
  {
    p, q, x, y := q0 * d + r0, q0, x0, y0 - d * x0;
    assert g * (q0 * d + r0) == (g * q0) * d + g * r0;
    assert (b * d + r) * x0 == (b * d) * x0 + r * x0;
    assert b * (y0 - d * x0) == b * y0 - b * (d * x0);
    assert (b * d) * x0 == b * (d * x0);
  }
}
