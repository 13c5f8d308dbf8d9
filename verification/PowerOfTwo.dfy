/** Residues, by witness: x and y leave the same remainder exactly when they differ by a multiple. */
module PowerOfTwo {

  function Pow2(m: nat): (r: nat)
    ensures r > 0
  {
    if m == 0 then 1 else 2 * Pow2(m - 1)
  }

  lemma Remainder(x: int, m: int, q: int, r: int)
    requires m > 0 && 0 <= r < m && x == m * q + r
    ensures x % m == r && x / m == q
  {
    var d := x / m - q;
    assert m * d == r - x % m by {
      assert m * (x / m) + x % m == x;
      assert m * d == m * (x / m) - m * q;
    }
    assert d > 0 ==> m * d >= m;
    assert d < 0 ==> m * d <= -m;
  }

  lemma SameResidue(x: int, y: int, m: int, t: int)
    requires m > 0 && x == y + m * t
    ensures x % m == y % m
  {
    assert m * (y / m + t) == m * (y / m) + m * t;
    Remainder(x, m, y / m + t, y % m);
  }

  lemma Difference(x: int, y: int, m: int) returns (t: int)
    requires m > 0 && x % m == y % m
    ensures x == y + m * t
  {
    t := x / m - y / m;
    assert m * t == m * (x / m) - m * (y / m);
  }

  lemma {:induction false} Pow2Splits(j: nat, m: nat)
    requires j <= m
    ensures Pow2(m) == Pow2(j) * Pow2(m - j)
  {
    if j > 0 {
      Pow2Splits(j - 1, m - 1);
      Associate(2, Pow2(j - 1), Pow2(m - j));
    }
  }

  /** A residue modulo 2^m settles the residue modulo any smaller power of two. */
  lemma CoarserResidue(x: int, y: int, j: nat, m: nat)
    requires j <= m && x % Pow2(m) == y % Pow2(m)
    ensures x % Pow2(j) == y % Pow2(j)
  {
    var t := Difference(x, y, Pow2(m));
    Pow2Splits(j, m);
    assert Pow2(m) * t == Pow2(j) * (Pow2(m - j) * t) by {
      Associate(Pow2(j), Pow2(m - j), t);
    }
    SameResidue(x, y, Pow2(j), Pow2(m - j) * t);
  }

  lemma Associate(x: int, y: int, z: int)
    ensures x * y * z == x * (y * z)
  {
  }

  /** Every positive number is a power of two times an odd number. */
  lemma {:induction false} OddPart(n: nat) returns (j: nat, r: nat)
    requires n > 0
    ensures n == Pow2(j) * r && r % 2 == 1
  {
    if n % 2 == 1 {
      j, r := 0, n;
    } else {
      j, r := OddPart(n / 2);
      assert 2 * (Pow2(j) * r) == (2 * Pow2(j)) * r;
      j := j + 1;
    }
  }
}
