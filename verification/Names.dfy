/** Identifiers: decimal numbers, and a cluster's name before a colon. */
module Names {

  function Digit(d: nat): char
    requires d < 10
  {
    "0123456789"[d]
  }

  function Decimal(n: nat): (r: string)
    ensures |r| > 0
  {
    if n < 10 then [Digit(n)] else Decimal(n / 10) + [Digit(n % 10)]
  }

  /** The number that a string of digits spells, from the character codes. */
  function Spelled(s: string): int {
    if s == [] then 0 else 10 * Spelled(s[..|s| - 1]) + (s[|s| - 1] as int - '0' as int)
  }

  lemma DigitIs(d: nat)
    requires d < 10
    ensures Digit(d) as int == '0' as int + d
  {
  }

  /** A decimal spells its number, in digits only and with none to spare. */
  lemma {:induction false} DecimalSpells(n: nat)
    ensures Spelled(Decimal(n)) == n
    ensures forall c | c in Decimal(n) :: '0' <= c <= '9'
    ensures n > 0 ==> Decimal(n)[0] != '0'
  {
    DigitIs(n % 10);
    if n < 10 {
      assert Decimal(n) == [Digit(n)] && [Digit(n)][..0] == [];
    } else {
      DecimalSpells(n / 10);
      assert Decimal(n)[..|Decimal(n)| - 1] == Decimal(n / 10);
    }
  }

  lemma {:induction false} DecimalInjective(m: nat, n: nat)
    requires Decimal(m) == Decimal(n)
    ensures m == n
  {
    var a, b := Decimal(m), Decimal(n);
    assert a[|a| - 1] == Digit(m % 10) && b[|b| - 1] == Digit(n % 10);
    if m >= 10 && n >= 10 {
      assert a[..|a| - 1] == Decimal(m / 10) && b[..|b| - 1] == Decimal(n / 10);
      DecimalInjective(m / 10, n / 10);
    }
  }

  /** JavaScript's text.startsWith(prefix). */
  predicate StartsWith(text: string, prefix: string) {
    prefix <= text
  }

  function FirstOf(s: string, c: char): nat {
    if s == [] || s[0] == c then 0 else 1 + FirstOf(s[1..], c)
  }

  lemma {:induction false} FirstOfEnds(a: string, c: char, x: string)
    requires c !in a
    ensures FirstOf((a + [c]) + x, c) == |a|
  {
    if a != [] {
      FirstOfEnds(a[1..], c, x);
      assert ((a + [c]) + x)[1..] == (a[1..] + [c]) + x;
    }
  }

  /** A name that lacks the separator can be read off whatever follows the separator. */
  lemma SeparatorEndsName(a: string, b: string, c: char, x: string, y: string)
    requires c !in a && c !in b
    requires (a + [c]) + x == (b + [c]) + y
    ensures a == b && x == y
  {
    var s, t := (a + [c]) + x, (b + [c]) + y;
    FirstOfEnds(a, c, x);
    FirstOfEnds(b, c, y);
    assert a == s[..|a|] && b == t[..|b|];
    assert x == s[|a| + 1..] && y == t[|b| + 1..];
  }

  lemma PrefixNamesCluster(a: string, b: string, rest: string)
    requires ':' !in a && ':' !in b
    ensures StartsWith((b + ":") + rest, a + ":") <==> a == b
  {
    var t := (b + ":") + rest;
    if StartsWith(t, a + ":") {
      var y := t[|a + ":"|..];
      assert t == (a + ":") + y;
      SeparatorEndsName(a, b, ':', y, rest);
    }
    if a == b {
      assert t[..|a + ":"|] == a + ":";
    }
  }
}
