/** Sums and products of vectors of counters, indexed by vertex. */
module Vectors {

  function Sum(f: seq<nat>): (r: nat) {
    if f == [] then 0 else Sum(f[..|f| - 1]) + f[|f| - 1]
  }

  function Dot(f: seq<nat>, h: seq<nat>): (r: nat)
    requires |f| == |h|
  {
    if f == [] then 0 else Dot(f[..|f| - 1], h[..|f| - 1]) + f[|f| - 1] * h[|f| - 1]
  }

  function Zeros(n: nat): (r: seq<nat>)
    ensures |r| == n && forall i :: 0 <= i < n ==> r[i] == 0
  {
    seq(n, _ => 0)
  }

  function Ones(n: nat): (r: seq<nat>)
    ensures |r| == n && forall i :: 0 <= i < n ==> r[i] == 1
  {
    seq(n, _ => 1)
  }

  lemma {:induction false} DotOnes(f: seq<nat>)
    ensures Dot(f, Ones(|f|)) == Sum(f)
  {
    if f != [] {
      DotOnes(f[..|f| - 1]);
      assert Ones(|f|)[..|f| - 1] == Ones(|f| - 1);
    }
  }

  lemma {:induction false} DotZeros(f: seq<nat>, h: seq<nat>)
    requires |f| == |h| && forall i :: 0 <= i < |f| ==> f[i] == 0
    ensures Dot(f, h) == 0
  {
    if f != [] {
      DotZeros(f[..|f| - 1], h[..|f| - 1]);
    }
  }

  lemma {:induction false} DotCommutes(f: seq<nat>, h: seq<nat>)
    requires |f| == |h|
    ensures Dot(f, h) == Dot(h, f)
  {
    if f != [] {
      DotCommutes(f[..|f| - 1], h[..|f| - 1]);
    }
  }

  /** Adding x to one entry of f adds x * h[i] to the product. */
  lemma {:induction false} DotBump(f: seq<nat>, f': seq<nat>, h: seq<nat>, i: nat, x: nat)
    requires |f| == |f'| == |h| && i < |f|
    requires f'[i] == f[i] + x
    requires forall j :: 0 <= j < |f| && j != i ==> f'[j] == f[j]
    ensures Dot(f', h) == Dot(f, h) + x * h[i]
  {
    var m := |f| - 1;
    if i == m {
      assert f'[..m] == f[..m];
      assert (f[i] + x) * h[i] == f[i] * h[i] + x * h[i];
    } else {
      DotBump(f[..m], f'[..m], h[..m], i, x);
    }
  }
}
