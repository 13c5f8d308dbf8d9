/** Order statistics of a list of numbers, told apart from any particular way of sorting them:
    the k-th smallest value is the one with at most k elements strictly below it and more than k
    elements at or below it.  The value is unique, and permuting the list does not move it. */
module OrderStatistics {

  function CountBelow(s: seq<real>, x: real): (r: nat) {
    if s == [] then 0 else (if s[0] < x then 1 else 0) + CountBelow(s[1..], x)
  }

  function CountAtMost(s: seq<real>, x: real): (r: nat) {
    if s == [] then 0 else (if s[0] <= x then 1 else 0) + CountAtMost(s[1..], x)
  }

  ghost predicate IsOrderStatistic(s: seq<real>, k: nat, v: real) {
    CountBelow(s, v) <= k < CountAtMost(s, v)
  }

  lemma {:induction false} CountsOfConcat(s: seq<real>, t: seq<real>, x: real)
    ensures CountBelow(s + t, x) == CountBelow(s, x) + CountBelow(t, x)
    ensures CountAtMost(s + t, x) == CountAtMost(s, x) + CountAtMost(t, x)
  {
    if s == [] {
      assert s + t == t;
    } else {
      assert (s + t)[1..] == s[1..] + t;
      CountsOfConcat(s[1..], t, x);
    }
  }

  lemma {:induction false} CountBounds(s: seq<real>, x: real)
    ensures CountBelow(s, x) <= CountAtMost(s, x) <= |s|
    ensures x in s ==> CountAtMost(s, x) > 0
  {
    if s != [] {
      CountBounds(s[1..], x);
    }
  }

  lemma {:induction false} NoneBelow(s: seq<real>, x: real)
    requires forall y | y in s :: x <= y
    ensures CountBelow(s, x) == 0
  {
    if s != [] {
      assert s[0] in s && forall y | y in s[1..] :: y in s;
      NoneBelow(s[1..], x);
    }
  }

  lemma {:induction false} AllAtMost(s: seq<real>, x: real)
    requires forall y | y in s :: y <= x
    ensures CountAtMost(s, x) == |s|
  {
    if s != [] {
      assert s[0] in s && forall y | y in s[1..] :: y in s;
      AllAtMost(s[1..], x);
    }
  }

  /** Counting strictly below a larger bound counts everything at or below a smaller one. */
  lemma {:induction false} CountsAreMonotone(s: seq<real>, x: real, y: real)
    requires x < y
    ensures CountAtMost(s, x) <= CountBelow(s, y)
  {
    if s != [] {
      CountsAreMonotone(s[1..], x, y);
    }
  }

  /** There is only one k-th smallest value. */
  lemma OrderStatisticIsUnique(s: seq<real>, k: nat, v: real, w: real)
    requires IsOrderStatistic(s, k, v) && IsOrderStatistic(s, k, w)
    ensures v == w
  {
    if v < w {
      CountsAreMonotone(s, v, w);
    } else if w < v {
      CountsAreMonotone(s, w, v);
    }
  }

  lemma CountsWithout(s: seq<real>, i: nat, x: real)
    requires i < |s|
    ensures CountBelow(s, x) == CountBelow(s[..i] + s[i + 1..], x) + if s[i] < x then 1 else 0
    ensures CountAtMost(s, x) == CountAtMost(s[..i] + s[i + 1..], x) + if s[i] <= x then 1 else 0
  {
    assert s == s[..i] + s[i..];
    CountsOfConcat(s[..i], s[i..], x);
    CountsOfConcat(s[..i], s[i + 1..], x);
  }

  lemma MultisetWithout<T>(s: seq<T>, i: nat)
    requires i < |s|
    ensures multiset(s[..i] + s[i + 1..]) == multiset(s) - multiset{s[i]}
  {
    assert s == s[..i] + [s[i]] + s[i + 1..];
  }

  lemma FindFirst<T>(s: seq<T>, t: seq<T>) returns (i: nat)
    requires s != [] && multiset(s) == multiset(t)
    ensures i < |t| && t[i] == s[0]
    ensures multiset(s[1..]) == multiset(t[..i] + t[i + 1..])
  {
    assert t[..] == t && s[0] in multiset(t);
    i :| 0 <= i < |t| && t[i] == s[0];
    assert multiset(s[1..]) == multiset(s) - multiset{s[0]} by {
      MultisetWithout(s, 0);
      assert s[..0] + s[0 + 1..] == s[1..];
    }
    MultisetWithout(t, i);
  }

  /** Both counts, and so every order statistic, are the same for any rearrangement. */
  lemma {:induction false} CountsOfPermutation(s: seq<real>, t: seq<real>, x: real)
    requires multiset(s) == multiset(t)
    ensures CountBelow(s, x) == CountBelow(t, x)
    ensures CountAtMost(s, x) == CountAtMost(t, x)
  {
    if s == [] {
      assert |multiset(t)| == 0;
    } else {
      var i := FindFirst(s, t);
      CountsOfPermutation(s[1..], t[..i] + t[i + 1..], x);
      CountsWithout(t, i, x);
    }
  }

  /** The criterion selection works by: a value that bounds |low| elements from above and all the
      others from below, and is one of the others, is the order statistic of rank |low|. */
  lemma SplitAtRank(low: seq<real>, high: seq<real>, v: real)
    requires forall y | y in low :: y <= v
    requires forall y | y in high :: v <= y
    requires v in high
    ensures IsOrderStatistic(low + high, |low|, v)
  {
    CountsOfConcat(low, high, v);
    CountBounds(low, v);
    CountBounds(high, v);
    AllAtMost(low, v);
    NoneBelow(high, v);
  }

  ghost predicate Ascending(s: seq<real>) {
    forall i, j :: 0 <= i < j < |s| ==> s[i] <= s[j]
  }

  /** In an ascending list the order statistic of rank k is the k-th cell, and nothing else is. */
  lemma AscendingRank(s: seq<real>, k: nat, v: real)
    requires Ascending(s) && k < |s|
    ensures IsOrderStatistic(s, k, v) <==> v == s[k]
  {
    assert s == s[..k] + s[k..];
    assert s[k..][0] == s[k];
    SplitAtRank(s[..k], s[k..], s[k]);
    if IsOrderStatistic(s, k, v) {
      OrderStatisticIsUnique(s, k, v, s[k]);
    }
  }
}
