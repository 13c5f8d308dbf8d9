/** What a percentile is, told from ranks alone: for every column and fraction, the answer of the sorting fold, and so
    of the selecting one. */
module PercentileMeaning {
  import opened Options
  import opened OrderStatistics
  import opened Percentile

  // ------------------------------------------------------------- the numbers kept --

  function FiniteBefore(cells: seq<Cell>, i: nat): nat
    requires i <= |cells|
  {
    if i == 0 then 0 else FiniteBefore(cells, i - 1) + if cells[i - 1].Finite? then 1 else 0
  }

  lemma OneMoreCell(s: seq<Cell>, c: Cell)
    ensures FiniteOnly(s + [c]) == FiniteOnly(s) + if c.Finite? then [c.num] else []
  {
    FiniteOnlyConcat(s, [c]);
    assert [c][1..] == [];
  }

  lemma {:induction false} FiniteOnlyPrefix(cells: seq<Cell>, i: nat)
    requires i <= |cells|
    ensures |FiniteOnly(cells[..i])| == FiniteBefore(cells, i) <= |FiniteOnly(cells)|
    ensures FiniteOnly(cells)[..FiniteBefore(cells, i)] == FiniteOnly(cells[..i])
  {
    assert cells == cells[..i] + cells[i..];
    FiniteOnlyConcat(cells[..i], cells[i..]);
    if i > 0 {
      FiniteOnlyPrefix(cells, i - 1);
      assert cells[..i] == cells[..i - 1] + [cells[i - 1]];
      OneMoreCell(cells[..i - 1], cells[i - 1]);
    }
  }

  /** The numbers a column is reduced to: every finite cell, at the place that the finite cells before it leave. */
  lemma KeptInOrder(cells: seq<Cell>, i: nat)
    requires i < |cells|
    ensures |FiniteOnly(cells)| == FiniteBefore(cells, |cells|)
    ensures cells[i].Finite? ==>
              FiniteBefore(cells, i) < |FiniteOnly(cells)| && FiniteOnly(cells)[FiniteBefore(cells, i)] == cells[i].num
  {
    hide FiniteOnly;
    FiniteOnlyPrefix(cells, |cells|);
    assert cells[..|cells|] == cells;
    FiniteOnlyPrefix(cells, i);
    FiniteOnlyPrefix(cells, i + 1);
    assert cells[..i + 1] == cells[..i] + [cells[i]];
    OneMoreCell(cells[..i], cells[i]);
  }

  // ------------------------------------------------------------------ the answers --

  lemma NullExactlyWhenEmpty(cells: seq<Cell>, frac: real, cont: bool)
    requires 0.0 <= frac <= 1.0
    ensures ArmA(cells, frac, cont).None? <==> FiniteOnly(cells) == []
  {
  }

  lemma RankedCell(nums: seq<Num>, k: nat, x: real)
    requires k < |nums| && IsOrderStatistic(Vals(nums), k, x)
    ensures x == StableSort(nums)[k].Val()
  {
    RankInSorted(nums, nums, k, x);
  }

  /** Where a fraction falls among the ranks 0 to n - 1. */
  function Place(frac: real, n: nat): real
    requires n > 0
  {
    frac * (n - 1) as real
  }

  /** The point that lies between x and y as t lies between 0 and 1. */
  function Between(x: real, y: real, t: real): real {
    (1.0 - t) * x + t * y
  }

  lemma PlaceIs(frac: real, n: nat)
    requires 0.0 <= frac <= 1.0 && n > 0
    ensures 0.0 <= Place(frac, n) <= (n - 1) as real
    ensures Position(frac, n) == (Place(frac, n), Place(frac, n).Floor, Ceil(Place(frac, n)))
  {
    ScaledBounds(frac, (n - 1) as real);
  }

  lemma FloorAndCeil(rn: real, k: nat)
    requires k as real <= rn <= (k + 1) as real
    ensures rn.Floor == if rn < (k + 1) as real then k else k + 1
    ensures Ceil(rn) == if rn == k as real then k else k + 1
  {
  }

  lemma BetweenIs(x: real, y: real, t: real)
    ensures Interpolate(x, y, t) == Fin(Between(x, y, t))
    ensures Between(x, y, 0.0) == x && Between(x, y, 1.0) == y
  {
  }

  lemma Blends(x: real, y: real, t: real)
    ensures x + t * (y - x) == Between(x, y, t)
  {
  }

  /** The reading of an ordered list between two neighbouring cells. */
  lemma AtIs(sorted: seq<Num>, at: (real, nat, nat), k: nat)
    requires k + 1 < |sorted| && k as real <= at.0 <= (k + 1) as real
    requires at.1 == (if at.0 < (k + 1) as real then k else k + 1) && at.2 == (if at.0 == k as real then k else k + 1)
    ensures At(sorted, at).Val() == Between(sorted[k].Val(), sorted[k + 1].Val(), at.0 - k as real)
  {
    var x, y := sorted[k].Val(), sorted[k + 1].Val();
    BetweenIs(x, y, at.0 - k as real);
    hide Between, Interpolate;
  }

  lemma ReadsAt(cells: seq<Cell>, frac: real)
    requires 0.0 <= frac <= 1.0 && FiniteOnly(cells) != []
    ensures var nums := FiniteOnly(cells);
            ArmA(cells, frac, true) == Some(At(StableSort(nums), Position(frac, |nums|)))
  {
    hide Position, At, StableSort, FiniteOnly;
  }

  lemma BetweenCells(cells: seq<Cell>, frac: real, k: nat)
    requires var nums := FiniteOnly(cells);
             && 0.0 <= frac <= 1.0 && k + 1 < |nums| && k as real <= Place(frac, |nums|) <= (k + 1) as real
    ensures var nums := FiniteOnly(cells);
            && ArmA(cells, frac, true).Some?
            && ArmA(cells, frac, true).value.Val()
               == Between(StableSort(nums)[k].Val(), StableSort(nums)[k + 1].Val(), Place(frac, |nums|) - k as real)
  {
    hide Position, Place, At, StableSort, FiniteOnly, ArmA, Between, Ceil;
    var nums := FiniteOnly(cells);
    ReadsAt(cells, frac);
    PlaceIs(frac, |nums|);
    FloorAndCeil(Place(frac, |nums|), k);
    AtIs(StableSort(nums), Position(frac, |nums|), k);
  }

  /** An interpolated percentile between two ranks lies between their values as the fraction lies between the ranks:
      at either end it is the value of that rank, and halfway the mean. */
  lemma BetweenRanks(cells: seq<Cell>, frac: real, k: nat, x: real, y: real)
    requires var nums := FiniteOnly(cells);
             && 0.0 <= frac <= 1.0 && k + 1 < |nums| && k as real <= Place(frac, |nums|) <= (k + 1) as real
             && IsOrderStatistic(Vals(nums), k, x) && IsOrderStatistic(Vals(nums), k + 1, y)
    ensures ArmA(cells, frac, true).Some?
    ensures ArmA(cells, frac, true).value.Val() == Between(x, y, Place(frac, |FiniteOnly(cells)|) - k as real)
  {
    hide Place, StableSort, FiniteOnly, ArmA, Between, IsOrderStatistic;
    var nums := FiniteOnly(cells);
    RankedCell(nums, k, x);
    RankedCell(nums, k + 1, y);
    BetweenCells(cells, frac, k);
  }

  /** A single number is every percentile. */
  lemma OfOne(cells: seq<Cell>, frac: real)
    requires 0.0 <= frac <= 1.0 && |FiniteOnly(cells)| == 1
    ensures ArmA(cells, frac, true) == Some(FiniteOnly(cells)[0])
  {
    var nums := FiniteOnly(cells);
    assert StableSort(nums[1..]) == [];
    assert StableSort(nums) == nums;
    ReadsAt(cells, frac);
    PlaceIs(frac, 1);
    assert Place(frac, 1) == 0.0;
    hide FiniteOnly, ArmA, StableSort, Position;
    FloorAndCeil(0.0, 0);
  }

  // ------------------------------------------------------------------- it never falls --

  /** The ranks that a fraction lies between. */
  lemma SomeSegment(frac: real, n: nat) returns (k: nat)
    requires 0.0 <= frac <= 1.0 && n > 1
    ensures k + 1 < n && k as real <= Place(frac, n) <= (k + 1) as real
  {
    PlaceIs(frac, n);
    hide Place, Position;
    k := if Place(frac, n).Floor == n - 1 then n - 2 else Place(frac, n).Floor;
  }

  lemma SortedRanks(nums: seq<Num>, i: nat, j: nat)
    requires i <= j < |nums|
    ensures StableSort(nums)[i].Val() <= StableSort(nums)[j].Val()
  {
    StableSortIsStable(nums, 0.0);
    assert i < j ==> Vals(StableSort(nums))[i] <= Vals(StableSort(nums))[j];
  }

  lemma ProductSign(x: real, y: real)
    requires x >= 0.0 && y >= 0.0
    ensures x * y >= 0.0
  {
  }

  lemma BetweenBounds(x: real, y: real, t: real)
    requires x <= y && 0.0 <= t <= 1.0
    ensures x <= Between(x, y, t) <= y
  {
    ProductSign(t, y - x);
    ProductSign(1.0 - t, y - x);
    Blends(x, y, t);
    assert (1.0 - t) * (y - x) == (y - x) - t * (y - x);
  }

  lemma BetweenGrows(x: real, y: real, t: real, u: real)
    requires x <= y && t <= u
    ensures Between(x, y, t) <= Between(x, y, u)
  {
    ProductSign(u - t, y - x);
    Blends(x, y, t);
    Blends(x, y, u);
    assert (u - t) * (y - x) == u * (y - x) - t * (y - x);
  }

  lemma PlaceGrows(f: real, g: real, n: nat)
    requires f <= g && n > 0
    ensures Place(f, n) <= Place(g, n)
  {
    ProductSign(g - f, (n - 1) as real);
    assert (g - f) * (n - 1) as real == g * (n - 1) as real - f * (n - 1) as real;
  }

  /** Two segments that meet or lie apart. */
  lemma BetweenApart(a: real, b: real, c: real, d: real, t: real, u: real)
    requires a <= b <= c <= d && 0.0 <= t <= 1.0 && 0.0 <= u <= 1.0
    ensures Between(a, b, t) <= Between(c, d, u)
  {
    hide Between;
    BetweenBounds(a, b, t);
    BetweenBounds(c, d, u);
  }

  lemma WhereTheyMeet(p: real, q: real, i: nat, j: nat)
    requires p <= q && j < i
    requires i as real <= p <= (i + 1) as real && j as real <= q <= (j + 1) as real
    ensures p - i as real == 0.0 && q - j as real == 1.0 && i == j + 1
  {
  }

  lemma SegmentsOrdered(nums: seq<Num>, p: real, q: real, i: nat, j: nat)
    requires i + 1 < |nums| && j + 1 < |nums| && p <= q
    requires i as real <= p <= (i + 1) as real && j as real <= q <= (j + 1) as real
    ensures var s := StableSort(nums);
            Between(s[i].Val(), s[i + 1].Val(), p - i as real) <= Between(s[j].Val(), s[j + 1].Val(), q - j as real)
  {
    hide StableSort, Between;
    var s := StableSort(nums);
    var t, u := p - i as real, q - j as real;
    SortedRanks(nums, i, i + 1);
    SortedRanks(nums, j, j + 1);
    if i == j {
      BetweenGrows(s[i].Val(), s[i + 1].Val(), t, u);
    } else if i < j {
      SortedRanks(nums, i + 1, j);
      BetweenApart(s[i].Val(), s[i + 1].Val(), s[j].Val(), s[j + 1].Val(), t, u);
    } else {
      WhereTheyMeet(p, q, i, j);
      BetweenIs(s[i].Val(), s[i + 1].Val(), 0.0);
      BetweenIs(s[j].Val(), s[j + 1].Val(), 0.0);
    }
  }

  /** As the fraction grows the interpolated percentile never falls. */
  lemma NeverFalls(cells: seq<Cell>, f: real, g: real)
    requires 0.0 <= f <= g <= 1.0 && FiniteOnly(cells) != []
    ensures ArmA(cells, f, true).Some? && ArmA(cells, g, true).Some?
    ensures ArmA(cells, f, true).value.Val() <= ArmA(cells, g, true).value.Val()
  {
    hide StableSort, FiniteOnly, ArmA, Between, Place;
    var n := |FiniteOnly(cells)|;
    if n == 1 {
      OfOne(cells, f);
      OfOne(cells, g);
    } else {
      var i := SomeSegment(f, n);
      var j := SomeSegment(g, n);
      BetweenCells(cells, f, i);
      BetweenCells(cells, g, j);
      PlaceGrows(f, g, n);
      SegmentsOrdered(FiniteOnly(cells), Place(f, n), Place(g, n), i, j);
    }
  }

  // -------------------------------------------------------------------- discrete --

  lemma DiscretePlace(frac: real, n: nat, k: nat)
    requires 0.0 <= frac <= 1.0 && k < n
    requires frac * n as real <= (k + 1) as real && (k > 0 ==> k as real < frac * n as real)
    ensures DiscreteRank(frac, n) == k
  {
    DiscreteRankIsLeast(frac, n, k);
    if k > 0 {
      DiscreteRankIsLeast(frac, n, k - 1);
    }
    hide DiscreteRank;
  }

  /** A discrete percentile is the value of the least rank whose share of the data reaches the fraction. */
  lemma DiscreteIsLeastRank(cells: seq<Cell>, frac: real, k: nat, x: real)
    requires var nums := FiniteOnly(cells);
             && 0.0 <= frac <= 1.0 && k < |nums| && IsOrderStatistic(Vals(nums), k, x)
             && frac * |nums| as real <= (k + 1) as real && (k > 0 ==> k as real < frac * |nums| as real)
    ensures ArmA(cells, frac, false).Some? && ArmA(cells, frac, false).value.Val() == x
  {
    hide StableSort, FiniteOnly, IsOrderStatistic, DiscreteRank;
    DiscretePlace(frac, |FiniteOnly(cells)|, k);
    RankedCell(FiniteOnly(cells), k, x);
  }
}
