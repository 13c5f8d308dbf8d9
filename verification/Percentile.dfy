/** The percentile fold: an in-place Hoare quickselect beside the stable sort it replaced. */
module Percentile {
  import opened Options
  import opened OrderStatistics

  /** A finite double.  The two zeros are different values that compare equal; a real has only one,
      so the negative zero is a constructor of its own and Fin(0.0) is the positive one. */
  datatype Num = Fin(x: real) | NegZero {
    function Val(): real {
      if NegZero? then 0.0 else x
    }
  }

  /** What a column may hold: a finite number, or anything Number.isFinite turns away. */
  datatype Cell = Finite(num: Num) | NotFinite

  function Vals(s: seq<Num>): (r: seq<real>)
    ensures |r| == |s| && forall i :: 0 <= i < |s| ==> r[i] == s[i].Val()
  {
    seq(|s|, i requires 0 <= i < |s| => s[i].Val())
  }

  function FiniteOnly(cells: seq<Cell>): (r: seq<Num>)
    ensures |r| <= |cells|
  {
    if cells == [] then []
    else if cells[0].Finite? then [cells[0].num] + FiniteOnly(cells[1..])
    else FiniteOnly(cells[1..])
  }

  lemma {:induction false} FiniteOnlyConcat(s: seq<Cell>, t: seq<Cell>)
    ensures FiniteOnly(s + t) == FiniteOnly(s) + FiniteOnly(t)
  {
    if s == [] {
      assert s + t == t;
    } else {
      assert (s + t)[1..] == s[1..] + t;
      FiniteOnlyConcat(s[1..], t);
    }
  }

  // ------------------------------------------------------------- the sort --

  /** The cells of s that compare equal to v, in order: what a stable sort must not rearrange. */
  function Ties(s: seq<Num>, v: real): seq<Num> {
    if s == [] then []
    else if s[0].Val() == v then [s[0]] + Ties(s[1..], v)
    else Ties(s[1..], v)
  }

  ghost predicate Ordered(s: seq<Num>) {
    Ascending(Vals(s))
  }

  /** Puts x before the first cell that is not smaller: x came first, so it stays first. */
  function Insert(x: Num, s: seq<Num>): (r: seq<Num>)
    ensures |r| == |s| + 1
  {
    if s == [] || x.Val() <= s[0].Val() then [x] + s else [s[0]] + Insert(x, s[1..])
  }

  /** Array.prototype.sort with the comparator (a, b) => a - b, which is stable. */
  function StableSort(s: seq<Num>): (r: seq<Num>)
    ensures |r| == |s|
  {
    if s == [] then [] else Insert(s[0], StableSort(s[1..]))
  }

  lemma OrderedCons(x: Num, s: seq<Num>)
    requires Ordered(s) && forall y | y in s :: x.Val() <= y.Val()
    ensures Ordered([x] + s)
  {
    var t := [x] + s;
    forall i, j | 0 <= i < j < |t| ensures t[i].Val() <= t[j].Val() {
      assert t[j] == s[j - 1] && s[j - 1] in s;
      if i > 0 {
        assert t[i] == s[i - 1] && Vals(s)[i - 1] <= Vals(s)[j - 1];
      }
    }
  }

  lemma OrderedTail(s: seq<Num>)
    requires s != [] && Ordered(s)
    ensures Ordered(s[1..]) && forall y | y in s[1..] :: s[0].Val() <= y.Val()
  {
    forall i, j | 0 <= i < j < |s[1..]| ensures s[1..][i].Val() <= s[1..][j].Val() {
      assert Vals(s)[i + 1] <= Vals(s)[j + 1];
    }
    forall j | 0 <= j < |s[1..]| ensures s[0].Val() <= s[1..][j].Val() {
      assert Vals(s)[0] <= Vals(s)[j + 1];
    }
  }

  lemma {:induction false} InsertPermutes(x: Num, s: seq<Num>)
    ensures multiset(Insert(x, s)) == multiset{x} + multiset(s)
  {
    if s != [] && x.Val() > s[0].Val() {
      InsertPermutes(x, s[1..]);
      assert s == [s[0]] + s[1..];
    }
  }

  lemma {:induction false} InsertOrders(x: Num, s: seq<Num>)
    requires Ordered(s)
    ensures Ordered(Insert(x, s))
  {
    if s == [] {
      OrderedCons(x, s);
    } else {
      OrderedTail(s);
      if x.Val() <= s[0].Val() {
        assert s == [s[0]] + s[1..];
        OrderedCons(x, s);
      } else {
        InsertOrders(x, s[1..]);
        InsertPermutes(x, s[1..]);
        forall y | y in Insert(x, s[1..]) ensures s[0].Val() <= y.Val() {
          assert y in multiset(Insert(x, s[1..]));
        }
        OrderedCons(s[0], Insert(x, s[1..]));
      }
    }
  }

  lemma TiesCons(x: Num, s: seq<Num>, v: real)
    ensures Ties([x] + s, v) == if x.Val() == v then [x] + Ties(s, v) else Ties(s, v)
  {
    assert ([x] + s)[1..] == s;
  }

  lemma {:induction false} InsertKeepsTies(x: Num, s: seq<Num>, v: real)
    requires Ordered(s)
    ensures Ties(Insert(x, s), v) == Ties([x] + s, v)
  {
    if s != [] && x.Val() > s[0].Val() {
      OrderedTail(s);
      InsertKeepsTies(x, s[1..], v);
      TiesCons(s[0], Insert(x, s[1..]), v);
      TiesCons(x, s[1..], v);
      TiesCons(x, s, v);
    }
  }

  /** The sort the fold used to make is an ascending, stable rearrangement. */
  lemma {:induction false} StableSortIsStable(s: seq<Num>, v: real)
    ensures Ordered(StableSort(s))
    ensures multiset(StableSort(s)) == multiset(s)
    ensures Ties(StableSort(s), v) == Ties(s, v)
  {
    if s != [] {
      StableSortIsStable(s[1..], v);
      InsertPermutes(s[0], StableSort(s[1..]));
      InsertOrders(s[0], StableSort(s[1..]));
      InsertKeepsTies(s[0], StableSort(s[1..]), v);
      assert s == [s[0]] + s[1..];
      TiesCons(s[0], StableSort(s[1..]), v);
    }
  }

  // -------------------------------------------------------- the selection --

  /** The middle one of three values. */
  function MedianOfThree(x: real, y: real, z: real): (m: real)
    ensures m == x || m == y || m == z
    ensures (x <= m && y <= m) || (x <= m && z <= m) || (y <= m && z <= m)
    ensures (m <= x && m <= y) || (m <= x && m <= z) || (m <= y && m <= z)
  {
    if x < y then
      if y < z then y else if x < z then z else x
    else if x < z then x
    else if y < z then z
    else y
  }

  /** `w >> 1` for an unsigned w: the operand wraps to a signed 32-bit integer first. */
  function ShiftRightOne(w: nat): int {
    var u := w % 0x1_0000_0000;
    (if u < 0x8000_0000 then u else u - 0x1_0000_0000) / 2
  }

  /** The middle of a window lies in it exactly when the sum of its ends is a signed 32-bit integer; past that it
      is negative, and no cell. A window of at most 0x4000_0001 cells, being wider than one, is always short of it. */
  lemma MiddleExactlyWhen(lo: nat, hi: nat)
    requires lo < hi && lo + hi < 0x1_0000_0000
    ensures lo <= ShiftRightOne(lo + hi) < hi <==> lo + hi < 0x8000_0000
    ensures lo + hi >= 0x8000_0000 ==> ShiftRightOne(lo + hi) < 0
    ensures hi < 0x4000_0001 ==> lo + hi < 0x8000_0000
  {
  }

  /** The median of the window's ends and a cell that may not be there.  A missing cell is undefined: it is neither
      smaller nor larger, and then it is itself the median unless x is below z. */
  function PivotOf(x: real, y: Option<real>, z: real): Option<real> {
    match y
    case Some(v) => Some(MedianOfThree(x, v, z))
    case None => if x < z then Some(x) else None
  }

  function Read(s: seq<Num>, at: int): Option<real> {
    if 0 <= at < |s| then Some(s[at].Val()) else None
  }

  /** The pivot of a window: by the median of three, or its first cell. */
  function Pivot(s: seq<Num>, lo: nat, hi: nat, median: bool): Option<real>
    requires lo <= hi < |s|
  {
    if median then PivotOf(s[lo].Val(), Read(s, ShiftRightOne(lo + hi)), s[hi].Val()) else Some(s[lo].Val())
  }

  /** A pivot, where there is one, is a value of the window; and there is one if the sum of the ends does not wrap. */
  lemma PivotIsInWindow(s: seq<Num>, lo: nat, hi: nat, median: bool) returns (at: nat)
    requires lo < hi < |s| && (median ==> lo + hi < 0x1_0000_0000)
    ensures lo <= at <= hi
    ensures Pivot(s, lo, hi, median).Some? ==> s[at].Val() == Pivot(s, lo, hi, median).value
    ensures (median ==> lo + hi < 0x8000_0000) ==> Pivot(s, lo, hi, median).Some?
  {
    at := lo;
    if median {
      MiddleExactlyWhen(lo, hi);
      var mid, p := ShiftRightOne(lo + hi), Pivot(s, lo, hi, true);
      if p.Some? {
        at := if p.value == s[lo].Val() then lo else if p.value == s[hi].Val() then hi else mid;
      }
    }
  }

  lemma SliceOfPermutation(s: seq<Num>, t: seq<Num>, lo: nat, hi: nat)
    requires |s| == |t| && lo <= hi <= |s|
    requires multiset(s) == multiset(t) && s[..lo] == t[..lo] && s[hi..] == t[hi..]
    ensures multiset(s[lo..hi]) == multiset(t[lo..hi])
  {
    MultisetOfParts(s, lo, hi);
    MultisetOfParts(t, lo, hi);
  }

  lemma MultisetOfParts(s: seq<Num>, lo: nat, hi: nat)
    requires lo <= hi <= |s|
    ensures multiset(s[lo..hi]) == multiset(s) - multiset(s[..lo]) - multiset(s[hi..])
  {
    assert s == s[..lo] + s[lo..hi] + s[hi..];
  }

  /** Exchanges two cells. */
  method Swap(a: array<Num>, i: nat, j: nat)
    requires i < a.Length && j < a.Length
    modifies a
    ensures a[..] == old(a[..][i := a[j]][j := a[i]])
  {
    a[i], a[j] := a[j], a[i];
  }

  predicate Smaller(x: Num, pivot: Option<real>) {
    pivot.Some? && x.Val() < pivot.value
  }

  predicate Larger(x: Num, pivot: Option<real>) {
    pivot.Some? && x.Val() > pivot.value
  }

  /** The first place from i on whose cell is not smaller. */
  function Up(s: seq<Num>, i: nat, pivot: Option<real>): (u: nat)
    requires i <= |s|
    ensures i <= u <= |s| && forall p :: i <= p < u ==> Smaller(s[p], pivot)
    ensures u < |s| ==> !Smaller(s[u], pivot)
    decreases |s| - i
  {
    if i < |s| && Smaller(s[i], pivot) then Up(s, i + 1, pivot) else i
  }

  /** The last place up to j whose cell is not larger. */
  function Down(s: seq<Num>, j: int, pivot: Option<real>): (d: int)
    requires -1 <= j < |s|
    ensures -1 <= d <= j && forall p :: d < p <= j ==> Larger(s[p], pivot)
    ensures d >= 0 ==> !Larger(s[d], pivot)
    decreases j + 1
  {
    if j >= 0 && Larger(s[j], pivot) then Down(s, j - 1, pivot) else j
  }

  /** The cells after a pass, and where its cursors end. */
  datatype Passed = Passed(cells: seq<Num>, i: int, j: int)

  /** One Hoare pass from two cursors. */
  function Pass(s: seq<Num>, i: int, j: int, pivot: Option<real>): (r: Passed)
    requires 0 <= i <= |s| && -1 <= j < |s|
    ensures |r.cells| == |s| && i <= r.i <= |s| && -1 <= r.j <= j
    decreases j - i
  {
    if i > j then Passed(s, i, j)
    else
      var u, d := Up(s, i, pivot), Down(s, j, pivot);
      if u > d then Passed(s, u, d) else Pass(s[u := s[d]][d := s[u]], u + 1, d - 1, pivot)
  }

  /** `while (a[i] < pivot) i += 1`.  The loop tests no bound: a cell past the end is undefined, which is not smaller,
      and any cell that is not smaller stops it. */
  method ScanUp(a: array<Num>, from: nat, pivot: Option<real>) returns (i: nat)
    requires from <= a.Length
    ensures from <= i <= a.Length && i == Up(a[..], from, pivot)
    ensures forall stop | from <= stop < a.Length && !Smaller(a[stop], pivot) :: i <= stop
  {
    i := from;
    while i < a.Length && Smaller(a[i], pivot)
      invariant from <= i <= a.Length && Up(a[..], from, pivot) == Up(a[..], i, pivot)
    {
      i := i + 1;
    }
    assert forall stop | from <= stop < i :: Smaller(a[..][stop], pivot);
  }

  /** `while (a[j] > pivot) j -= 1`, likewise. */
  method ScanDown(a: array<Num>, from: int, pivot: Option<real>) returns (j: int)
    requires -1 <= from < a.Length
    ensures -1 <= j <= from && j == Down(a[..], from, pivot)
    ensures forall stop | 0 <= stop <= from && !Larger(a[stop], pivot) :: stop <= j
  {
    j := from;
    while j >= 0 && Larger(a[j], pivot)
      invariant -1 <= j <= from && Down(a[..], from, pivot) == Down(a[..], j, pivot)
    {
      j := j - 1;
    }
    assert forall stop | j < stop <= from :: Larger(a[..][stop], pivot);
  }

  /** t is s with its window rearranged. */
  ghost predicate Rearranged(s: seq<Num>, t: seq<Num>, lo: nat, hi: nat) {
    |t| == |s| && multiset(t) == multiset(s) && forall p | 0 <= p < |s| && (p < lo || hi < p) :: t[p] == s[p]
  }

  lemma RearrangedThrough(s: seq<Num>, t: seq<Num>, lo: nat, hi: nat, u: nat, d: nat)
    requires lo <= u < |s| && d <= hi && u <= d < |s| && Rearranged(s[u := s[d]][d := s[u]], t, lo, hi)
    ensures Rearranged(s, t, lo, hi)
  {
    SwapPermutes(s, u, d);
  }

  lemma PassStops(s: seq<Num>, i: nat, j: int, pivot: Option<real>)
    requires i <= |s| && -1 <= j < |s| && (i > j || Up(s, i, pivot) > Down(s, j, pivot))
    ensures Pass(s, i, j, pivot).cells == s
  {
    PassStep(s, i, j, pivot);
    hide Pass;
  }

  lemma RearrangedSelf(s: seq<Num>, lo: nat, hi: nat)
    ensures Rearranged(s, s, lo, hi)
  {
  }

  /** Whatever the pivot, a pass rearranges its window only. */
  lemma {:induction false} PassPermutes(s: seq<Num>, lo: nat, hi: nat, i: int, j: int, pivot: Option<real>)
    requires lo <= i <= |s| && -1 <= j <= hi < |s|
    ensures Rearranged(s, Pass(s, i, j, pivot).cells, lo, hi)
    decreases j - i
  {
    hide Pass, Rearranged, Up, Down;
    if i > j || Up(s, i, pivot) > Down(s, j, pivot) {
      PassStops(s, i, j, pivot);
      RearrangedSelf(s, lo, hi);
    } else {
      var u, d := Up(s, i, pivot), Down(s, j, pivot);
      PassStep(s, i, j, pivot);
      PassPermutes(s[u := s[d]][d := s[u]], lo, hi, u + 1, d - 1, pivot);
      RearrangedThrough(s, Pass(s, i, j, pivot).cells, lo, hi, u, d);
    }
  }

  /** A pass that leaves a cursor at its end of the window has changed nothing: the same round comes again, for ever. */
  lemma StuckRepeats(s: seq<Num>, i: nat, j: int, pivot: Option<real>)
    requires i <= j < |s|
    ensures var r := Pass(s, i, j, pivot); r.i == i || r.j == j ==> r.cells == s
  {
    PassStep(s, i, j, pivot);
    hide Pass;
  }

  /** The cursors of a pass over s[lo..hi + 1] stand in its window, with smaller cells behind the one and larger
      cells behind the other; at the start the pivot's own cell is ahead of both. */
  ghost predicate Passing(s: seq<Num>, lo: nat, hi: nat, i: int, j: int, pivot: Option<real>, at: nat) {
    && lo < hi < |s| && lo <= i <= hi + 1 && lo - 1 <= j <= hi
    && (if i == lo then j == hi && lo <= at <= hi && !Smaller(s[at], pivot) && !Larger(s[at], pivot) else j < hi)
    && (forall p :: lo <= p < i ==> !Larger(s[p], pivot))
    && (forall q :: j < q <= hi ==> !Smaller(s[q], pivot))
  }

  lemma SwapPermutes(s: seq<Num>, u: nat, d: nat)
    requires u < |s| && d < |s|
    ensures multiset(s[u := s[d]][d := s[u]]) == multiset(s)
  {
  }

  /** An exchange moves both cursors on. */
  lemma PassingOn(s: seq<Num>, lo: nat, hi: nat, i: int, j: int, pivot: Option<real>, at: nat)
    requires Passing(s, lo, hi, i, j, pivot, at) && i <= j
    ensures var u, d := Up(s, i, pivot), Down(s, j, pivot);
            && lo <= u <= (if i == lo then at else j + 1) && hi >= d >= (if i == lo then at else lo)
            && !Smaller(s[if i == lo then at else j + 1], pivot) && !Larger(s[if i == lo then at else lo], pivot)
            && (pivot.None? ==> u == i && d == j)
            && (u <= d ==> Passing(s[u := s[d]][d := s[u]], lo, hi, u + 1, d - 1, pivot, at))
  {
    var u, d := Up(s, i, pivot), Down(s, j, pivot);
    var above, below := if i == lo then at else j + 1, if i == lo then at else lo;
    assert !Smaller(s[above], pivot) && !Larger(s[below], pivot);
    if u <= d {
      var t := s[u := s[d]][d := s[u]];
      assert t[u] == s[d] && t[d] == s[u];
      forall p | lo <= p < u + 1 ensures !Larger(t[p], pivot) {
        assert p < u ==> t[p] == s[p];
      }
      forall q | d - 1 < q <= hi ensures !Smaller(t[q], pivot) {
        assert q > d ==> t[q] == s[q];
      }
    }
  }

  /** A pass has rearranged the window of s, moved both cursors, and left no larger cell before the one and no
      smaller cell after the other - which without a pivot says nothing. */
  ghost predicate Split(s: seq<Num>, r: Passed, lo: nat, hi: nat, pivot: Option<real>) {
    && lo - 1 <= r.j < hi < |s| == |r.cells| && lo < r.i <= hi + 1 && r.j < r.i
    && (forall p :: lo <= p < r.i ==> !Larger(r.cells[p], pivot))
    && (forall q :: r.j < q <= hi ==> !Smaller(r.cells[q], pivot))
    && (forall p :: 0 <= p < lo || hi < p < |s| ==> r.cells[p] == s[p])
    && multiset(r.cells) == multiset(s)
  }

  lemma PassStep(s: seq<Num>, i: nat, j: int, pivot: Option<real>)
    requires i <= |s| && -1 <= j < |s|
    ensures var u, d := Up(s, i, pivot), Down(s, j, pivot);
            Pass(s, i, j, pivot)
            == if i > j then Passed(s, i, j)
               else if u > d then Passed(s, u, d)
               else Pass(s[u := s[d]][d := s[u]], u + 1, d - 1, pivot)
  {
  }

  /** Cursors that have crossed end the pass. */
  lemma PassingEnds(s: seq<Num>, lo: nat, hi: nat, i: int, j: int, pivot: Option<real>, at: nat)
    requires Passing(s, lo, hi, i, j, pivot, at) && (pivot.None? ==> i - lo == hi - j)
    requires i > j || Up(s, i, pivot) > Down(s, j, pivot)
    ensures Split(s, Pass(s, i, j, pivot), lo, hi, pivot)
  {
    PassStep(s, i, j, pivot);
    hide Pass;
    if i <= j {
      PassingOn(s, lo, hi, i, j, pivot, at);
    }
  }

  /** A pass splits its window. */
  lemma {:induction false} PassSplits(s: seq<Num>, lo: nat, hi: nat, i: int, j: int, pivot: Option<real>, at: nat)
    requires Passing(s, lo, hi, i, j, pivot, at) && (pivot.None? ==> i - lo == hi - j)
    ensures Split(s, Pass(s, i, j, pivot), lo, hi, pivot)
    decreases j - i
  {
    hide Pass, Split, Up, Down;
    if i > j || Up(s, i, pivot) > Down(s, j, pivot) {
      PassingEnds(s, lo, hi, i, j, pivot, at);
    } else {
      var u, d := Up(s, i, pivot), Down(s, j, pivot);
      PassStep(s, i, j, pivot);
      PassingOn(s, lo, hi, i, j, pivot, at);
      PassSplits(s[u := s[d]][d := s[u]], lo, hi, u + 1, d - 1, pivot, at);
      SplitThrough(s, Pass(s, i, j, pivot), lo, hi, u, d, pivot);
    }
  }

  lemma SplitThrough(s: seq<Num>, r: Passed, lo: nat, hi: nat, u: nat, d: nat, pivot: Option<real>)
    requires lo <= u <= d <= hi < |s| && Split(s[u := s[d]][d := s[u]], r, lo, hi, pivot)
    ensures Split(s, r, lo, hi, pivot)
  {
    SwapPermutes(s, u, d);
  }

  /** One Hoare pass over a[lo..hi + 1]. */
  method HoarePass(a: array<Num>, lo: nat, hi: nat, pivot: Option<real>) returns (i: int, j: int)
    requires lo < hi < a.Length
    modifies a
    ensures Passed(a[..], i, j) == Pass(old(a[..]), lo, hi, pivot)
    ensures forall at | Passing(old(a[..]), lo, hi, lo, hi, pivot, at) :: Split(old(a[..]), Passed(a[..], i, j), lo, hi, pivot)
  {
    ghost var s := a[..];
    forall at | Passing(s, lo, hi, lo, hi, pivot, at) ensures Split(s, Pass(s, lo, hi, pivot), lo, hi, pivot) {
      PassSplits(s, lo, hi, lo, hi, pivot, at);
    }
    hide Split, Passing, Up, Down, Pass;
    i, j := lo, hi;
    while i <= j
      invariant 0 <= i <= a.Length && -1 <= j < a.Length
      invariant Pass(a[..], i, j, pivot) == Pass(s, lo, hi, pivot)
      decreases j - i
    {
      i, j := Exchange(a, i, j, pivot);
    }
    PassStep(a[..], i, j, pivot);
  }

  /** Both scans, and the exchange if they have not crossed: only then are cells read and written between them. */
  method Exchange(a: array<Num>, i: nat, j: nat, pivot: Option<real>) returns (i': int, j': int)
    requires i <= j < a.Length
    modifies a
    ensures i <= i' <= a.Length && -1 <= j' <= j && j' - i' < j - i
    ensures Pass(a[..], i', j', pivot) == Pass(old(a[..]), i, j, pivot)
  {
    hide Pass, Up, Down;
    i' := ScanUp(a, i, pivot);
    j' := ScanDown(a, j, pivot);
    PassStep(a[..], i, j, pivot);
    if i' <= j' {
      Swap(a, i', j');
      i', j' := i' + 1, j' - 1;
    } else {
      PassStep(a[..], i', j', pivot);
    }
  }

  /** Nothing before position c is larger than anything from c on. */
  ghost predicate Cut(s: seq<Num>, c: nat) {
    forall p, q :: 0 <= p < c <= q < |s| ==> s[p].Val() <= s[q].Val()
  }

  lemma SegmentMember(s: seq<Num>, t: seq<Num>, lo: nat, hi: nat, q: nat) returns (p: nat)
    requires |s| == |t| && lo <= q < hi <= |s|
    requires multiset(s[lo..hi]) == multiset(t[lo..hi])
    ensures lo <= p < hi && s[p] == t[q]
  {
    assert t[lo..hi][q - lo] in multiset(s[lo..hi]);
    var i :| 0 <= i < hi - lo && s[lo..hi][i] == t[q];
    p := lo + i;
  }

  /** Rearranging the cells between two cuts keeps both cuts, and a pass around a pivot adds every
      cut between where its two cursors met. */
  lemma PassCuts(s: seq<Num>, t: seq<Num>, lo: nat, hi: nat, i: nat, j: int, pivot: real, c: nat)
    requires |s| == |t| && lo <= hi < |s| && lo - 1 <= j < i <= hi + 1
    requires multiset(s[lo..hi + 1]) == multiset(t[lo..hi + 1])
    requires forall p :: 0 <= p < lo || hi < p < |s| ==> s[p] == t[p]
    requires Cut(s, lo) && Cut(s, hi + 1)
    requires forall p :: lo <= p < i ==> t[p].Val() <= pivot
    requires forall q :: j < q <= hi ==> pivot <= t[q].Val()
    requires c == lo || c == hi + 1 || j < c <= i
    ensures Cut(t, c)
  {
    forall p, q | 0 <= p < c <= q < |t| ensures t[p].Val() <= t[q].Val() {
      if p < lo {
        if lo <= q <= hi {
          var q' := SegmentMember(s, t, lo, hi + 1, q);
          assert s[p].Val() <= s[q'].Val();
        } else {
          assert s[p].Val() <= s[q].Val();
        }
      } else if q > hi {
        var p' := SegmentMember(s, t, lo, hi + 1, p);
        assert s[p'].Val() <= s[q].Val();
      }
    }
  }

  lemma {:induction false} ValsOfPermutation(s: seq<Num>, t: seq<Num>)
    requires multiset(s) == multiset(t)
    ensures multiset(Vals(s)) == multiset(Vals(t))
  {
    if s == [] {
      assert |multiset(t)| == 0;
    } else {
      var i := FindFirst(s, t);
      var rest := t[..i] + t[i + 1..];
      ValsOfPermutation(s[1..], rest);
      assert Vals(s) == [Vals(s)[0]] + Vals(s[1..]);
      MultisetWithout(Vals(t), i);
      assert Vals(rest) == Vals(t)[..i] + Vals(t)[i + 1..];
      assert i < |Vals(t)|;
      assert multiset(Vals(t)) == multiset(Vals(rest)) + multiset{Vals(t)[i]};
    }
  }

  lemma CutIsRank(s: seq<Num>, k: nat)
    requires k < |s| && Cut(s, k) && Cut(s, k + 1)
    ensures IsOrderStatistic(Vals(s), k, s[k].Val())
  {
    var v := Vals(s);
    assert v == v[..k] + v[k..] && v[k..][0] == s[k].Val();
    SplitAtRank(v[..k], v[k..], s[k].Val());
  }

  /** An order statistic of any rearrangement is the cell of that rank in the sorted list. */
  lemma RankInSorted(s: seq<Num>, t: seq<Num>, k: nat, v: real)
    requires multiset(s) == multiset(t) && k < |s| && IsOrderStatistic(Vals(t), k, v)
    ensures v == StableSort(s)[k].Val()
  {
    var sorted := StableSort(s);
    StableSortIsStable(s, v);
    ValsOfPermutation(sorted, t);
    CountsOfPermutation(Vals(sorted), Vals(t), v);
    AscendingRank(Vals(sorted), k, v);
  }

  /** Whatever selection did, cell k now holds what a sort would have put there. */
  lemma SelectedIsSorted(s: seq<Num>, t: seq<Num>, k: nat)
    requires multiset(s) == multiset(t) && |s| == |t| && k < |t| && Cut(t, k) && Cut(t, k + 1)
    ensures t[k].Val() == StableSort(s)[k].Val()
    ensures NegZero !in s ==> t[k] == StableSort(s)[k]
  {
    CutIsRank(t, k);
    RankInSorted(s, t, k, t[k].Val());
    StableSortIsStable(s, 0.0);
    assert t[k] in multiset(s) && StableSort(s)[k] in multiset(StableSort(s));
  }

  /** The statistic next after a selected one is the least cell behind it. */
  lemma TailMinimumIsNext(s: seq<Num>, t: seq<Num>, k: nat, m: nat)
    requires multiset(s) == multiset(t) && |s| == |t| && k < m < |t| && Cut(t, k + 1)
    requires forall q :: k < q < |t| ==> t[m].Val() <= t[q].Val()
    ensures t[m].Val() == StableSort(s)[k + 1].Val()
  {
    TailMinimumRank(t, k, m);
    RankInSorted(s, t, k + 1, t[m].Val());
  }

  lemma TailMinimumRank(t: seq<Num>, k: nat, m: nat)
    requires k < m < |t| && Cut(t, k + 1)
    requires forall q :: k < q < |t| ==> t[m].Val() <= t[q].Val()
    ensures IsOrderStatistic(Vals(t), k + 1, t[m].Val())
  {
    var v := Vals(t);
    assert v == v[..k + 1] + v[k + 1..] && v[k + 1..][m - k - 1] == t[m].Val();
    SplitAtRank(v[..k + 1], v[k + 1..], t[m].Val());
  }

  /** What both selections promise: the first n cells rearranged, no other cell touched, and cell k
      between everything before it and everything after it. */
  twostate predicate Selected(a: array<Num>, n: nat, k: nat)
    requires k < n <= a.Length
    reads a
  {
    && multiset(a[..n]) == old(multiset(a[..n]))
    && a[n..] == old(a[n..])
    && Cut(a[..n], k) && Cut(a[..n], k + 1)
  }

  /** Between the search so far, from s to t, and the answer: only the first n cells have been
      rearranged, and everything outside the window [lo, hi] is already on its right side. */
  ghost predicate Narrowed(s: seq<Num>, t: seq<Num>, n: nat, lo: nat, hi: nat) {
    && |s| == |t| && lo <= hi < n <= |s|
    && multiset(s[..n]) == multiset(t[..n]) && s[n..] == t[n..]
    && Cut(t[..n], lo) && Cut(t[..n], hi + 1)
  }

  /** A round: a pass, then the side that holds place k, if the place is on either side.  Where that side is the whole
      window the search never ends. */
  function Select(s: seq<Num>, lo: nat, hi: nat, k: nat, median: bool): (t: Option<seq<Num>>)
    requires lo <= k <= hi < |s|
    ensures t.Some? ==> |t.value| == |s|
    decreases hi - lo
  {
    if lo == hi then Some(s)
    else
      var r := Pass(s, lo, hi, Pivot(s, lo, hi, median));
      var t, i, j := r.cells, r.i, r.j;
      if k <= j then
        if j < hi then Select(t, lo, j, k, median) else None
      else if k >= i then
        if lo < i then Select(t, i, hi, k, median) else None
      else Some(t)
  }

  /** A pass of the selection stays in its window. */
  lemma RoundStays(s: seq<Num>, n: nat, lo: nat, hi: nat, median: bool) returns (at: nat)
    requires lo < hi < n <= |s| && (median ==> n <= 0x8000_0000)
    ensures Passing(s, lo, hi, lo, hi, Pivot(s, lo, hi, median), at)
    ensures var r := Pass(s, lo, hi, Pivot(s, lo, hi, median));
            var t, i, j := r.cells, r.i, r.j;
            && lo - 1 <= j < hi && lo < i <= hi + 1 && j < i
            && multiset(t[..n]) == multiset(s[..n]) && t[n..] == s[n..]
  {
    var pivot := Pivot(s, lo, hi, median);
    at := PivotIsInWindow(s, lo, hi, median);
    PassSplits(s, lo, hi, lo, hi, pivot, at);
    var t := Pass(s, lo, hi, pivot).cells;
    assert s[n..] == t[n..];
    SliceOfPermutation(s, t, 0, n);
    assert s[0..n] == s[..n] && t[0..n] == t[..n];
  }

  lemma SliceOfWindow(s: seq<Num>, t: seq<Num>, n: nat, lo: nat, hi: nat)
    requires |s| == |t| && lo <= hi < n <= |s|
    requires multiset(s) == multiset(t) && forall p :: 0 <= p < lo || hi < p < |s| ==> t[p] == s[p]
    ensures multiset(t[..n]) == multiset(s[..n]) && t[n..] == s[n..]
  {
    assert s[n..] == t[n..];
    SliceOfPermutation(s, t, 0, n);
    assert s[0..n] == s[..n] && t[0..n] == t[..n];
  }

  /** Whatever the pivots, selection rearranges the first n cells and touches no other. */
  lemma {:induction false} SelectStays(s: seq<Num>, n: nat, lo: nat, hi: nat, k: nat, median: bool)
    requires lo <= k <= hi < n <= |s|
    ensures var t := Select(s, lo, hi, k, median);
            t.Some? ==> multiset(t.value[..n]) == multiset(s[..n]) && t.value[n..] == s[n..]
    decreases hi - lo
  {
    if lo < hi {
      var r := Pass(s, lo, hi, Pivot(s, lo, hi, median));
      PassPermutes(s, lo, hi, lo, hi, Pivot(s, lo, hi, median));
      SliceOfWindow(s, r.cells, n, lo, hi);
      if k <= r.j && r.j < hi {
        SelectStays(r.cells, n, lo, r.j, k, median);
      } else if k > r.j && k >= r.i && lo < r.i {
        SelectStays(r.cells, n, r.i, hi, k, median);
      }
    }
  }

  /** Up to 0x8000_0000 numbers every window shrinks, with or without a pivot. */
  lemma {:induction false} SelectEnds(s: seq<Num>, n: nat, lo: nat, hi: nat, k: nat, median: bool)
    requires lo <= k <= hi < n <= |s| && (median ==> n <= 0x8000_0000)
    ensures Select(s, lo, hi, k, median).Some?
    decreases hi - lo
  {
    if lo < hi {
      var at := RoundStays(s, n, lo, hi, median);
      var r := Pass(s, lo, hi, Pivot(s, lo, hi, median));
      if k <= r.j {
        SelectEnds(r.cells, n, lo, r.j, k, median);
      } else if k >= r.i {
        SelectEnds(r.cells, n, r.i, hi, k, median);
      }
    }
  }

  lemma CutsOfWindow(s: seq<Num>, t: seq<Num>, n: nat, lo: nat, hi: nat, i: nat, j: int, pivot: real, c: nat)
    requires |s| == |t| && lo <= hi < n <= |s| && lo - 1 <= j < i <= hi + 1
    requires Cut(s[..n], lo) && Cut(s[..n], hi + 1)
    requires multiset(s) == multiset(t) && forall p :: 0 <= p < lo || hi < p < |s| ==> s[p] == t[p]
    requires forall p :: lo <= p < i ==> t[p].Val() <= pivot
    requires forall q :: j < q <= hi ==> pivot <= t[q].Val()
    requires c == lo || c == hi + 1 || j < c <= i
    ensures Cut(t[..n], c)
  {
    SliceOfPermutation(s, t, lo, hi + 1);
    assert s[..n][lo..hi + 1] == s[lo..hi + 1] && t[..n][lo..hi + 1] == t[lo..hi + 1];
    PassCuts(s[..n], t[..n], lo, hi, i, j, pivot, c);
  }

  /** A pass with a pivot separates the array at every place between its cursors, and keeps what was separated. */
  lemma PassNarrows(was: seq<Num>, s: seq<Num>, n: nat, lo: nat, hi: nat, median: bool, c: nat)
    requires Narrowed(was, s, n, lo, hi) && lo < hi && (median ==> n <= 0x4000_0001)
    ensures var r := Pass(s, lo, hi, Pivot(s, lo, hi, median));
            var t, i, j := r.cells, r.i, r.j;
            && multiset(was[..n]) == multiset(t[..n]) && was[n..] == t[n..]
            && (c == lo || c == hi + 1 || j < c <= i ==> Cut(t[..n], c))
  {
    var pivot := Pivot(s, lo, hi, median);
    var at := PivotIsInWindow(s, lo, hi, median);
    PassSplits(s, lo, hi, lo, hi, pivot, at);
    var _ := RoundStays(s, n, lo, hi, median);
    var r := Pass(s, lo, hi, pivot);
    var t, i, j := r.cells, r.i, r.j;
    if c == lo || c == hi + 1 || j < c <= i {
      CutsOfWindow(s, t, n, lo, hi, i, j, pivot.value, c);
    }
  }

  /** Every round keeps place k in a smaller window that is separated from the rest; in the end k is the window. */
  lemma {:induction false} SelectNarrows(was: seq<Num>, s: seq<Num>, n: nat, lo: nat, hi: nat, k: nat, median: bool)
    requires Narrowed(was, s, n, lo, hi) && lo <= k <= hi && (median ==> n <= 0x4000_0001)
    ensures var t := Select(s, lo, hi, k, median); t.Some? && Narrowed(was, t.value, n, k, k)
    decreases hi - lo
  {
    if lo < hi {
      var at := RoundStays(s, n, lo, hi, median);
      var r := Pass(s, lo, hi, Pivot(s, lo, hi, median));
      var t, i, j := r.cells, r.i, r.j;
      PassNarrows(was, s, n, lo, hi, median, if k <= j then lo else if k >= i then i else k);
      PassNarrows(was, s, n, lo, hi, median, if k <= j then j + 1 else if k >= i then hi + 1 else k + 1);
      if k <= j {
        SelectNarrows(was, t, n, lo, j, k, median);
      } else if k >= i {
        SelectNarrows(was, t, n, i, hi, k, median);
      }
    }
  }

  lemma SelectUnfold(s: seq<Num>, lo: nat, hi: nat, k: nat, median: bool)
    requires lo <= k <= hi < |s| && lo < hi
    ensures var r := Pass(s, lo, hi, Pivot(s, lo, hi, median));
            && (k <= r.j < hi ==> Select(s, lo, hi, k, median) == Select(r.cells, lo, r.j, k, median))
            && (r.j < k && r.i <= k && lo < r.i ==> Select(s, lo, hi, k, median) == Select(r.cells, r.i, hi, k, median))
            && (k <= r.j == hi || (r.j < k && r.i <= k && r.i == lo) ==> Select(s, lo, hi, k, median) == None)
            && (r.j < k < r.i ==> Select(s, lo, hi, k, median) == Some(r.cells))
  {
    hide Pass, Pivot;
  }

  /** Whether the loop goes on, has left its window, or has the same window before it again. */
  datatype Search = Going | Found | Endless

  /** One round in place. */
  method Round(a: array<Num>, k: nat, lo: nat, hi: nat, median: bool) returns (lo': nat, hi': nat, search: Search)
    requires lo < hi < a.Length && lo <= k <= hi
    modifies a
    ensures lo <= lo' <= k <= hi' <= hi && (search == Going ==> hi' - lo' < hi - lo)
    ensures Select(old(a[..]), lo, hi, k, median)
            == match search
               case Going => Select(a[..], lo', hi', k, median)
               case Found => Some(a[..])
               case Endless => None
  {
    ghost var s := a[..];
    SelectUnfold(s, lo, hi, k, median);
    hide Select, Pass, Split, Passing;
    var mid := ShiftRightOne(lo + hi);
    var y := if 0 <= mid < a.Length then Some(a[mid].Val()) else None;
    var pivot := if median then PivotOf(a[lo].Val(), y, a[hi].Val()) else Some(a[lo].Val());
    var i, j := HoarePass(a, lo, hi, pivot);
    lo', hi', search := lo, hi, Going;
    if k <= j {
      hi' := j;
    } else if k >= i {
      lo' := i;
    } else {
      search := Found;
    }
    if search == Going && lo' == lo && hi' == hi {
      search := Endless;
    }
  }

  /** The rounds until place k is found; `ends` is false where they never end. */
  method RunSearch(a: array<Num>, n: nat, k: nat, median: bool) returns (ends: bool)
    requires k < n <= a.Length
    modifies a
    ensures ends == Select(old(a[..]), 0, n - 1, k, median).Some?
    ensures ends ==> a[..] == Select(old(a[..]), 0, n - 1, k, median).value
  {
    ghost var was := a[..];
    var lo, hi, search := 0, n - 1, Going;
    while lo < hi && search == Going
      invariant lo <= k <= hi < n
      invariant Select(was, 0, n - 1, k, median)
                == match search
                   case Going => Select(a[..], lo, hi, k, median)
                   case Found => Some(a[..])
                   case Endless => None
      decreases search == Going, hi - lo
    {
      lo, hi, search := Round(a, k, lo, hi, median);
    }
    ends := search != Endless;
  }

  /** Quickselect around a median of three.  Past 0x4000_0001 numbers a middle can be no cell, and a window without a
      pivot is only turned round; past 0x8000_0000 it can be a cell outside the window, and the search need not end. */
  method SelectNth(a: array<Num>, n: nat, k: nat) returns (r: Num, ends: bool)
    requires k < n <= a.Length
    modifies a
    ensures ends == Select(old(a[..]), 0, n - 1, k, true).Some?
    ensures ends ==> r == a[k] && a[..] == Select(old(a[..]), 0, n - 1, k, true).value
    ensures ends ==> multiset(a[..n]) == old(multiset(a[..n])) && a[n..] == old(a[n..])
    ensures n <= 0x8000_0000 ==> ends
    ensures n <= 0x4000_0001 ==> Selected(a, n, k)
    ensures n <= 0x4000_0001 ==> r.Val() == StableSort(old(a[..n]))[k].Val()
    ensures n <= 0x4000_0001 && NegZero !in old(a[..n]) ==> r == StableSort(old(a[..n]))[k]
  {
    ghost var was := a[..];
    ends := RunSearch(a, n, k, true);
    hide Select, StableSort;
    SelectStays(was, n, 0, n - 1, k, true);
    if n <= 0x8000_0000 {
      SelectEnds(was, n, 0, n - 1, k, true);
    }
    if n <= 0x4000_0001 {
      SelectNarrows(was, was, n, 0, n - 1, k, true);
      SelectedIsSorted(was[..n], a[..n], k);
    }
    r := a[k];
  }

  method SelectNthFirstPivot(a: array<Num>, n: nat, k: nat) returns (r: Num)
    requires k < n <= a.Length
    modifies a
    ensures Selected(a, n, k) && r == a[k]
    ensures r.Val() == StableSort(old(a[..n]))[k].Val()
    ensures NegZero !in old(a[..n]) ==> r == StableSort(old(a[..n]))[k]
  {
    ghost var was := a[..];
    var ends := RunSearch(a, n, k, false);
    hide Select, StableSort;
    SelectNarrows(was, was, n, 0, n - 1, k, false);
    SelectedIsSorted(was[..n], a[..n], k);
    r := a[k];
  }

  // ------------------------------------------------- where the middle is missing --

  /** Every list of this length is answered, at every place, as the stable sort answers. */
  ghost predicate AlwaysRight(n: nat)
    requires n > 0
  {
    forall s: seq<Num>, k: nat | |s| == n && k < n :: RightFor(s, k)
  }

  ghost predicate RightFor(s: seq<Num>, k: nat)
    requires k < |s|
  {
    var t := Select(s, 0, |s| - 1, k, true);
    t.Some? && t.value[k].Val() == StableSort(s)[k].Val()
  }

  /** Three large cells at the end, the largest of them in the middle; a pivot of 0 behind them. */
  function Misplaced(n: nat): (s: seq<Num>)
    requires n > 10
    ensures |s| == n
  {
    seq(n, i => Fin(if i == (n - 1) / 2 || i == n - 3 then 1.0
                    else if i == n - 2 then 2.0
                    else if i == n - 1 then 0.0
                    else -1.0))
  }

  lemma FirstPivot(n: nat)
    requires 10 < n <= 0x8000_0000
    ensures Pivot(Misplaced(n), 0, n - 1, true) == Some(0.0)
  {
  }

  /** The first exchange of the first round: the last cell, which is the pivot, and the middle one. */
  lemma FirstExchange(n: nat, t: seq<Num>)
    requires 10 < n <= 0x8000_0000
    requires var s, mid := Misplaced(n), (n - 1) / 2; t == s[mid := s[n - 1]][n - 1 := s[mid]]
    ensures Pass(Misplaced(n), 0, n - 1, Some(0.0)) == Pass(t, (n - 1) / 2 + 1, n - 2, Some(0.0))
  {
    var s, mid, pivot := Misplaced(n), (n - 1) / 2, Some(0.0);
    assert Up(s, 0, pivot) == mid by {
      assert !Smaller(s[mid], pivot);
    }
    PassStep(s, 0, n - 1, pivot);
    hide Pass;
  }

  /** Then the cursors cross before the last three. */
  lemma FirstCrossing(n: nat, t: seq<Num>)
    requires 10 < n <= 0x8000_0000
    requires var s, mid := Misplaced(n), (n - 1) / 2; t == s[mid := s[n - 1]][n - 1 := s[mid]]
    ensures Pass(t, (n - 1) / 2 + 1, n - 2, Some(0.0)) == Passed(t, n - 3, n - 4)
  {
    var mid, pivot := (n - 1) / 2, Some(0.0);
    assert Up(t, mid + 1, pivot) == n - 3 by {
      assert !Smaller(t[n - 3], pivot);
    }
    assert Down(t, n - 2, pivot) == n - 4 by {
      assert !Larger(t[n - 4], pivot);
    }
    PassStep(t, mid + 1, n - 2, pivot);
    hide Pass;
  }

  /** The first round leaves the last three cells, with equal ends. */
  lemma FirstRound(n: nat) returns (t: seq<Num>)
    requires 10 < n <= 0x8000_0000
    ensures |t| == n && t[n - 3] == Fin(1.0) && t[n - 2] == Fin(2.0) && t[n - 1] == Fin(1.0)
    ensures Select(Misplaced(n), 0, n - 1, n - 2, true) == Select(t, n - 3, n - 1, n - 2, true)
  {
    var s, mid := Misplaced(n), (n - 1) / 2;
    t := s[mid := s[n - 1]][n - 1 := s[mid]];
    FirstPivot(n);
    FirstExchange(n, t);
    FirstCrossing(n, t);
    hide Pass, Pivot;
  }

  /** The second has no pivot, turns the three round, and takes the largest for their median. */
  lemma SecondRound(n: nat, t: seq<Num>)
    requires 0x4000_0002 <= n <= 0x8000_0000 && |t| == n
    requires t[n - 3] == Fin(1.0) && t[n - 2] == Fin(2.0) && t[n - 1] == Fin(1.0)
    ensures Select(t, n - 3, n - 1, n - 2, true) == Some(t)
  {
    MiddleExactlyWhen(n - 3, n - 1);
    assert Pivot(t, n - 3, n - 1, true) == None;
    assert t[n - 3 := t[n - 1]][n - 1 := t[n - 3]] == t;
    assert t[n - 2 := t[n - 2]] == t;
    PassStep(t, n - 3, n - 1, None);
    PassStep(t, n - 2, n - 2, None);
    PassStep(t, n - 1, n - 3, None);
    hide Pass, Pivot;
  }

  /** Past 0x8000_0000: large cells at the front and in the second half, so that the ends are equal. */
  function Halved(n: nat): (s: seq<Num>)
    ensures |s| == n
  {
    seq(n, i => Fin(if i == 0 || 2 * i >= n then 1.0 else 0.0))
  }

  /** r turns s[i..j + 1] round, with the cursors where they meet. */
  ghost predicate Turned(s: seq<Num>, r: Passed, i: nat, j: int) {
    && |r.cells| == |s| && 1 <= r.i - r.j <= 2 && r.i + r.j == i + j
    && (forall p | i <= p <= j < |s| :: r.cells[p] == s[i + j - p])
    && (forall p | 0 <= p < |s| && (p < i || j < p) :: r.cells[p] == s[p])
  }

  lemma TurnedThrough(s: seq<Num>, r: Passed, i: nat, j: nat)
    requires i <= j < |s| && Turned(s[i := s[j]][j := s[i]], r, i + 1, j - 1)
    ensures Turned(s, r, i, j)
  {
    var t := s[i := s[j]][j := s[i]];
    forall p | i <= p <= j ensures r.cells[p] == s[i + j - p] {
      if i < p < j {
        assert r.cells[p] == t[i + j - p];
      } else {
        assert r.cells[p] == t[p];
      }
    }
  }

  lemma NoPivotStep(s: seq<Num>, i: nat, j: nat)
    requires i <= j < |s|
    ensures Pass(s, i, j, None) == Pass(s[i := s[j]][j := s[i]], i + 1, j - 1, None)
  {
    PassStep(s, i, j, None);
    hide Pass;
  }

  lemma TurnedSelf(s: seq<Num>, i: nat)
    requires i <= |s|
    ensures i >= 1 ==> Turned(s, Pass(s, i, i - 1, None), i, i - 1)
    ensures i < |s| ==> Turned(s, Passed(s, i + 1, i - 1), i, i) && Pass(s, i, i, None) == Passed(s, i + 1, i - 1)
  {
    if i >= 1 {
      PassStep(s, i, i - 1, None);
    }
    if i < |s| {
      NoPivotStep(s, i, i);
      assert s[i := s[i]] == s;
      PassStep(s, i + 1, i - 1, None);
    }
    hide Pass;
  }

  /** A pass without a pivot turns its window round. */
  lemma {:induction false} PassTurns(s: seq<Num>, i: nat, j: nat)
    requires i <= |s| && j < |s| && i <= j + 1
    ensures Turned(s, Pass(s, i, j, None), i, j)
    decreases j + 1 - i
  {
    hide Pass, Turned;
    if i >= j {
      TurnedSelf(s, i);
    } else {
      NoPivotStep(s, i, j);
      PassTurns(s[i := s[j]][j := s[i]], i + 1, j - 1);
      TurnedThrough(s, Pass(s, i, j, None), i, j);
    }
  }

  /** The first round has no pivot: it brings the second half, which is large throughout, to the front. */
  lemma TurnedRound(n: nat) returns (t: seq<Num>, j: nat)
    requires 0x8000_0000 < n < 0x1_0000_0000
    ensures |t| == n && j < 0x8000_0000 && j < n && forall p | 0 <= p <= j :: t[p] == Fin(1.0)
    ensures Select(Halved(n), 0, n - 1, 0, true) == Select(t, 0, j, 0, true)
  {
    var s := Halved(n);
    MiddleExactlyWhen(0, n - 1);
    assert Pivot(s, 0, n - 1, true) == None;
    var r := Pass(s, 0, n - 1, None);
    PassTurns(s, 0, n - 1);
    t, j := r.cells, r.j;
    hide Pass, Pivot;
    forall p | 0 <= p <= j ensures t[p] == Fin(1.0) {
      assert t[p] == s[n - 1 - p];
    }
  }

  lemma {:induction false} AllOnes(s: seq<Num>, j: nat)
    requires j < |s| && j < 0x8000_0000 && forall p | 0 <= p <= j :: s[p] == Fin(1.0)
    ensures var t := Select(s, 0, j, 0, true); t.Some? && t.value[0] == Fin(1.0)
  {
    var t := Select(s, 0, j, 0, true);
    SelectEnds(s, j + 1, 0, j, 0, true);
    SelectStays(s, j + 1, 0, j, 0, true);
    hide Select;
    assert t.value[..j + 1][0] in multiset(s[..j + 1]);
  }

  lemma WrongPast(n: nat)
    requires 0x8000_0000 < n < 0x1_0000_0000
    ensures !RightFor(Halved(n), 0)
  {
    var t, j := TurnedRound(n);
    AllOnes(t, j);
    hide Select;
    var s := Halved(n);
    var sorted := StableSort(s);
    StableSortIsStable(s, 0.0);
    assert s[1] == Fin(0.0) && s[1] in multiset(sorted);
    var i :| 0 <= i < n && sorted[i] == Fin(0.0);
    assert Vals(sorted)[0] <= Vals(sorted)[i];
  }

  lemma HeldOnce(s: seq<Num>, m: nat)
    requires m < |s| && forall p :: 0 <= p < |s| && p != m ==> s[p] != s[m]
    ensures multiset(s)[s[m]] == 1
  {
    assert s == s[..m] + [s[m]] + s[m + 1..] && s[m] !in s[..m] && s[m] !in s[m + 1..];
  }

  lemma HeldTwice(s: seq<Num>, x: Num)
    requires |s| >= 2 && s[|s| - 2] == s[|s| - 1] == x
    ensures multiset(s)[x] >= 2
  {
    assert s == s[..|s| - 2] + [x, x];
  }

  /** A value held once, and larger than all others, is not next to last in sorted order. */
  lemma LargestIsLast(s: seq<Num>, m: nat)
    requires |s| >= 2 && m < |s| && forall p :: 0 <= p < |s| && p != m ==> s[p].Val() < s[m].Val()
    ensures StableSort(s)[|s| - 2].Val() < s[m].Val()
  {
    var sorted, x, n := StableSort(s), s[m], |s|;
    StableSortIsStable(s, 0.0);
    HeldOnce(s, m);
    forall i | 0 <= i < n ensures sorted[i] == x || sorted[i].Val() < x.Val() {
      assert sorted[i] in multiset(sorted);
    }
    assert Vals(sorted)[n - 2] <= Vals(sorted)[n - 1];
    if sorted[n - 2] == x {
      HeldTwice(sorted, x);
    }
  }

  lemma RightUpTo(n: nat)
    requires 0 < n <= 0x4000_0001
    ensures AlwaysRight(n)
  {
    hide Select, StableSort;
    forall s: seq<Num>, k: nat | |s| == n && k < n ensures RightFor(s, k) {
      var t := Select(s, 0, n - 1, k, true);
      SelectNarrows(s, s, n, 0, n - 1, k, true);
      assert s[..n] == s && t.value[..n] == t.value;
      SelectedIsSorted(s, t.value, k);
    }
  }

  lemma WrongFrom(n: nat)
    requires 0x4000_0002 <= n <= 0x8000_0000
    ensures !RightFor(Misplaced(n), n - 2)
  {
    var t := FirstRound(n);
    SecondRound(n, t);
    LargestIsLast(Misplaced(n), n - 2);
    hide Select, StableSort;
  }

  /** The shifted middle is right for every list of a length, and every place, exactly up to 0x4000_0001 numbers.
      No list is as long as 0x1_0000_0000, ECMA-262 section 10.4.2. */
  lemma SelectsRightExactlyWhen(n: nat)
    requires 0 < n < 0x1_0000_0000
    ensures AlwaysRight(n) <==> n <= 0x4000_0001
  {
    hide RightFor;
    if n <= 0x4000_0001 {
      RightUpTo(n);
    } else if n <= 0x8000_0000 {
      WrongFrom(n);
    } else {
      WrongPast(n);
    }
  }

  // ------------------------------------------------------------- the fold --

  function Ceil(x: real): (r: int)
    ensures r as real - 1.0 < x <= r as real
  {
    -(-x).Floor
  }

  lemma CeilAtMost(x: real, m: int)
    requires x <= m as real
    ensures Ceil(x) <= m
  {
  }

  lemma ScaledBounds(frac: real, x: real)
    requires 0.0 <= frac <= 1.0 && 0.0 <= x
    ensures 0.0 <= frac * x <= x
  {
    assert (1.0 - frac) * x >= 0.0;
  }

  function DiscreteRank(frac: real, n: nat): (k: nat)
    requires n > 0
    ensures k < n
  {
    var c := Ceil(frac * n as real) - 1;
    var low := if c > 0 then c else 0;
    if n - 1 < low then n - 1 else low
  }

  /** The discrete rank is the least k whose cumulative share (k + 1) / n reaches frac. */
  lemma DiscreteRankIsLeast(frac: real, n: nat, k: nat)
    requires n > 0 && 0.0 <= frac <= 1.0
    ensures DiscreteRank(frac, n) <= k <==> frac * n as real <= (k + 1) as real
  {
    ScaledBounds(frac, n as real);
  }

  /** Where an interpolated percentile falls: between the cells of rank low and high. */
  function Position(frac: real, n: nat): (r: (real, nat, nat))
    requires n > 0 && 0.0 <= frac <= 1.0
    ensures r.1 <= r.2 <= r.1 + 1 && r.2 < n
    ensures r.1 as real <= r.0 <= r.2 as real
  {
    var rn := frac * (n - 1) as real;
    ScaledBounds(frac, (n - 1) as real);
    CeilAtMost(rn, n - 1);
    CeilAtMost(rn, rn.Floor + 1);
    assert rn.Floor <= Ceil(rn) <= rn.Floor + 1 && Ceil(rn) <= n - 1;
    (rn, rn.Floor, Ceil(rn))
  }

  function Interpolate(low: real, high: real, weight: real): Num {
    Fin(low + weight * (high - low))
  }

  /** The value at a position: a cell, or a blend of two neighbouring ones. */
  function At(nums: seq<Num>, at: (real, nat, nat)): Num
    requires at.1 < |nums| && at.2 < |nums|
  {
    if at.1 == at.2 then nums[at.1]
    else Interpolate(nums[at.1].Val(), nums[at.2].Val(), at.0 - at.1 as real)
  }

  /** Reads the percentile off an already ordered list. */
  function Pick(nums: seq<Num>, frac: real, cont: bool): (r: Option<Num>)
    requires 0.0 <= frac <= 1.0
  {
    var n := |nums|;
    if n == 0 then None
    else if cont then
      Some(At(nums, Position(frac, n)))
    else Some(nums[DiscreteRank(frac, n)])
  }

  /** The fold as it was: filter, stable sort, index. */
  function ArmA(cells: seq<Cell>, frac: real, cont: bool): Option<Num>
    requires 0.0 <= frac <= 1.0
  {
    Pick(StableSort(FiniteOnly(cells)), frac, cont)
  }

  method Gather(cells: seq<Cell>) returns (buf: array<Num>, n: nat, negZero: bool)
    ensures fresh(buf) && n <= buf.Length == |cells|
    ensures buf[..n] == FiniteOnly(cells)
    ensures negZero <==> NegZero in FiniteOnly(cells)
  {
    buf := new Num[|cells|](_ => Fin(0.0));
    n, negZero := 0, false;
    for i := 0 to |cells|
      invariant n <= i && buf[..n] == FiniteOnly(cells[..i])
      invariant negZero <==> NegZero in FiniteOnly(cells[..i])
    {
      FiniteOnlyConcat(cells[..i], [cells[i]]);
      assert cells[..i + 1] == cells[..i] + [cells[i]];
      if cells[i].Finite? {
        if cells[i].num == NegZero {
          negZero := true;
        }
        buf[n] := cells[i].num;
        n := n + 1;
      }
    }
    assert cells[..|cells|] == cells;
  }

  /** Equal as numbers: the same answer up to the sign of a zero. */
  ghost predicate SameValue(r: Option<Num>, s: Option<Num>) {
    r.Some? == s.Some? && (r.Some? ==> r.value.Val() == s.value.Val())
  }

  /** The least cell behind position lo, which after a selection is the next statistic. */
  method TailMinimum(buf: array<Num>, n: nat, lo: nat, ghost nums: seq<Num>) returns (r: Num)
    requires lo + 1 < n <= buf.Length
    requires multiset(buf[..n]) == multiset(nums) && |nums| == n
    ensures Cut(buf[..n], lo + 1) ==> r.Val() == StableSort(nums)[lo + 1].Val()
  {
    var hiVal: Option<Num> := None;
    ghost var m := lo + 1;
    for i := lo + 1 to n
      invariant hiVal.None? <==> i == lo + 1
      invariant hiVal.Some? ==> lo < m < i && hiVal.value == buf[m]
      invariant hiVal.Some? ==> forall q :: lo < q < i ==> buf[m].Val() <= buf[q].Val()
    {
      if hiVal.None? || buf[i].Val() < hiVal.value.Val() {
        hiVal := Some(buf[i]);
        m := i;
      }
    }
    if Cut(buf[..n], lo + 1) {
      TailMinimumIsNext(nums, buf[..n], lo, m);
    }
    r := hiVal.value;
  }

  /** One selection, and for a position between two ranks one scan of the tail behind it. */
  method SelectAt(buf: array<Num>, n: nat, at: (real, nat, nat)) returns (r: Num, ends: bool)
    requires at.1 <= at.2 <= at.1 + 1 && at.2 < n <= buf.Length
    modifies buf
    ensures n <= 0x8000_0000 ==> ends
    ensures n <= 0x4000_0001 ==> r.Val() == At(StableSort(old(buf[..n])), at).Val()
    ensures n <= 0x4000_0001 && NegZero !in old(buf[..n]) ==> r == At(StableSort(old(buf[..n])), at)
  {
    hide Select, StableSort, Cut, Interpolate;
    var (rn, lo, hi) := at;
    ghost var nums := buf[..n];
    r, ends := SelectNth(buf, n, lo);
    if ends && lo < hi {
      var hiVal := TailMinimum(buf, n, lo, nums);
      r := Interpolate(r.Val(), hiVal.Val(), rn - lo as real);
    }
  }

  /** The fold as it is now: gather, select, and for an interpolated percentile one scan of the tail.  Up to 0x4000_0001
      numbers it answers what the sorting fold answers, exactly so when no value is a negative zero; `ends` is false
      where it never answers. */
  method ArmC(cells: seq<Cell>, frac: real, cont: bool) returns (r: Option<Num>, ends: bool)
    requires 0.0 <= frac <= 1.0
    ensures |FiniteOnly(cells)| <= 0x8000_0000 ==> ends
    ensures |FiniteOnly(cells)| <= 0x4000_0001 ==> SameValue(r, ArmA(cells, frac, cont))
    ensures |FiniteOnly(cells)| <= 0x4000_0001 && NegZero !in FiniteOnly(cells) ==> r == ArmA(cells, frac, cont)
  {
    var buf, n, negZero := Gather(cells);
    if n == 0 {
      return None, true;
    }
    var v;
    if cont {
      v, ends := SelectAt(buf, n, Position(frac, n));
    } else {
      v, ends := SelectNth(buf, n, DiscreteRank(frac, n));
    }
    r := Some(v);
  }

  // ------------------------------------------------------- the typed sort --

  /** The order of %TypedArray%.prototype.sort, ECMA-262 section 23.2.3.29: -0 before +0. */
  predicate TypedLeq(x: Num, y: Num) {
    x.Val() < y.Val() || (x.Val() == y.Val() && !(x == Fin(0.0) && y == NegZero))
  }

  function TypedInsert(x: Num, s: seq<Num>): seq<Num> {
    if s == [] || TypedLeq(x, s[0]) then [x] + s else [s[0]] + TypedInsert(x, s[1..])
  }

  function TypedSort(s: seq<Num>): seq<Num> {
    if s == [] then [] else TypedInsert(s[0], TypedSort(s[1..]))
  }

  /** The fold over the typed array's own sort: the reference's answer, up to the sign of a zero. */
  method ArmB(cells: seq<Cell>, frac: real, cont: bool) returns (r: Option<Num>)
    requires 0.0 <= frac <= 1.0
    ensures r == Pick(TypedSort(FiniteOnly(cells)), frac, cont)
    ensures SameValue(r, ArmA(cells, frac, cont))
    ensures ZerosOrdered(FiniteOnly(cells)) ==> r == ArmA(cells, frac, cont)
  {
    var buf, n, negZero := Gather(cells);
    r := Pick(TypedSort(buf[..n]), frac, cont);
    TypedSortAnswers(cells);
    SortsAgree(FiniteOnly(cells));
  }

  /** No positive zero comes before a negative one. */
  predicate ZerosOrdered(s: seq<Num>) {
    s != [] ==> (s[0] == Fin(0.0) ==> NegZero !in s[1..]) && ZerosOrdered(s[1..])
  }

  lemma {:induction false} TypedInsertMembers(x: Num, s: seq<Num>)
    ensures forall y :: y in TypedInsert(x, s) <==> y == x || y in s
  {
    if s != [] && !TypedLeq(x, s[0]) {
      TypedInsertMembers(x, s[1..]);
      assert s == [s[0]] + s[1..];
    }
  }

  lemma ValsCons(x: Num, s: seq<Num>)
    ensures Vals([x] + s) == [x.Val()] + Vals(s)
  {
  }

  /** A positive zero before a negative one: the typed sort goes past it, to the same value. */
  lemma PastNegativeZero(x: Num, s: seq<Num>)
    requires Ordered(s) && s != [] && x.Val() == s[0].Val()
    ensures Vals([s[0]] + Insert(x, s[1..])) == Vals([x] + s)
  {
    OrderedTail(s);
    InsertFirst(x, s[1..]);
    ValsCons(x, s);
    ValsCons(x, s[1..]);
    ValsCons(s[0], s[1..]);
    ValsCons(s[0], [x] + s[1..]);
    assert s == [s[0]] + s[1..];
  }

  lemma {:induction false} TypedInsertValues(x: Num, s: seq<Num>)
    requires Ordered(s)
    ensures Vals(TypedInsert(x, s)) == Vals(Insert(x, s))
  {
    if s != [] && !TypedLeq(x, s[0]) {
      OrderedTail(s);
      TypedInsertValues(x, s[1..]);
      ValsCons(s[0], TypedInsert(x, s[1..]));
      ValsCons(s[0], Insert(x, s[1..]));
      if x.Val() <= s[0].Val() {
        PastNegativeZero(x, s);
      }
    }
  }

  lemma {:induction false} TypedInsertSame(x: Num, s: seq<Num>)
    requires x == Fin(0.0) ==> NegZero !in s
    ensures TypedInsert(x, s) == Insert(x, s)
  {
    if s != [] {
      TypedInsertSame(x, s[1..]);
    }
  }

  lemma InsertFirst(x: Num, s: seq<Num>)
    requires Ordered(s) && forall y | y in s :: x.Val() <= y.Val()
    ensures Insert(x, s) == [x] + s
  {
    if s != [] {
      assert s[0] in s;
    }
  }

  lemma {:induction false} InsertOfSameValues(x: Num, s: seq<Num>, t: seq<Num>)
    requires Vals(s) == Vals(t)
    ensures Vals(Insert(x, s)) == Vals(Insert(x, t))
  {
    assert |s| == |Vals(s)| == |Vals(t)| == |t|;
    ValsCons(x, s);
    ValsCons(x, t);
    if s != [] {
      assert s[0].Val() == Vals(s)[0] == Vals(t)[0] == t[0].Val();
      assert Vals(s[1..]) == Vals(s)[1..] == Vals(t)[1..] == Vals(t[1..]);
      InsertOfSameValues(x, s[1..], t[1..]);
      ValsCons(s[0], Insert(x, s[1..]));
      ValsCons(t[0], Insert(x, t[1..]));
    }
  }

  /** The two sorts always agree on values. */
  lemma {:induction false} TypedSortValues(s: seq<Num>)
    ensures Vals(TypedSort(s)) == Vals(StableSort(s))
  {
    if s != [] {
      var tail := s[1..];
      TypedSortValues(tail);
      StableSortIsStable(tail, 0.0);
      assert Ordered(TypedSort(tail));
      TypedInsertValues(s[0], TypedSort(tail));
      InsertOfSameValues(s[0], TypedSort(tail), StableSort(tail));
    }
  }

  lemma {:induction false} TypedSortMembers(s: seq<Num>)
    ensures forall y :: y in TypedSort(s) <==> y in s
  {
    if s != [] {
      TypedSortMembers(s[1..]);
      TypedInsertMembers(s[0], TypedSort(s[1..]));
      assert s == [s[0]] + s[1..];
    }
  }

  lemma {:induction false} TypedInsertZeros(x: Num, s: seq<Num>)
    requires Ordered(s) && ZerosOrdered(s)
    ensures ZerosOrdered(TypedInsert(x, s))
  {
    if s != [] {
      OrderedTail(s);
      if TypedLeq(x, s[0]) {
        assert ([x] + s)[1..] == s;
      } else {
        TypedInsertZeros(x, s[1..]);
        TypedInsertMembers(x, s[1..]);
        assert ([s[0]] + TypedInsert(x, s[1..]))[1..] == TypedInsert(x, s[1..]);
      }
    }
  }

  lemma {:induction false} TypedSortZeros(s: seq<Num>)
    ensures ZerosOrdered(TypedSort(s))
  {
    if s != [] {
      TypedSortZeros(s[1..]);
      TypedSortValues(s[1..]);
      StableSortIsStable(s[1..], 0.0);
      TypedInsertZeros(s[0], TypedSort(s[1..]));
    }
  }

  lemma {:induction false} TypedInsertPermutes(x: Num, s: seq<Num>)
    ensures multiset(TypedInsert(x, s)) == multiset(s) + multiset{x}
  {
    if s != [] {
      TypedInsertPermutes(x, s[1..]);
      assert s == [s[0]] + s[1..];
    }
  }

  lemma {:induction false} TypedSortPermutes(s: seq<Num>)
    ensures multiset(TypedSort(s)) == multiset(s)
  {
    if s != [] {
      TypedSortPermutes(s[1..]);
      TypedInsertPermutes(s[0], TypedSort(s[1..]));
      assert s == [s[0]] + s[1..];
    }
  }

  lemma {:induction false} ZerosAt(s: seq<Num>, i: nat, j: nat)
    requires ZerosOrdered(s) && i < j < |s|
    ensures !(s[i] == Fin(0.0) && s[j] == NegZero)
  {
    if i > 0 {
      ZerosAt(s[1..], i - 1, j - 1);
    }
  }

  /** The typed sort: the same numbers, ascending, and every negative zero before every positive one. */
  lemma TypedSortSorts(s: seq<Num>)
    ensures var t := TypedSort(s);
            && multiset(t) == multiset(s)
            && forall i, j | 0 <= i < j < |t| :: t[i].Val() <= t[j].Val() && !(t[i] == Fin(0.0) && t[j] == NegZero)
  {
    TypedSortPermutes(s);
    TypedSortValues(s);
    TypedSortZeros(s);
    StableSortIsStable(s, 0.0);
    var t := TypedSort(s);
    forall i, j | 0 <= i < j < |t| ensures t[i].Val() <= t[j].Val() && !(t[i] == Fin(0.0) && t[j] == NegZero) {
      ZerosAt(t, i, j);
      assert Vals(t)[i] <= Vals(t)[j];
    }
  }

  lemma {:induction false} ZerosOfTies(s: seq<Num>)
    ensures NegZero in Ties(s, 0.0) <==> NegZero in s
    ensures ZerosOrdered(Ties(s, 0.0)) <==> ZerosOrdered(s)
  {
    if s != [] {
      ZerosOfTies(s[1..]);
      assert s == [s[0]] + s[1..];
      if s[0].Val() == 0.0 {
        assert Ties(s, 0.0) == [s[0]] + Ties(s[1..], 0.0);
        assert Ties(s, 0.0)[1..] == Ties(s[1..], 0.0);
      } else {
        assert Ties(s, 0.0) == Ties(s[1..], 0.0);
      }
    }
  }

  /** The two sorts put the same cells in the same places exactly when no positive zero comes
      before a negative one. */
  lemma {:induction false} SortsAgree(s: seq<Num>)
    ensures TypedSort(s) == StableSort(s) <==> ZerosOrdered(s)
  {
    if ZerosOrdered(s) && s != [] {
      SortsAgree(s[1..]);
      TypedSortMembers(s[1..]);
      TypedInsertSame(s[0], TypedSort(s[1..]));
    }
    if TypedSort(s) == StableSort(s) {
      TypedSortZeros(s);
      StableSortIsStable(s, 0.0);
      ZerosOfTies(s);
      ZerosOfTies(TypedSort(s));
    }
  }

  /** A percentile that reads cell k. */
  lemma FractionOfRank(n: nat, k: nat) returns (frac: real)
    requires k < n
    ensures 0.0 <= frac <= 1.0 && DiscreteRank(frac, n) == k
  {
    frac := (k + 1) as real / n as real;
    assert frac * n as real == (k + 1) as real;
  }

  ghost predicate AlwaysAgree(s: seq<Num>, t: seq<Num>) {
    forall frac: real, cont: bool | 0.0 <= frac <= 1.0 :: Pick(s, frac, cont) == Pick(t, frac, cont)
  }

  /** Over all percentiles, the typed sort answers what the stable sort answered, up to the sign of
      a zero; and with the sign exactly when the column has no positive zero before a negative one. */
  lemma TypedSortAnswers(cells: seq<Cell>)
    ensures forall frac: real, cont: bool | 0.0 <= frac <= 1.0 ::
              SameValue(Pick(TypedSort(FiniteOnly(cells)), frac, cont), ArmA(cells, frac, cont))
    ensures AlwaysAgree(TypedSort(FiniteOnly(cells)), StableSort(FiniteOnly(cells)))
            <==> ZerosOrdered(FiniteOnly(cells))
  {
    var s := FiniteOnly(cells);
    var typed, stable := TypedSort(s), StableSort(s);
    TypedSortValues(s);
    SortsAgree(s);
    assert |typed| == |Vals(typed)| == |Vals(stable)| == |stable|;
    assert forall i | 0 <= i < |s| :: typed[i].Val() == Vals(typed)[i] == Vals(stable)[i] == stable[i].Val();
    if AlwaysAgree(typed, stable) {
      forall k | 0 <= k < |s| ensures typed[k] == stable[k] {
        var frac := FractionOfRank(|s|, k);
        assert Pick(typed, frac, false) == Pick(stable, frac, false);
      }
    }
  }
}
