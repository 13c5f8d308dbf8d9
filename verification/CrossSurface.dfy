/** One question on two surfaces: a GQL pattern with a WHERE clause of conjuncts under three-valued
    logic, and a Gremlin pipeline of filter steps - for any lists of keys to filter by before and after
    the hop, and for vertices that lack a key. */
module CrossSurface {
  import opened Options
  import opened Multigraph
  import opened Adjacency
  import opened Vectors
  import opened DegreeCounts
  import opened Strided
  import DegreeProducts

  const E_TYPE := DegreeProducts.E_TYPE

  /** A graph with the vertices labelled P and everyone's properties. */
  datatype Store = Store(g: Graph, people: set<nat>, props: seq<map<string, int>>) {
    ghost predicate Valid() {
      g.Valid() && |props| == g.order
    }
  }

  /** The keys to filter by before the hop and after it. */
  datatype Cell = Cell(pre: seq<string>, post: seq<string>, hop: bool) {
    /** Without a hop there is no far end to filter. */
    predicate Valid() {
      hop || post == []
    }
  }

  function Out(s: Store, v: nat): seq<nat> {
    Adjacent(s.g, E_TYPE, true, v)
  }

  // ---------------------------------------------------------------- the GQL --

  datatype Truth = True | False | Unknown

  /** AND of three-valued logic: false wins, then unknown. */
  function And(x: Truth, y: Truth): Truth {
    if x == False || y == False then False
    else if x == Unknown || y == Unknown then Unknown
    else True
  }

  datatype Slot = A | B

  /** `slot.key > -1` */
  datatype Conjunct = Above(slot: Slot, key: string)

  datatype Query = Query(hop: bool, conjuncts: seq<Conjunct>)

  function Conjuncts(slot: Slot, keys: seq<string>): seq<Conjunct> {
    seq(|keys|, i requires 0 <= i < |keys| => Above(slot, keys[i]))
  }

  function GqlOf(c: Cell): Query
    requires c.Valid()
  {
    Query(c.hop, Conjuncts(A, c.pre) + Conjuncts(B, c.post))
  }

  /** A comparison with an absent property is unknown. */
  function Compare(s: Store, v: nat, key: string): Truth
    requires v < |s.props|
  {
    if key !in s.props[v] then Unknown else if s.props[v][key] > -1 then True else False
  }

  /** x AND y AND z ..., from the left. */
  function Where(s: Store, conjuncts: seq<Conjunct>, a: nat, b: nat): Truth
    requires a < |s.props| && b < |s.props|
  {
    if conjuncts == [] then True
    else
      var last := conjuncts[|conjuncts| - 1];
      And(Where(s, conjuncts[..|conjuncts| - 1], a, b), Compare(s, if last.slot == A then a else b, last.key))
  }

  /** The bindings of the last variable, for one binding of a: the rows the clause keeps. */
  function RowsVia(s: Store, q: Query, a: nat, edges: seq<nat>): seq<nat>
    requires s.Valid() && a < s.g.order && forall j :: 0 <= j < |edges| ==> edges[j] < |s.g.edges|
  {
    if edges == [] then []
    else
      var b := s.g.edges[edges[|edges| - 1]].to;
      RowsVia(s, q, a, edges[..|edges| - 1]) + if Where(s, q.conjuncts, a, b) == True then [b] else []
  }

  function RowsFrom(s: Store, q: Query, a: nat): seq<nat>
    requires s.Valid() && a < s.g.order
  {
    if a !in s.people then []
    else if q.hop then RowsVia(s, q, a, Out(s, a))
    else if Where(s, q.conjuncts, a, a) == True then [a]
    else []
  }

  /** MATCH (a:P)-[:E]->(b) WHERE ..., or MATCH (a:P) WHERE ... */
  function Rows(s: Store, q: Query, k: nat): seq<nat>
    requires s.Valid() && k <= s.g.order
  {
    if k == 0 then [] else Rows(s, q, k - 1) + RowsFrom(s, q, k - 1)
  }

  function GqlCount(s: Store, q: Query): nat
    requires s.Valid()
  {
    |Rows(s, q, s.g.order)|
  }

  // ------------------------------------------------------------ the Gremlin --

  datatype Step = HasLabel | Has(key: string) | OutStep

  /** has(key, gt(-1)): the property is there, and above -1. */
  predicate Holds(s: Store, v: nat, key: string) {
    v < |s.props| && key in s.props[v] && s.props[v][key] > -1
  }

  function HasSteps(keys: seq<string>): seq<Step> {
    seq(|keys|, i requires 0 <= i < |keys| => Has(keys[i]))
  }

  function GrmOf(c: Cell): seq<Step>
    requires c.Valid()
  {
    if c.hop then [HasLabel] + HasSteps(c.pre) + [OutStep] + HasSteps(c.post)
    else [HasLabel] + HasSteps(c.pre)
  }

  function Ends(s: Store, edges: seq<nat>): (r: seq<nat>)
    requires s.Valid() && forall j :: 0 <= j < |edges| ==> edges[j] < |s.g.edges|
    ensures |r| == |edges|
  {
    if edges == [] then [] else Ends(s, edges[..|edges| - 1]) + [s.g.edges[edges[|edges| - 1]].to]
  }

  /** What one traverser becomes; one that stands on no vertex becomes nothing. */
  function Take(s: Store, step: Step, v: nat): seq<nat>
    requires s.Valid()
  {
    match step
    case HasLabel => if v in s.people then [v] else []
    case Has(key) => if Holds(s, v, key) then [v] else []
    case OutStep => if v < s.g.order then Ends(s, Out(s, v)) else []
  }

  function TakeAll(s: Store, step: Step, ts: seq<nat>): seq<nat>
    requires s.Valid()
  {
    if ts == [] then [] else Take(s, step, ts[0]) + TakeAll(s, step, ts[1..])
  }

  /** The traversers after all the steps. */
  function Run(s: Store, steps: seq<Step>, ts: seq<nat>): seq<nat>
    requires s.Valid()
    decreases |steps|
  {
    if steps == [] then ts else Run(s, steps[1..], TakeAll(s, steps[0], ts))
  }

  function AllVertices(n: nat): seq<nat> {
    if n == 0 then [] else AllVertices(n - 1) + [n - 1]
  }

  function GrmCount(s: Store, steps: seq<Step>): nat
    requires s.Valid()
  {
    |Run(s, steps, AllVertices(s.g.order))|
  }

  // ----------------------------------------------------- they are one question --

  lemma {:induction false} TakeAllConcat(s: Store, step: Step, ts: seq<nat>, us: seq<nat>)
    requires s.Valid()
    ensures TakeAll(s, step, ts + us) == TakeAll(s, step, ts) + TakeAll(s, step, us)
  {
    if ts == [] {
      assert ts + us == us;
    } else {
      var head, rest, more := Take(s, step, ts[0]), TakeAll(s, step, ts[1..]), TakeAll(s, step, us);
      calc {
        TakeAll(s, step, ts + us);
        { assert (ts + us)[0] == ts[0] && (ts + us)[1..] == ts[1..] + us; }
        head + TakeAll(s, step, ts[1..] + us);
        { TakeAllConcat(s, step, ts[1..], us); }
        head + (rest + more);
        (head + rest) + more;
        TakeAll(s, step, ts) + more;
      }
    }
  }

  /** A pipeline treats its traversers one by one. */
  lemma {:induction false} RunConcat(s: Store, steps: seq<Step>, ts: seq<nat>, us: seq<nat>)
    requires s.Valid()
    ensures Run(s, steps, ts + us) == Run(s, steps, ts) + Run(s, steps, us)
    decreases |steps|
  {
    if steps != [] {
      TakeAllConcat(s, steps[0], ts, us);
      RunConcat(s, steps[1..], TakeAll(s, steps[0], ts), TakeAll(s, steps[0], us));
    }
  }

  lemma {:induction false} RunThen(s: Store, steps: seq<Step>, more: seq<Step>, ts: seq<nat>)
    requires s.Valid()
    ensures Run(s, steps + more, ts) == Run(s, more, Run(s, steps, ts))
    decreases |steps|
  {
    if steps == [] {
      assert steps + more == more;
    } else {
      assert (steps + more)[1..] == steps[1..] + more && (steps + more)[0] == steps[0];
      RunThen(s, steps[1..], more, TakeAll(s, steps[0], ts));
    }
  }

  /** Do the keys all hold at v? */
  predicate AllHold(s: Store, v: nat, keys: seq<string>) {
    forall i | 0 <= i < |keys| :: Holds(s, v, keys[i])
  }

  /** The filter steps keep a traverser exactly when every key holds. */
  lemma {:induction false} RunHas(s: Store, keys: seq<string>, v: nat)
    requires s.Valid() && v < s.g.order
    ensures Run(s, HasSteps(keys), [v]) == if AllHold(s, v, keys) then [v] else []
  {
    if keys != [] {
      var n := |keys| - 1;
      RunHas(s, keys[..n], v);
      assert HasSteps(keys) == HasSteps(keys[..n]) + [Has(keys[n])];
      RunThen(s, HasSteps(keys[..n]), [Has(keys[n])], [v]);
      RunOne(s, Has(keys[n]), v);
      RunNone(s, [Has(keys[n])]);
    }
  }

  lemma RunOne(s: Store, step: Step, v: nat)
    requires s.Valid() && v < s.g.order
    ensures Run(s, [step], [v]) == Take(s, step, v)
  {
    assert [step][1..] == [] && [v][1..] == [];
    assert TakeAll(s, step, [v]) == Take(s, step, v);
  }

  lemma {:induction false} RunNone(s: Store, steps: seq<Step>)
    requires s.Valid()
    ensures Run(s, steps, []) == []
    decreases |steps|
  {
    if steps != [] {
      RunNone(s, steps[1..]);
    }
  }

  /** The clause is true exactly when every comparison is: three-valued AND keeps no unknown. */
  lemma {:induction false} WhereIsAll(s: Store, conjuncts: seq<Conjunct>, a: nat, b: nat)
    requires a < |s.props| && b < |s.props|
    ensures Where(s, conjuncts, a, b) == True
            <==> forall i | 0 <= i < |conjuncts| :: Holds(s, if conjuncts[i].slot == A then a else b, conjuncts[i].key)
  {
    if conjuncts != [] {
      WhereIsAll(s, conjuncts[..|conjuncts| - 1], a, b);
    }
  }

  lemma CellWhere(s: Store, c: Cell, a: nat, b: nat)
    requires c.Valid() && a < |s.props| && b < |s.props|
    ensures Where(s, GqlOf(c).conjuncts, a, b) == True <==> AllHold(s, a, c.pre) && AllHold(s, b, c.post)
  {
    var w := GqlOf(c).conjuncts;
    WhereIsAll(s, w, a, b);
    assert forall i | 0 <= i < |c.pre| :: w[i] == Above(A, c.pre[i]);
    assert forall i | 0 <= i < |c.post| :: w[|c.pre| + i] == Above(B, c.post[i]);
    if forall i | 0 <= i < |w| :: Holds(s, if w[i].slot == A then a else b, w[i].key) {
      forall i | 0 <= i < |c.pre| ensures Holds(s, a, c.pre[i]) {
        assert w[i] == Above(A, c.pre[i]);
      }
      forall i | 0 <= i < |c.post| ensures Holds(s, b, c.post[i]) {
        assert w[|c.pre| + i] == Above(B, c.post[i]);
      }
    }
  }

  lemma {:induction false} PostRows(s: Store, c: Cell, a: nat, edges: seq<nat>)
    requires s.Valid() && c.Valid() && a < s.g.order && AllHold(s, a, c.pre)
    requires forall j :: 0 <= j < |edges| ==> edges[j] < |s.g.edges|
    ensures Run(s, HasSteps(c.post), Ends(s, edges)) == RowsVia(s, GqlOf(c), a, edges)
  {
    if edges == [] {
      RunNone(s, HasSteps(c.post));
    } else {
      var m := |edges| - 1;
      var b := s.g.edges[edges[m]].to;
      PostRows(s, c, a, edges[..m]);
      RunConcat(s, HasSteps(c.post), Ends(s, edges[..m]), [b]);
      RunHas(s, c.post, b);
      CellWhere(s, c, a, b);
    }
  }

  lemma {:induction false} NoRows(s: Store, c: Cell, a: nat, edges: seq<nat>)
    requires s.Valid() && c.Valid() && a < s.g.order && !AllHold(s, a, c.pre)
    requires forall j :: 0 <= j < |edges| ==> edges[j] < |s.g.edges|
    ensures RowsVia(s, GqlOf(c), a, edges) == []
  {
    if edges != [] {
      NoRows(s, c, a, edges[..|edges| - 1]);
      CellWhere(s, c, a, s.g.edges[edges[|edges| - 1]].to);
    }
  }

  /** The steps up to the hop keep a labelled vertex at which all the keys before the hop hold. */
  lemma HeadRun(s: Store, keys: seq<string>, a: nat)
    requires s.Valid() && a < s.g.order
    ensures Run(s, [HasLabel] + HasSteps(keys), [a]) == if a in s.people && AllHold(s, a, keys) then [a] else []
  {
    RunThen(s, [HasLabel], HasSteps(keys), [a]);
    RunOne(s, HasLabel, a);
    RunNone(s, HasSteps(keys));
    RunHas(s, keys, a);
  }

  /** The hop and the steps after it give the rows of the clause. */
  lemma TailRun(s: Store, c: Cell, a: nat)
    requires s.Valid() && c.Valid() && a < s.g.order && AllHold(s, a, c.pre)
    ensures Run(s, [OutStep] + HasSteps(c.post), [a]) == RowsVia(s, GqlOf(c), a, Out(s, a))
  {
    RunThen(s, [OutStep], HasSteps(c.post), [a]);
    RunOne(s, OutStep, a);
    PostRows(s, c, a, Out(s, a));
  }

  lemma OneStartHop(s: Store, c: Cell, a: nat)
    requires s.Valid() && c.Valid() && a < s.g.order && c.hop
    ensures Run(s, GrmOf(c), [a]) == RowsFrom(s, GqlOf(c), a)
  {
    var head, tail := [HasLabel] + HasSteps(c.pre), [OutStep] + HasSteps(c.post);
    assert GrmOf(c) == head + tail;
    RunThen(s, head, tail, [a]);
    HeadRun(s, c.pre, a);
    RunNone(s, tail);
    if AllHold(s, a, c.pre) {
      TailRun(s, c, a);
    } else {
      NoRows(s, c, a, Out(s, a));
    }
  }

  /** One start vertex gives the same rows on both surfaces. */
  lemma OneStart(s: Store, c: Cell, a: nat)
    requires s.Valid() && c.Valid() && a < s.g.order
    ensures Run(s, GrmOf(c), [a]) == RowsFrom(s, GqlOf(c), a)
  {
    if c.hop {
      OneStartHop(s, c, a);
    } else {
      HeadRun(s, c.pre, a);
      CellWhere(s, c, a, a);
    }
  }

  lemma {:induction false} AllStarts(s: Store, steps: seq<Step>, q: Query, k: nat)
    requires s.Valid() && k <= s.g.order
    requires forall a: nat | a < s.g.order :: Run(s, steps, [a]) == RowsFrom(s, q, a)
    ensures Run(s, steps, AllVertices(k)) == Rows(s, q, k)
  {
    if k == 0 {
      RunNone(s, steps);
    } else {
      AllStarts(s, steps, q, k - 1);
      RunConcat(s, steps, AllVertices(k - 1), [k - 1]);
    }
  }

  /** For every cell and every graph the two surfaces keep the same rows, and so count the same. */
  lemma SurfacesAgree(s: Store, c: Cell)
    requires s.Valid() && c.Valid()
    ensures Run(s, GrmOf(c), AllVertices(s.g.order)) == Rows(s, GqlOf(c), s.g.order)
    ensures GrmCount(s, GrmOf(c)) == GqlCount(s, GqlOf(c))
  {
    forall a: nat | a < s.g.order ensures Run(s, GrmOf(c), [a]) == RowsFrom(s, GqlOf(c), a) {
      OneStart(s, c, a);
    }
    AllStarts(s, GrmOf(c), GqlOf(c), s.g.order);
  }

  // ----------------------------------------------------- the matches of a pattern --

  /** The vertices at which every key is present and above -1. */
  ghost function Passing(s: Store, keys: seq<string>): set<nat>
    requires s.Valid()
  {
    set v: nat | v < s.g.order && forall i | 0 <= i < |keys| :: keys[i] in s.props[v] && s.props[v][keys[i]] > -1
  }

  /** (a:P) with the keys before the hop, and through one E edge a vertex with the keys after it. */
  ghost function PatternOf(s: Store, c: Cell): Pattern
    requires s.Valid()
  {
    Pattern(Node(Some(s.people), Some(Passing(s, c.pre))), if c.hop then [LandingOf(s, c)] else [])
  }

  ghost function LandingOf(s: Store, c: Cell): Leg
    requires s.Valid()
  {
    Leg(Direction.Out, Some({"E"}), Node(None, Some(Passing(s, c.post))))
  }

  lemma PassingIs(s: Store, keys: seq<string>, v: nat)
    requires s.Valid() && v < s.g.order
    ensures v in Passing(s, keys) <==> AllHold(s, v, keys)
  {
  }

  lemma MoreRows(s: Store, q: Query, a: nat, adj: seq<nat>, i: nat)
    requires s.Valid() && a < s.g.order && i < |s.g.edges| && forall j :: 0 <= j < |adj| ==> adj[j] < |s.g.edges|
    ensures |RowsVia(s, q, a, adj + [i])|
            == |RowsVia(s, q, a, adj)| + if Where(s, q.conjuncts, a, s.g.edges[i].to) == True then 1 else 0
  {
    assert (adj + [i])[..|adj|] == adj;
    hide Where;
  }

  lemma LandingPull(s: Store, c: Cell, a: nat, k: nat)
    requires s.Valid() && k < |s.g.edges| && a < s.g.order
    ensures var e, leg, ones := s.g.edges[k], LandingOf(s, c), Ones(s.g.order);
            PullVia(s.g, leg, ones, a, k + 1)
            == PullVia(s.g, leg, ones, a, k)
               + if TypeAdmits(E_TYPE, e) && e.from == a && AllHold(s, e.to, c.post) then 1 else 0
  {
    PassingIs(s, c.post, s.g.edges[k].to);
    hide Passing, AllHold;
  }

  lemma LandingStep(s: Store, c: Cell, a: nat, k: nat)
    requires s.Valid() && c.Valid() && k < |s.g.edges| && a < s.g.order && AllHold(s, a, c.pre)
    requires |RowsVia(s, GqlOf(c), a, AdjacentVia(s.g, E_TYPE, true, a, k))| == PullVia(s.g, LandingOf(s, c), Ones(s.g.order), a, k)
    ensures |RowsVia(s, GqlOf(c), a, AdjacentVia(s.g, E_TYPE, true, a, k + 1))|
            == PullVia(s.g, LandingOf(s, c), Ones(s.g.order), a, k + 1)
  {
    CellWhere(s, c, a, s.g.edges[k].to);
    MoreRows(s, GqlOf(c), a, AdjacentVia(s.g, E_TYPE, true, a, k), k);
    LandingPull(s, c, a, k);
    hide Where, GqlOf, AllHold, LandingOf, RowsVia, PullVia, TypeAdmits;
  }

  lemma {:induction false} LandingRows(s: Store, c: Cell, a: nat, k: nat)
    requires s.Valid() && c.Valid() && k <= |s.g.edges| && a < s.g.order && AllHold(s, a, c.pre)
    ensures |RowsVia(s, GqlOf(c), a, AdjacentVia(s.g, E_TYPE, true, a, k))| == PullVia(s.g, LandingOf(s, c), Ones(s.g.order), a, k)
  {
    if k > 0 {
      LandingRows(s, c, a, k - 1);
      LandingStep(s, c, a, k - 1);
    }
  }

  /** The rows of one start are its completions, where the pattern's start keeps it. */
  lemma RowsOfStart(s: Store, c: Cell, a: nat)
    requires s.Valid() && c.Valid() && a < s.g.order
    ensures var p := PatternOf(s, c);
            |RowsFrom(s, GqlOf(c), a)| == Mask(p.start, Completions(s.g, p.legs))[a]
  {
    PassingIs(s, c.pre, a);
    if c.hop {
      var leg := LandingOf(s, c);
      assert Completions(s.g, [leg]) == Pull(s.g, leg, Ones(s.g.order)) by {
        assert [leg][1..] == [];
      }
      hide Passing;
      if AllHold(s, a, c.pre) {
        LandingRows(s, c, a, |s.g.edges|);
      } else {
        NoRows(s, c, a, Out(s, a));
      }
    } else {
      CellWhere(s, c, a, a);
    }
  }

  lemma {:induction false} RowsUpTo(s: Store, c: Cell, k: nat)
    requires s.Valid() && c.Valid() && k <= s.g.order
    ensures var p := PatternOf(s, c);
            |Rows(s, GqlOf(c), k)| == Sum(Mask(p.start, Completions(s.g, p.legs))[..k])
  {
    if k > 0 {
      RowsUpTo(s, c, k - 1);
      RowsOfStart(s, c, k - 1);
      hide RowsFrom, GqlOf, PatternOf, Mask;
      SumNext(Mask(PatternOf(s, c).start, Completions(s.g, PatternOf(s, c).legs)), k - 1);
    }
  }

  /** Both surfaces count the matches of the pattern, whatever keys are filtered by, missing or not. */
  lemma CountsMatches(s: Store, c: Cell)
    requires s.Valid() && c.Valid()
    ensures GqlCount(s, GqlOf(c)) == GrmCount(s, GrmOf(c)) == |Matches(s.g, PatternOf(s, c))|
  {
    var p := PatternOf(s, c);
    RowsUpTo(s, c, s.g.order);
    var m := Mask(p.start, Completions(s.g, p.legs));
    assert m[..s.g.order] == m;
    CountIsMatches(s.g, p);
    SurfacesAgree(s, c);
  }

  // ------------------------------------------------- what every cell must answer --

  /** Everyone is labelled P and every key of the cell is present and above -1 everywhere: its filters are always
      true. */
  ghost predicate AlwaysTrue(s: Store, c: Cell)
    requires s.Valid()
  {
    forall v: nat | v < s.g.order :: v in s.people && AllHold(s, v, c.pre) && AllHold(s, v, c.post)
  }

  lemma {:induction false} AllRowsVia(s: Store, c: Cell, a: nat, edges: seq<nat>)
    requires s.Valid() && c.Valid() && a < s.g.order && AlwaysTrue(s, c)
    requires forall j :: 0 <= j < |edges| ==> edges[j] < |s.g.edges|
    ensures |RowsVia(s, GqlOf(c), a, edges)| == |edges|
  {
    if edges != [] {
      var b := s.g.edges[edges[|edges| - 1]].to;
      AllRowsVia(s, c, a, edges[..|edges| - 1]);
      CellWhere(s, c, a, b);
    }
  }

  lemma CellAnswersFrom(s: Store, c: Cell, a: nat)
    requires s.Valid() && c.Valid() && a < s.g.order && AlwaysTrue(s, c)
    ensures |RowsFrom(s, GqlOf(c), a)| == if c.hop then |Out(s, a)| else 1
  {
    if c.hop {
      AllRowsVia(s, c, a, Out(s, a));
    } else {
      CellWhere(s, c, a, a);
    }
  }

  /** One row for every vertex, or for every edge that leaves one. */
  lemma {:induction false} AllStartsAnswer(s: Store, c: Cell, k: nat)
    requires s.Valid() && c.Valid() && AlwaysTrue(s, c) && k <= s.g.order
    ensures |Rows(s, GqlOf(c), k)| == if c.hop then Sum(DegreeProducts.Degrees(s.g, E_TYPE, true)[..k]) else k
  {
    if k > 0 {
      AllStartsAnswer(s, c, k - 1);
      CellAnswersFrom(s, c, k - 1);
      MoreStarts(s, GqlOf(c), k - 1);
      var d := DegreeProducts.Degrees(s.g, E_TYPE, true);
      SumNext(d, k - 1);
      hide Rows, RowsFrom, GqlOf, AlwaysTrue;
    }
  }

  lemma MoreStarts(s: Store, q: Query, k: nat)
    requires s.Valid() && k < s.g.order
    ensures |Rows(s, q, k + 1)| == |Rows(s, q, k)| + |RowsFrom(s, q, k)|
  {
    hide RowsFrom;
  }

  lemma SumNext(d: seq<nat>, k: nat)
    requires k < |d|
    ensures Sum(d[..k + 1]) == Sum(d[..k]) + d[k]
  {
    assert d[..k + 1][..k] == d[..k];
  }

  lemma {:induction false} OutFlow(g: Graph, f: seq<nat>, k: nat)
    requires g.Valid() && f == Ones(g.order) && k <= |g.edges|
    ensures FlowSum(g, DegreeProducts.Hop(E_TYPE), f, f, k) == EdgesOfType(g, "E", k)
  {
    if k > 0 {
      OutFlow(g, f, k - 1);
      SingleType("E", g.edges[k - 1]);
    }
  }

  /** The out-degrees sum to the number of edges, however they are spread. */
  lemma OutDegreesSum(g: Graph)
    requires g.Valid()
    ensures Sum(DegreeProducts.Degrees(g, E_TYPE, true)) == EdgesOfType(g, "E", |g.edges|)
  {
    var ones := Ones(g.order);
    DegreeProducts.OutDegreesByPull(g, E_TYPE);
    CountIsMatches(g, Pattern(ANY_NODE, [DegreeProducts.Hop(E_TYPE)]));
    OneHopCount(g, ANY_NODE, DegreeProducts.Hop(E_TYPE));
    assert Mask(ANY_NODE, ones) == ones;
    assert Mask(ANY_NODE, DegreeProducts.Degrees(g, E_TYPE, true)) == DegreeProducts.Degrees(g, E_TYPE, true);
    OutFlow(g, ones, |g.edges|);
  }

  /** With the filters always true a node cell answers the number of vertices and a hop cell the number of
      edges, on both surfaces and however the edges are spread. */
  lemma CellAnswers(s: Store, c: Cell)
    requires s.Valid() && c.Valid() && AlwaysTrue(s, c)
    ensures GqlCount(s, GqlOf(c)) == GrmCount(s, GrmOf(c))
            == if c.hop then EdgesOfType(s.g, "E", |s.g.edges|) else s.g.order
  {
    AllStartsAnswer(s, c, s.g.order);
    OutDegreesSum(s.g);
    var d := DegreeProducts.Degrees(s.g, E_TYPE, true);
    assert d[..s.g.order] == d;
    SurfacesAgree(s, c);
  }

  // ------------------------------------------------------- on the probe's graph --

  const FROM := 104729
  const TO := 15485863

  const KEYS := ["k", "j", "m", "w"]

  /** Every vertex is labelled P and has all four keys. */
  function PropsOf(i: nat): map<string, int> {
    map["k" := i % 50, "j" := i % 37, "m" := i % 11, "w" := i % 7]
  }

  function Everyone(n: nat): (r: set<nat>)
    ensures forall v: nat :: v in r <==> v < n
  {
    if n == 0 then {} else Everyone(n - 1) + {n - 1}
  }

  function Built(n: nat, deg: nat): (s: Store)
    requires n > 0
    ensures s.Valid() && s.g.order == n
  {
    Store(Fixture("E", n, FROM, TO, n * deg), Everyone(n), seq(n, i requires 0 <= i => PropsOf(i)))
  }

  /** A cell that filters by the probe's keys. */
  ghost predicate Asked(c: Cell) {
    c.Valid() && forall key | key in c.pre || key in c.post :: key in KEYS
  }

  lemma BuiltIsAlwaysTrue(n: nat, deg: nat, c: Cell)
    requires n > 0 && Asked(c)
    ensures AlwaysTrue(Built(n, deg), c)
  {
    var s := Built(n, deg);
    forall v: nat, key | v < n && key in KEYS ensures v in s.people && Holds(s, v, key) {
      assert s.props[v] == PropsOf(v);
    }
  }

  lemma {:induction false} EveryEdgeCounts(g: Graph, k: nat)
    requires k <= |g.edges| && forall i :: 0 <= i < |g.edges| ==> g.edges[i].types == {"E"}
    ensures EdgesOfType(g, "E", k) == k
  {
    if k > 0 {
      EveryEdgeCounts(g, k - 1);
    }
  }

  /** The probe's own graph, of any size and degree: every filter is always true, so every node cell must
      answer the number of vertices and every hop cell that times the degree. */
  method Build(n: nat, deg: nat) returns (s: Store)
    requires n > 0
    ensures s == Built(n, deg) && s.g.order == n && |s.g.edges| == n * deg
    ensures forall e: nat | e < n * deg :: s.g.edges[e] == Edge((e * 104729) % n, (e * 15485863) % n, {"E"})
    ensures forall c: Cell | Asked(c) ::
              && AlwaysTrue(s, c)
              && GqlCount(s, GqlOf(c)) == GrmCount(s, GrmOf(c)) == if c.hop then n * deg else n
  {
    var people: set<nat> := {};
    var props: seq<map<string, int>> := [];
    for i := 0 to n
      invariant people == Everyone(i) && props == seq(i, j requires 0 <= j => PropsOf(j))
    {
      people := people + {i};
      props := props + [map["k" := i % 50, "j" := i % 37, "m" := i % 11, "w" := i % 7]];
    }
    var edges: seq<Edge> := [];
    for e := 0 to n * deg
      invariant |edges| == e && forall i: nat | i < e :: edges[i] == EdgeAt("E", n, FROM, TO, i)
    {
      edges := edges + [Edge((e * FROM) % n, (e * TO) % n, {"E"})];
    }
    assert edges == Fixture("E", n, FROM, TO, n * deg).edges;
    s := Store(Graph(n, edges), people, props);
    forall c: Cell | Asked(c)
      ensures AlwaysTrue(s, c)
      ensures GqlCount(s, GqlOf(c)) == GrmCount(s, GrmOf(c)) == if c.hop then n * deg else n
    {
      BuiltIsAlwaysTrue(n, deg, c);
      BuiltCellAnswers(n, deg, c);
    }
  }

  lemma BuiltCellAnswers(n: nat, deg: nat, c: Cell)
    requires n > 0 && Asked(c)
    ensures GqlCount(Built(n, deg), GqlOf(c)) == GrmCount(Built(n, deg), GrmOf(c)) == if c.hop then n * deg else n
  {
    BuiltIsAlwaysTrue(n, deg, c);
    CellAnswers(Built(n, deg), c);
    EveryEdgeCounts(Built(n, deg).g, n * deg);
  }
}
