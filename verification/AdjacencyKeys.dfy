/** Adjacency by node and type: the map of maps that the graph keeps up to date edge by edge, and the same
    flattened under one joined or numbered key. */
module AdjacencyKeys {
  import opened Names
  import opened PowerOfTwo

  const NUL: char := '\0'

  function Node(i: nat): string {
    "v" + Decimal(i)
  }

  function Type(t: nat): string {
    "T" + Decimal(t)
  }

  function Joined(i: nat, t: nat): string {
    (Node(i) + [NUL]) + Type(t)
  }

  function Numbered(i: nat, t: nat, types: nat): nat {
    i * types + t
  }

  lemma {:induction false} DecimalHasNoNul(n: nat)
    ensures NUL !in Decimal(n)
  {
    if n >= 10 {
      DecimalHasNoNul(n / 10);
    }
  }

  lemma NodeInjective(i: nat, j: nat)
    ensures Node(i) == Node(j) <==> i == j
  {
    if Node(i) == Node(j) {
      assert Decimal(i) == Node(i)[1..] && Decimal(j) == Node(j)[1..];
      DecimalInjective(i, j);
    }
  }

  lemma TypeInjective(t: nat, u: nat)
    ensures Type(t) == Type(u) <==> t == u
  {
    if Type(t) == Type(u) {
      assert Decimal(t) == Type(t)[1..] && Decimal(u) == Type(u)[1..];
      DecimalInjective(t, u);
    }
  }

  /** The separator occurs in no id, so a joined key names its node and its type. */
  lemma JoinedInjective(i: nat, t: nat, j: nat, u: nat)
    ensures Joined(i, t) == Joined(j, u) <==> i == j && t == u
  {
    if Joined(i, t) == Joined(j, u) {
      DecimalHasNoNul(i);
      DecimalHasNoNul(j);
      SeparatorEndsName(Node(i), Node(j), NUL, Type(t), Type(u));
      NodeInjective(i, j);
      TypeInjective(t, u);
    }
  }

  lemma NumberedInjective(i: nat, t: nat, j: nat, u: nat, types: nat)
    requires t < types && u < types
    ensures Numbered(i, t, types) == Numbered(j, u, types) <==> i == j && t == u
  {
    if Numbered(i, t, types) == Numbered(j, u, types) {
      assert i * types == types * i && j * types == types * j;
      Remainder(Numbered(i, t, types), types, i, t);
      Remainder(Numbered(j, u, types), types, j, u);
    }
  }

  // --------------------------------------------------------- the two indexes --

  /** Lookup of a key that may be missing: m.get(key) ?? nothing. */
  function Get<K(==)>(m: map<K, set<nat>>, key: K): set<nat> {
    if key in m then m[key] else {}
  }

  /** m.get(node)?.get(type) */
  function At(m: map<string, map<string, set<nat>>>, id: string, kind: string): set<nat> {
    if id in m then Get(m[id], kind) else {}
  }

  /** The graph's own index: by node, then by type. */
  class NestedIndex {
    var byNode: map<string, map<string, set<nat>>>

    constructor ()
      ensures byNode == map[]
    {
      byNode := map[];
    }

    method Add(id: string, kind: string, edge: nat)
      modifies this
      ensures forall j: string, u: string ::
                At(byNode, j, u) == At(old(byNode), j, u) + if j == id && u == kind then {edge} else {}
    {
      var byKind: map<string, set<nat>> := if id in byNode then byNode[id] else map[];
      var edges := if kind in byKind then byKind[kind] else {};
      byNode := byNode[id := byKind[kind := edges + {edge}]];
    }

    /** A set that becomes empty goes; its node's inner map stays. */
    method Remove(id: string, kind: string, edge: nat)
      modifies this
      ensures forall j: string, u: string ::
                At(byNode, j, u) == At(old(byNode), j, u) - if j == id && u == kind then {edge} else {}
      ensures byNode.Keys == old(byNode).Keys
    {
      if id in byNode && kind in byNode[id] && edge in byNode[id][kind] {
        var edges := byNode[id][kind] - {edge};
        byNode := byNode[id := if edges == {} then byNode[id] - {kind} else byNode[id][kind := edges]];
      }
    }
  }

  /** The flattened index: one key, one lookup. */
  class KeyedIndex<K(==)> {
    var byKey: map<K, set<nat>>

    constructor ()
      ensures byKey == map[]
    {
      byKey := map[];
    }

    method Add(key: K, edge: nat)
      modifies this
      ensures forall k: K :: Get(byKey, k) == Get(old(byKey), k) + if k == key then {edge} else {}
    {
      byKey := byKey[key := Get(byKey, key) + {edge}];
    }

    method Remove(key: K, edge: nat)
      modifies this
      ensures forall k: K :: Get(byKey, k) == Get(old(byKey), k) - if k == key then {edge} else {}
    {
      var edges := Get(byKey, key) - {edge};
      byKey := if edges == {} then byKey - {key} else byKey[key := edges];
    }
  }

  // ------------------------------------------------------- any run of changes --

  /** An edge enters, or leaves, the bucket of a node and a type. */
  datatype Change = Enter(node: nat, kind: nat, edge: nat) | Leave(node: nat, kind: nat, edge: nat)

  /** What the bucket of node i and type t holds after the changes. */
  function Held(changes: seq<Change>, i: nat, t: nat): set<nat> {
    if changes == [] then {}
    else
      var c, was := changes[|changes| - 1], Held(changes[..|changes| - 1], i, t);
      if c.node != i || c.kind != t then was
      else if c.Enter? then was + {c.edge}
      else was - {c.edge}
  }

  /** Change k lets the edge in, and no later one lets it out. */
  ghost predicate StaysIn(changes: seq<Change>, k: nat, i: nat, t: nat, e: nat) {
    k < |changes| && changes[k] == Enter(i, t, e) && forall j | k < j < |changes| :: changes[j] != Leave(i, t, e)
  }

  /** An edge is held exactly when it entered and did not leave since. */
  lemma {:induction false} HeldExactlyWhen(changes: seq<Change>, i: nat, t: nat, e: nat)
    ensures e in Held(changes, i, t) <==> exists k: nat :: StaysIn(changes, k, i, t, e)
  {
    if changes != [] {
      var m := |changes| - 1;
      var front := changes[..m];
      HeldExactlyWhen(front, i, t, e);
      if changes[m] == Enter(i, t, e) {
        assert StaysIn(changes, m, i, t, e);
      } else {
        forall k: nat ensures StaysIn(changes, k, i, t, e) <==> changes[m] != Leave(i, t, e) && StaysIn(front, k, i, t, e) {
          assert forall j | 0 <= j < m :: front[j] == changes[j];
        }
      }
    }
  }

  method RunNested(changes: seq<Change>) returns (m: map<string, map<string, set<nat>>>)
    ensures forall i: nat, t: nat :: At(m, Node(i), Type(t)) == Held(changes, i, t)
  {
    var index := new NestedIndex();
    for k := 0 to |changes|
      invariant forall i: nat, t: nat :: At(index.byNode, Node(i), Type(t)) == Held(changes[..k], i, t)
    {
      var c := changes[k];
      assert changes[..k + 1][..k] == changes[..k];
      forall i: nat, t: nat ensures Node(i) == Node(c.node) && Type(t) == Type(c.kind) <==> i == c.node && t == c.kind {
        NodeInjective(i, c.node);
        TypeInjective(t, c.kind);
      }
      if c.Enter? {
        index.Add(Node(c.node), Type(c.kind), c.edge);
      } else {
        index.Remove(Node(c.node), Type(c.kind), c.edge);
      }
    }
    assert changes[..|changes|] == changes;
    m := index.byNode;
  }

  /** The joined layout answers every lookup as the map of maps does, after any changes. */
  method RunJoined(changes: seq<Change>) returns (m: map<string, set<nat>>)
    ensures forall i: nat, t: nat :: Get(m, Joined(i, t)) == Held(changes, i, t)
  {
    var index := new KeyedIndex<string>();
    for k := 0 to |changes|
      invariant forall i: nat, t: nat :: Get(index.byKey, Joined(i, t)) == Held(changes[..k], i, t)
    {
      var c := changes[k];
      assert changes[..k + 1][..k] == changes[..k];
      forall i: nat, t: nat ensures Joined(i, t) == Joined(c.node, c.kind) <==> i == c.node && t == c.kind {
        JoinedInjective(i, t, c.node, c.kind);
      }
      if c.Enter? {
        index.Add(Joined(c.node, c.kind), c.edge);
      } else {
        index.Remove(Joined(c.node, c.kind), c.edge);
      }
    }
    assert changes[..|changes|] == changes;
    m := index.byKey;
  }

  /** And so does the numbered layout, for types in range. */
  method RunNumbered(changes: seq<Change>, types: nat) returns (m: map<nat, set<nat>>)
    requires forall k :: 0 <= k < |changes| ==> changes[k].kind < types
    ensures forall i: nat, t: nat | t < types :: Get(m, Numbered(i, t, types)) == Held(changes, i, t)
  {
    var index := new KeyedIndex<nat>();
    for k := 0 to |changes|
      invariant forall i: nat, t: nat | t < types :: Get(index.byKey, Numbered(i, t, types)) == Held(changes[..k], i, t)
    {
      var c := changes[k];
      assert changes[..k + 1][..k] == changes[..k];
      forall i: nat, t: nat | t < types
        ensures Numbered(i, t, types) == Numbered(c.node, c.kind, types) <==> i == c.node && t == c.kind
      {
        NumberedInjective(i, t, c.node, c.kind, types);
      }
      if c.Enter? {
        index.Add(Numbered(c.node, c.kind, types), c.edge);
      } else {
        index.Remove(Numbered(c.node, c.kind, types), c.edge);
      }
    }
    assert changes[..|changes|] == changes;
    m := index.byKey;
  }

  // ------------------------------------------------------- the probe's fixture --

  /** One edge a node: edge i enters node i under type i mod types. */
  function Fixture(n: nat, types: nat): seq<Change>
    requires types > 0
  {
    seq(n, i requires 0 <= i => Enter(i, i % types, i))
  }

  lemma {:induction false} FixtureHeld(n: nat, types: nat, i: nat, t: nat)
    requires types > 0
    ensures Held(Fixture(n, types), i, t) == if i < n && t == i % types then {i} else {}
  {
    if n > 0 {
      FixtureHeld(n - 1, types, i, t);
      assert Fixture(n, types)[..n - 1] == Fixture(n - 1, types);
    }
  }

  method BuildNested(n: nat, types: nat) returns (m: map<string, map<string, set<nat>>>)
    requires types > 0
    ensures forall i: nat, t: nat :: At(m, Node(i), Type(t)) == Held(Fixture(n, types), i, t)
  {
    m := map[];
    for k := 0 to n
      invariant forall i: nat, t: nat :: At(m, Node(i), Type(t)) == Held(Fixture(k, types), i, t)
    {
      ghost var before := m;
      m := m[Node(k) := map[Type(k % types) := {k}]];
      forall i: nat, t: nat ensures At(m, Node(i), Type(t)) == Held(Fixture(k + 1, types), i, t) {
        FixtureHeld(k, types, i, t);
        FixtureHeld(k + 1, types, i, t);
        NodeInjective(i, k);
        TypeInjective(t, k % types);
        assert At(before, Node(i), Type(t)) == Held(Fixture(k, types), i, t);
      }
    }
  }

  method BuildJoined(n: nat, types: nat) returns (m: map<string, set<nat>>)
    requires types > 0
    ensures forall i: nat, t: nat :: Get(m, Joined(i, t)) == Held(Fixture(n, types), i, t)
  {
    m := map[];
    for k := 0 to n
      invariant forall i: nat, t: nat :: Get(m, Joined(i, t)) == Held(Fixture(k, types), i, t)
    {
      ghost var before := m;
      m := m[Joined(k, k % types) := {k}];
      JoinedGrows(before, m, k, types);
    }
  }

  lemma JoinedGrows(before: map<string, set<nat>>, m: map<string, set<nat>>, k: nat, types: nat)
    requires types > 0 && m == before[Joined(k, k % types) := {k}]
    requires forall i: nat, t: nat :: Get(before, Joined(i, t)) == Held(Fixture(k, types), i, t)
    ensures forall i: nat, t: nat :: Get(m, Joined(i, t)) == Held(Fixture(k + 1, types), i, t)
  {
    forall i: nat, t: nat ensures Get(m, Joined(i, t)) == Held(Fixture(k + 1, types), i, t) {
      FixtureHeld(k, types, i, t);
      FixtureHeld(k + 1, types, i, t);
      JoinedInjective(i, t, k, k % types);
      assert Get(before, Joined(i, t)) == Held(Fixture(k, types), i, t);
    }
  }

  /** The joined layout with its keys kept: a read makes no key, and finds in its own order what the others find. */
  method BuildPrekeyed(n: nat, types: nat) returns (m: map<string, set<nat>>, keys: seq<string>)
    requires types > 0
    ensures forall i: nat, t: nat :: Get(m, Joined(i, t)) == Held(Fixture(n, types), i, t)
    ensures |keys| == n && forall j: nat | j < n :: Get(m, keys[j]) == Held(Fixture(n, types), j, j % types) == {j}
  {
    m, keys := map[], [];
    for k := 0 to n
      invariant forall i: nat, t: nat :: Get(m, Joined(i, t)) == Held(Fixture(k, types), i, t)
      invariant |keys| == k && forall j: nat | j < k :: keys[j] == Joined(j, j % types)
    {
      ghost var before := m;
      var key := Joined(k, k % types);
      keys := keys + [key];
      m := m[key := {k}];
      JoinedGrows(before, m, k, types);
    }
    forall j: nat | j < n ensures Held(Fixture(n, types), j, j % types) == {j} {
      FixtureHeld(n, types, j, j % types);
    }
  }

  method BuildNumbered(n: nat, types: nat) returns (m: map<nat, set<nat>>)
    requires types > 0
    ensures forall i: nat, t: nat | t < types :: Get(m, Numbered(i, t, types)) == Held(Fixture(n, types), i, t)
  {
    m := map[];
    for k := 0 to n
      invariant forall i: nat, t: nat | t < types :: Get(m, Numbered(i, t, types)) == Held(Fixture(k, types), i, t)
    {
      ghost var before := m;
      m := m[Numbered(k, k % types, types) := {k}];
      forall i: nat, t: nat | t < types ensures Get(m, Numbered(i, t, types)) == Held(Fixture(k + 1, types), i, t) {
        FixtureHeld(k, types, i, t);
        FixtureHeld(k + 1, types, i, t);
        NumberedInjective(i, t, k, k % types, types);
        assert Get(before, Numbered(i, t, types)) == Held(Fixture(k, types), i, t);
      }
    }
  }
}
