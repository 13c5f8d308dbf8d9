/** The service map: services in tiers, and calls that go one tier down. */
module Topology {
  import opened Names

  datatype Tier = Edge | Api | Core | Data {
    function Depth(): nat {
      match this
      case Edge => 0
      case Api => 1
      case Core => 2
      case Data => 3
    }

    function Word(): string {
      match this
      case Edge => "edge"
      case Api => "api"
      case Core => "core"
      case Data => "data"
    }

    /** How many services of this tier a cluster has. */
    function Size(): nat {
      match this
      case Edge => 8
      case Api => 18
      case Core => 22
      case Data => 12
    }

    function Below(): Tier
      requires this != Data
    {
      TIERS[Depth() + 1]
    }
  }

  const TIERS: seq<Tier> := [Edge, Api, Core, Data]

  const CLUSTERS: seq<string> := ["prod-east", "prod-west", "staging", "tools"]

  datatype Service = Service(sid: string, name: string, cluster: string, tier: Tier)

  datatype Call = Call(cid: string, from: string, to: string, protocol: string, p95: int)

  datatype Fleet = Fleet(services: seq<Service>, calls: seq<Call>)

  function Sid(cluster: string, tier: Tier, i: nat): string {
    (cluster + ":") + (tier.Word() + "-" + Decimal(i))
  }

  function Cid(n: nat): string {
    "c" + Decimal(n)
  }

  /** An id names its cluster, its tier and its place in the tier. */
  lemma SidInjective(c: string, t: Tier, i: nat, c': string, t': Tier, i': nat)
    requires ':' !in c && ':' !in c'
    requires Sid(c, t, i) == Sid(c', t', i')
    ensures c == c' && t == t' && i == i'
  {
    var x, y := t.Word() + "-" + Decimal(i), t'.Word() + "-" + Decimal(i');
    SeparatorEndsName(c, c', ':', x, y);
    assert x[0] == t.Word()[0] && y[0] == t'.Word()[0];
    assert Decimal(i) == x[|t.Word()| + 1..] && Decimal(i') == y[|t'.Word()| + 1..];
    DecimalInjective(i, i');
  }

  lemma CidInjective(m: nat, n: nat)
    requires Cid(m) == Cid(n)
    ensures m == n
  {
    assert Decimal(m) == Cid(m)[1..] && Decimal(n) == Cid(n)[1..];
    DecimalInjective(m, n);
  }

  /** A call from service k to some service one tier down, in k's own cluster or in another one. */
  ghost predicate Goes(services: seq<Service>, call: Call, k: nat, own: bool)
    requires k < |services|
  {
    && call.from == services[k].sid
    && exists m | 0 <= m < |services| ::
        && call.to == services[m].sid
        && services[m].tier.Depth() == services[k].tier.Depth() + 1
        && (services[m].cluster == services[k].cluster) == own
  }

  /** The ids are unique, and every call joins two services, one tier down. */
  ghost predicate Layered(f: Fleet) {
    && (forall i, j | 0 <= i < |f.services| && 0 <= j < |f.services| && f.services[i].sid == f.services[j].sid :: i == j)
    && (forall i, j | 0 <= i < |f.calls| && 0 <= j < |f.calls| && f.calls[i].cid == f.calls[j].cid :: i == j)
    && forall call | call in f.calls :: exists k: nat, own | k < |f.services| :: Goes(f.services, call, k, own)
  }

  /** A path: each call starts where the one before it ended. */
  predicate IsPath(f: Fleet, p: seq<Call>) {
    && (forall i | 0 <= i < |p| :: p[i] in f.calls)
    && (forall i | 0 < i < |p| :: p[i].from == p[i - 1].to)
  }

  ghost predicate AtDepth(f: Fleet, sid: string, d: nat) {
    exists k: nat | k < |f.services| :: f.services[k].sid == sid && f.services[k].tier.Depth() == d
  }

  lemma OneDepth(f: Fleet, a: string, b: string, d: nat, e: nat)
    requires Layered(f) && AtDepth(f, a, d) && AtDepth(f, b, e)
    ensures a == b ==> d == e
  {
    var k: nat :| k < |f.services| && f.services[k].sid == a && f.services[k].tier.Depth() == d;
    var m: nat :| m < |f.services| && f.services[m].sid == b && f.services[m].tier.Depth() == e;
    assert f.services[k].sid == f.services[m].sid ==> k == m;
  }

  lemma CallDescends(f: Fleet, call: Call) returns (d: nat)
    requires Layered(f) && call in f.calls
    ensures AtDepth(f, call.from, d) && AtDepth(f, call.to, d + 1)
  {
    var k: nat, own :| k < |f.services| && Goes(f.services, call, k, own);
    d := f.services[k].tier.Depth();
    var m :| 0 <= m < |f.services| && call.to == f.services[m].sid && f.services[m].tier.Depth() == d + 1;
    assert AtDepth(f, call.to, d + 1);
  }

  /** A path of n calls ends n tiers below its start. */
  lemma {:induction false} PathDescends(f: Fleet, p: seq<Call>) returns (d: nat)
    requires Layered(f) && IsPath(f, p) && p != []
    ensures AtDepth(f, p[0].from, d) && AtDepth(f, p[|p| - 1].to, d + |p|)
  {
    var n := |p| - 1;
    var e := CallDescends(f, p[n]);
    if n == 0 {
      d := e;
    } else {
      d := PathDescends(f, p[..n]);
      assert p[n].from == p[n - 1].to;
      OneDepth(f, p[n - 1].to, p[n].from, d + n, e);
    }
  }

  /** There are four tiers, so no path is longer than three calls; and no path returns to its start. */
  lemma PathsAreShort(f: Fleet, p: seq<Call>)
    requires Layered(f) && IsPath(f, p) && p != []
    ensures |p| <= 3
    ensures p[0].from != p[|p| - 1].to
  {
    var d := PathDescends(f, p);
    OneDepth(f, p[0].from, p[|p| - 1].to, d, d + |p|);
  }
}
