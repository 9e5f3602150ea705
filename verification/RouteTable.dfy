/** One next hop per prefix: `_emit_router_routes` (deployer/ir_common.py), and
    the domain metrics the builder hands out (src/define.ts). */
module RouteTable {
  import opened Common
  import opened Network
  import opened RouteSynthesis

  /** The sort key: metric, then the text of the next hop (`text` is what a next
      hop is printed as). */
  predicate KeyLeq(text: Ip -> string, a: RouteNode, b: RouteNode) {
    a.metric < b.metric || (a.metric == b.metric && TextAtMost(text(a.nexthop), text(b.nexthop)))
  }

  predicate SameKey(text: Ip -> string, a: RouteNode, b: RouteNode) {
    a.metric == b.metric && text(a.nexthop) == text(b.nexthop)
  }

  ghost predicate SortedByKey(text: Ip -> string, s: seq<RouteNode>) {
    forall i, j | 0 <= i < j < |s| :: KeyLeq(text, s[i], s[j])
  }

  lemma KeyIsOrder(text: Ip -> string, a: RouteNode, b: RouteNode, c: RouteNode)
    ensures KeyLeq(text, a, b) || KeyLeq(text, b, a)
    ensures KeyLeq(text, a, b) && KeyLeq(text, b, a) <==> SameKey(text, a, b)
    ensures KeyLeq(text, a, b) && KeyLeq(text, b, c) ==> KeyLeq(text, a, c)
  {
    TextAtMostIsOrder(text(a.nexthop), text(b.nexthop), text(c.nexthop));
  }

  lemma InsertedIsSorted(text: Ip -> string, s: seq<RouteNode>, n: RouteNode, i: nat)
    requires SortedByKey(text, s) && i <= |s|
    requires i > 0 ==> KeyLeq(text, s[i - 1], n)
    requires i < |s| ==> KeyLeq(text, n, s[i])
    ensures SortedByKey(text, s[..i] + [n] + s[i..])
  {
    var r := s[..i] + [n] + s[i..];
    forall a, b | 0 <= a < b < |r| ensures KeyLeq(text, r[a], r[b]) {
      if b == i && a < i - 1 {
        KeyIsOrder(text, s[a], s[i - 1], n);
      } else if a == i && b > i + 1 {
        KeyIsOrder(text, n, s[i], s[b - 1]);
      }
    }
  }

  /** The nodes with the key of `k`, in order. */
  ghost function Alike(text: Ip -> string, k: RouteNode, s: seq<RouteNode>): seq<RouteNode> {
    Filter((n: RouteNode) => SameKey(text, k, n), s)
  }

  lemma AlikeOfOne(text: Ip -> string, k: RouteNode, s: seq<RouteNode>, n: RouteNode)
    ensures Alike(text, k, s + [n]) == Alike(text, k, s) + if SameKey(text, k, n) then [n] else []
  {
    FilterOfOne((m: RouteNode) => SameKey(text, k, m), s, n);
  }

  lemma AlikeAppends(text: Ip -> string, k: RouteNode, s: seq<RouteNode>, t: seq<RouteNode>)
    ensures Alike(text, k, s + t) == Alike(text, k, s) + Alike(text, k, t)
  {
    FilterAppends((m: RouteNode) => SameKey(text, k, m), s, t);
  }

  lemma {:induction false} NoneAlike(text: Ip -> string, k: RouteNode, s: seq<RouteNode>)
    requires forall m | m in s :: !SameKey(text, k, m)
    ensures Alike(text, k, s) == []
  {
    if s != [] {
      var before, last := s[..|s| - 1], s[|s| - 1];
      NoneAlike(text, k, before);
      AlikeOfOne(text, k, before, last);
      assert s == before + [last];
    }
  }

  /** Put before the first greater node, `n` comes behind all alike. */
  lemma InsertedIsLast(text: Ip -> string, s: seq<RouteNode>, n: RouteNode, i: nat, k: RouteNode)
    requires i <= |s| && forall m | m in s[i..] :: !KeyLeq(text, m, n)
    ensures Alike(text, k, s[..i] + [n] + s[i..]) == Alike(text, k, s + [n])
  {
    AlikeAppends(text, k, s[..i] + [n], s[i..]);
    AlikeOfOne(text, k, s[..i], n);
    AlikeAppends(text, k, s[..i], s[i..]);
    AlikeOfOne(text, k, s, n);
    assert s[..i] + s[i..] == s;
    if SameKey(text, k, n) {
      forall m | m in s[i..] ensures !SameKey(text, k, m) {
        KeyIsOrder(text, m, n, n);
      }
      NoneAlike(text, k, s[i..]);
    }
  }

  lemma InsertedHas(s: seq<RouteNode>, n: RouteNode, i: nat)
    requires i <= |s|
    ensures multiset(s[..i] + [n] + s[i..]) == multiset(s) + multiset{n}
  {
    assert s == s[..i] + s[i..];
  }

  method InsertByKey(text: Ip -> string, s: seq<RouteNode>, n: RouteNode) returns (r: seq<RouteNode>)
    requires SortedByKey(text, s)
    ensures SortedByKey(text, r)
    ensures multiset(r) == multiset(s) + multiset{n}
    ensures forall k :: Alike(text, k, r) == Alike(text, k, s + [n])
  {
    var i := |s|;
    while i > 0 && !KeyLeq(text, s[i - 1], n)
      invariant 0 <= i <= |s|
      invariant forall m | m in s[i..] :: !KeyLeq(text, m, n)
    {
      i := i - 1;
      assert s[i..] == [s[i]] + s[i + 1..];
    }
    r := s[..i] + [n] + s[i..];
    if i < |s| {
      assert s[i] in s[i..];
      KeyIsOrder(text, s[i], n, n);
    }
    InsertedIsSorted(text, s, n, i);
    InsertedHas(s, n, i);
    forall k ensures Alike(text, k, r) == Alike(text, k, s + [n]) {
      InsertedIsLast(text, s, n, i, k);
    }
  }

  /** The sort in place of a group: a sorted permutation of it, stable. */
  method SortByKey(text: Ip -> string, group: seq<RouteNode>) returns (sorted: seq<RouteNode>)
    ensures SortedByKey(text, sorted)
    ensures multiset(sorted) == multiset(group)
    ensures forall k :: Alike(text, k, sorted) == Alike(text, k, group)
    ensures forall m :: m in sorted <==> m in group
  {
    sorted := [];
    for i := 0 to |group|
      invariant SortedByKey(text, sorted)
      invariant multiset(sorted) == multiset(group[..i])
      invariant forall k :: Alike(text, k, sorted) == Alike(text, k, group[..i])
    {
      assert group[..i + 1] == group[..i] + [group[i]];
      forall k ensures Alike(text, k, sorted + [group[i]]) == Alike(text, k, group[..i + 1]) {
        AlikeOfOne(text, k, sorted, group[i]);
        AlikeOfOne(text, k, group[..i], group[i]);
      }
      sorted := InsertByKey(text, sorted, group[i]);
    }
    assert group[..|group|] == group;
    forall m ensures m in sorted <==> m in group {
      assert m in multiset(sorted) <==> m in multiset(group);
    }
  }

  /** The groups by prefix, and the prefixes in the order they first appear. */
  method GroupByPrefix(routes: seq<RouteNode>) returns (order: seq<Addr>, groups: map<Addr, seq<RouteNode>>)
    ensures forall i, j | 0 <= i < j < |order| :: order[i] != order[j]
    ensures forall p :: p in order <==> p in groups
    ensures forall p | p in groups :: groups[p] != []
    ensures forall p, n | p in groups :: n in groups[p] <==> n in routes && n.prefix == p
    ensures forall n | n in routes :: n.prefix in groups
  {
    order, groups := [], map[];
    for i := 0 to |routes|
      invariant forall i, j | 0 <= i < j < |order| :: order[i] != order[j]
      invariant forall p :: p in order <==> p in groups
      invariant forall p | p in groups :: groups[p] != []
      invariant forall p, n | p in groups :: n in groups[p] <==> n in routes[..i] && n.prefix == p
      invariant forall n | n in routes[..i] :: n.prefix in groups
    {
      var n := routes[i];
      assert routes[..i + 1] == routes[..i] + [n];
      if n.prefix in groups {
        groups := groups[n.prefix := groups[n.prefix] + [n]];
      } else {
        order := order + [n.prefix];
        groups := groups[n.prefix := [n]];
      }
    }
    assert routes[..|routes|] == routes;
  }

  /** `n` has the lowest metric of its prefix. */
  ghost predicate Lowest(routes: seq<RouteNode>, n: RouteNode) {
    n in routes && forall m | m in routes && m.prefix == n.prefix :: n.metric <= m.metric
  }

  /** Two next hops at the lowest metric of one prefix. */
  ghost predicate Ambiguous(routes: seq<RouteNode>, p: Addr) {
    exists a, b | Lowest(routes, a) && Lowest(routes, b) :: a.prefix == p && b.prefix == p && a.nexthop != b.nexthop
  }

  /** The routes installed: one per prefix, of lowest metric. */
  ghost predicate IsTable(routes: seq<RouteNode>, best: seq<RouteNode>) {
    && (forall i, j | 0 <= i < j < |best| :: best[i].prefix != best[j].prefix)
    && (forall b | b in best :: Lowest(routes, b))
    && (forall n | n in routes :: exists b | b in best :: b.prefix == n.prefix)
  }

  /** The best node of one group, or a refusal when its lowest metric has two
      next hops. */
  method BestOfGroup(text: Ip -> string, routes: seq<RouteNode>, group: seq<RouteNode>, p: Addr)
    returns (best: RouteNode, ambiguous: bool)
    requires group != [] && forall n :: n in group <==> n in routes && n.prefix == p
    ensures Lowest(routes, best) && best.prefix == p
    ensures ambiguous <==> Ambiguous(routes, p)
  {
    var sorted := SortByKey(text, group);
    assert group[0] in sorted;
    best := sorted[0];
    assert best in sorted;
    assert forall m | m in routes && m.prefix == p :: best.metric <= m.metric by {
      forall m | m in routes && m.prefix == p ensures best.metric <= m.metric {
        assert m in sorted;
        var i :| 0 <= i < |sorted| && sorted[i] == m;
      }
    }
    var nexthops := set n | n in sorted && n.metric == best.metric :: n.nexthop;
    assert best.nexthop in nexthops;
    ambiguous := nexthops != {best.nexthop};
    if ambiguous {
      var other :| other in nexthops && other != best.nexthop;
      var m :| m in sorted && m.metric == best.metric && m.nexthop == other;
      assert Lowest(routes, m);
    } else {
      forall a, b | Lowest(routes, a) && Lowest(routes, b) && a.prefix == p && b.prefix == p
        ensures a.nexthop == b.nexthop
      {
        assert a in sorted && b in sorted;
        assert a.nexthop in nexthops && b.nexthop in nexthops;
      }
    }
  }

  /** One unambiguous lowest node was chosen for each of the first `n` prefixes. */
  ghost predicate Chosen(routes: seq<RouteNode>, order: seq<Addr>, best: seq<RouteNode>, n: nat) {
    n == |best| <= |order| && forall k | 0 <= k < n ::
        best[k].prefix == order[k] && Lowest(routes, best[k]) && !Ambiguous(routes, order[k])
  }

  lemma ChosenIsTable(routes: seq<RouteNode>, order: seq<Addr>, best: seq<RouteNode>)
    requires Chosen(routes, order, best, |order|)
    requires forall i, j | 0 <= i < j < |order| :: order[i] != order[j]
    requires forall n | n in routes :: n.prefix in order
    ensures IsTable(routes, best) && forall p :: !Ambiguous(routes, p)
  {
    forall n | n in routes ensures exists b | b in best :: b.prefix == n.prefix {
      var k :| 0 <= k < |order| && order[k] == n.prefix;
      assert best[k] in best;
    }
    forall p ensures !Ambiguous(routes, p) {
      if p in order {
        var k :| 0 <= k < |order| && order[k] == p;
      }
    }
  }

  /** `_emit_router_routes` refuses exactly when some prefix has two next hops at
      its lowest metric, and otherwise installs one lowest-metric route per
      prefix and no other. */
  method EmitRouterRoutes(text: Ip -> string, routes: seq<RouteNode>)
    returns (res: Result<seq<RouteNode>, Addr>)
    ensures res.Failure? <==> exists p :: Ambiguous(routes, p)
    ensures res.Failure? ==> Ambiguous(routes, res.error)
    ensures res.Success? ==> IsTable(routes, res.value)
  {
    var order, groups := GroupByPrefix(routes);
    var best: seq<RouteNode> := [];
    for i := 0 to |order|
      invariant Chosen(routes, order, best, i)
    {
      var p := order[i];
      assert p in order;
      var b, ambiguous := BestOfGroup(text, routes, groups[p], p);
      if ambiguous {
        return Failure(p);
      }
      best := best + [b];
    }
    ChosenIsTable(routes, order, best);
    return Success(best);
  }

  /** The effect on the router: next hops by prefix. */
  ghost function Installed(best: seq<RouteNode>): set<(Addr, Ip)> {
    set b | b in best :: (b.prefix, b.nexthop)
  }

  lemma LowestIgnoresOrder(routes: seq<RouteNode>, routes': seq<RouteNode>, n: RouteNode)
    requires forall m :: m in routes <==> m in routes'
    ensures Lowest(routes, n) <==> Lowest(routes', n)
  {
  }

  lemma SamePrefixSameNexthop(routes: seq<RouteNode>, b: RouteNode, routes': seq<RouteNode>, best': seq<RouteNode>)
    requires forall n :: n in routes <==> n in routes'
    requires Lowest(routes, b) && IsTable(routes', best') && !Ambiguous(routes, b.prefix)
    ensures (b.prefix, b.nexthop) in Installed(best')
  {
    assert b in routes';
    var b' :| b' in best' && b'.prefix == b.prefix;
    LowestIgnoresOrder(routes, routes', b');
  }

  lemma InstalledWithin(routes: seq<RouteNode>, best: seq<RouteNode>, routes': seq<RouteNode>, best': seq<RouteNode>)
    requires forall n :: n in routes <==> n in routes'
    requires IsTable(routes, best) && IsTable(routes', best')
    requires forall p :: !Ambiguous(routes, p)
    ensures Installed(best) <= Installed(best')
  {
    forall b | b in best ensures (b.prefix, b.nexthop) in Installed(best') {
      SamePrefixSameNexthop(routes, b, routes', best');
    }
  }

  lemma AmbiguityIgnoresOrder(routes: seq<RouteNode>, routes': seq<RouteNode>, p: Addr)
    requires forall n :: n in routes <==> n in routes'
    requires Ambiguous(routes', p)
    ensures Ambiguous(routes, p)
  {
    var x, y :| Lowest(routes', x) && Lowest(routes', y) && x.prefix == p && y.prefix == p && x.nexthop != y.nexthop;
    LowestIgnoresOrder(routes, routes', x);
    LowestIgnoresOrder(routes, routes', y);
  }

  lemma NoneAmbiguousEither(routes: seq<RouteNode>, routes': seq<RouteNode>)
    requires forall n :: n in routes <==> n in routes'
    requires forall p :: !Ambiguous(routes, p)
    ensures forall p :: !Ambiguous(routes', p)
  {
    forall p | Ambiguous(routes', p) ensures Ambiguous(routes, p) {
      AmbiguityIgnoresOrder(routes, routes', p);
    }
  }

  /** The table depends on which nodes there are, not on their order or on
      repetition. */
  lemma TableIgnoresOrder(routes: seq<RouteNode>, best: seq<RouteNode>, routes': seq<RouteNode>, best': seq<RouteNode>)
    requires forall n :: n in routes <==> n in routes'
    requires IsTable(routes, best) && IsTable(routes', best')
    requires forall p :: !Ambiguous(routes, p)
    ensures Installed(best) == Installed(best')
  {
    NoneAmbiguousEither(routes, routes');
    InstalledWithin(routes, best, routes', best');
    InstalledWithin(routes', best', routes, best);
  }

  // ---------------------------------------------------------------------
  // Metrics
  // ---------------------------------------------------------------------

  /** No two domains have one metric, and no explicit route overrides it. */
  ghost predicate DistinctMetrics(net: Definition) {
    && (forall d, d' | d in net.domains && d' in net.domains && d != d' :: MetricOf(None, d) != MetricOf(None, d'))
    && (forall d, rt | d in net.domains && rt in d.routes :: rt.metric == None)
  }

  lemma AnchorReasonMetric(net: Definition, n: RouteNode, anchor: Router, e: Endpoint, d: RoutingDomain,
      rt: RouteDecl, router: Router)
    requires net.DomainsRegistered() && AnchorReason(net, n, anchor, e, d, rt, router)
    ensures d in net.domains && n.domain == d.name && n.metric == MetricOf(None, d)
  {
    DomainRegistered(net, anchor, e, d);
    AnchorStepShape(anchor, e, d, rt, router, n);
  }

  lemma AnchorNodeMetric(net: Definition, n: RouteNode) returns (d: RoutingDomain)
    requires net.DomainsRegistered() && n in AnchorNodes(net)
    ensures d in net.domains && n.domain == d.name && n.metric == MetricOf(None, d)
  {
    var anchor, e, d', rt, router := AnchorNodeReason(net, n);
    AnchorReasonMetric(net, n, anchor, e, d', rt, router);
    d := d';
  }

  lemma ExplicitNodeMetric(net: Definition, n: RouteNode) returns (d: RoutingDomain)
    requires DistinctMetrics(net) && n in ExplicitNodes(net)
    ensures d in net.domains && n.domain == d.name && n.metric == MetricOf(None, d)
  {
    var d', rt, router := ExplicitNodeReason(net, n);
    d := d';
  }

  lemma InterconnectNodeMetric(net: Definition, n: RouteNode) returns (d: RoutingDomain)
    requires n in InterconnectNodes(net)
    ensures d in net.domains && n.domain == d.name && n.metric == MetricOf(None, d)
  {
    var d', r1, r2, near, side, nexthop, other, a := InterconnectNodeReason(net, n);
    d := d';
  }

  /** Every node carries the metric of the domain it names. */
  lemma NodeMetric(net: Definition, n: RouteNode) returns (d: RoutingDomain)
    requires net.DomainsRegistered() && DistinctMetrics(net)
    requires n in InterconnectNodes(net) + DomainNodes(net)
    ensures d in net.domains && n.domain == d.name && n.metric == MetricOf(None, d)
  {
    if n in InterconnectNodes(net) {
      d := InterconnectNodeMetric(net, n);
    } else if n in AnchorNodes(net) {
      d := AnchorNodeMetric(net, n);
    } else {
      d := ExplicitNodeMetric(net, n);
    }
  }

  /** With distinct domain metrics no router's routes are ever refused: an id
      allows one node per router, domain and prefix. */
  lemma DistinctMetricsNeverRefuse(net: Definition, router: string, routes: seq<RouteNode>, p: Addr)
    requires net.DomainsRegistered() && DistinctMetrics(net)
    requires forall n | n in routes :: n in MergedNodes(net).Values && n.router == router
    ensures !Ambiguous(routes, p)
  {
    MergeKeepsPushed(InterconnectNodes(net) + DomainNodes(net));
    forall a, b | Lowest(routes, a) && Lowest(routes, b) && a.prefix == p && b.prefix == p
      ensures a.nexthop == b.nexthop
    {
      var da := NodeMetric(net, a);
      var db := NodeMetric(net, b);
      assert a.Id() == b.Id();
    }
  }

  /** The part of the network builder that declares routing domains. */
  class NetworkBuilder {
    var domains: map<string, RoutingDomain>
    var nextRoutingDomainMetric: real

    constructor ()
      ensures domains == map[] && nextRoutingDomainMetric == 400.0
    {
      domains := map[];
      nextRoutingDomainMetric := 400.0;
    }

    /** `routingDomain`: refuses a second domain of one name; an automatic
        metric is the next one. */
    method DeclareRoutingDomain(name: string, routes: seq<DomainRoute>, metric: Option<real>)
        returns (res: Result<RoutingDomain, string>)
      modifies this
      ensures (domains, nextRoutingDomainMetric) ==
              Declare(old(domains), old(nextRoutingDomainMetric), Decl(name, routes, metric))
      ensures res.Failure? <==> name in old(domains)
      ensures res.Failure? ==> domains == old(domains) && nextRoutingDomainMetric == old(nextRoutingDomainMetric)
      ensures res.Success? ==>
                && res.value.name == name && res.value.routes == routes
                && res.value.metric == Some(if metric.Some? then metric.value else old(nextRoutingDomainMetric))
                && domains == old(domains)[name := res.value]
                && nextRoutingDomainMetric == 1.0 + Larger(old(nextRoutingDomainMetric), res.value.metric.value)
    {
      if name in domains {
        return Failure(name);
      }
      var m := if metric.Some? then metric.value else nextRoutingDomainMetric;
      nextRoutingDomainMetric := Larger(nextRoutingDomainMetric, m) + 1.0;
      var domain := RoutingDomain(name, routes, Some(m));
      domains := domains[name := domain];
      return Success(domain);
    }
  }

  function Larger(x: real, y: real): (m: real)
    ensures m in {x, y} && x <= m && y <= m
  {
    if x < y then y else x
  }

  datatype Decl = Decl(name: string, routes: seq<DomainRoute>, metric: Option<real>)

  function Declare(domains: map<string, RoutingDomain>, next: real, decl: Decl): (map<string, RoutingDomain>, real) {
    if decl.name in domains then (domains, next)
    else
      var m := if decl.metric.Some? then decl.metric.value else next;
      (domains[decl.name := RoutingDomain(decl.name, decl.routes, Some(m))], Larger(next, m) + 1.0)
  }

  function DeclareAll(decls: seq<Decl>): (map<string, RoutingDomain>, real) {
    if decls == [] then (map[], 400.0)
    else
      var (domains, next) := DeclareAll(decls[..|decls| - 1]);
      Declare(domains, next, decls[|decls| - 1])
  }

  /** The first declaration of a name is the domain of that name: its routes, its
      metric if it has one, and else the one that was next when it came. */
  lemma {:induction false} DeclarationIsKept(decls: seq<Decl>, i: nat)
    requires i < |decls| && forall j | 0 <= j < i :: decls[j].name != decls[i].name
    ensures var domains := DeclareAll(decls).0;
            && decls[i].name in domains && domains[decls[i].name].routes == decls[i].routes
            && (decls[i].metric.Some? ==> domains[decls[i].name].metric == decls[i].metric)
            && (decls[i].metric.None? ==> domains[decls[i].name].metric == Some(DeclareAll(decls[..i]).1))
            && (decls[i].metric.None? && i == 0 ==> domains[decls[i].name].metric == Some(400.0))
  {
    var before := decls[..|decls| - 1];
    if i == |before| {
      NotDeclaredYet(before, decls[i].name);
    } else {
      DeclarationIsKept(before, i);
      assert before[..i] == decls[..i];
    }
  }

  lemma {:induction false} NotDeclaredYet(decls: seq<Decl>, name: string)
    ensures name in DeclareAll(decls).0 <==> exists j | 0 <= j < |decls| :: decls[j].name == name
  {
    if decls != [] {
      NotDeclaredYet(decls[..|decls| - 1], name);
    }
  }

  /** Every metric handed out is below the next one. */
  ghost predicate Below(domains: map<string, RoutingDomain>, next: real) {
    forall name | name in domains ::
      domains[name].name == name && domains[name].metric.Some? && domains[name].metric.value < next
  }

  ghost predicate Distinct(domains: map<string, RoutingDomain>) {
    forall x, y | x in domains && y in domains && x != y :: domains[x].metric != domains[y].metric
  }

  lemma DeclareKeepsBelow(domains: map<string, RoutingDomain>, next: real, decl: Decl)
    requires Below(domains, next)
    ensures var (domains', next') := Declare(domains, next, decl); Below(domains', next') && next <= next'
  {
  }

  lemma AutomaticMetricIsNew(domains: map<string, RoutingDomain>, next: real, decl: Decl)
    requires Below(domains, next) && Distinct(domains) && decl.metric == None
    ensures Distinct(Declare(domains, next, decl).0)
  {
    var domains' := Declare(domains, next, decl).0;
    forall x, y | x in domains' && y in domains' && x != y ensures domains'[x].metric != domains'[y].metric {
      assert x in domains || domains'[x].metric == Some(next);
      assert y in domains || domains'[y].metric == Some(next);
    }
  }

  /** The next metric exceeds every metric handed out, so an automatic metric is
      greater than all before it, whatever was declared. */
  lemma {:induction false} NextMetricExceedsAll(decls: seq<Decl>)
    ensures Below(DeclareAll(decls).0, DeclareAll(decls).1)
  {
    if decls != [] {
      NextMetricExceedsAll(decls[..|decls| - 1]);
      var (domains, next) := DeclareAll(decls[..|decls| - 1]);
      DeclareKeepsBelow(domains, next, decls[|decls| - 1]);
    }
  }

  /** Declarations that leave every metric out give domains of distinct
      metrics. */
  lemma {:induction false} AutomaticMetricsAreDistinct(decls: seq<Decl>)
    requires forall decl | decl in decls :: decl.metric == None
    ensures Distinct(DeclareAll(decls).0)
  {
    if decls != [] {
      var before := decls[..|decls| - 1];
      assert forall decl | decl in before :: decl in decls;
      AutomaticMetricsAreDistinct(before);
      NextMetricExceedsAll(before);
      var (domains, next) := DeclareAll(before);
      AutomaticMetricIsNew(domains, next, decls[|decls| - 1]);
    }
  }

  /** A network whose domains were all declared without a metric, and without
      per-route metrics, deploys: no router is refused. */
  lemma AutomaticMetricsNeverRefuse(net: Definition, decls: seq<Decl>, router: string, routes: seq<RouteNode>, p: Addr)
    requires net.DomainsRegistered()
    requires forall decl | decl in decls :: decl.metric == None
    requires forall d :: d in net.domains <==> d.name in DeclareAll(decls).0 && DeclareAll(decls).0[d.name] == d
    requires forall d, rt | d in net.domains && rt in d.routes :: rt.metric == None
    requires forall n | n in routes :: n in MergedNodes(net).Values && n.router == router
    ensures !Ambiguous(routes, p)
  {
    AutomaticMetricsAreDistinct(decls);
    NextMetricExceedsAll(decls);
    forall d, d' | d in net.domains && d' in net.domains && d != d' ensures MetricOf(None, d) != MetricOf(None, d') {
      var domains := DeclareAll(decls).0;
      assert domains[d.name] == d && domains[d'.name] == d';
      assert d.metric != d'.metric;
    }
    DistinctMetricsNeverRefuse(net, router, routes, p);
  }
}
