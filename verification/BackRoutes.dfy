/** The routes mirrored back into a kernel router's namespace
    (`kernelRouterBackRoutes`, src/ir.ts) and the endpoint that pairs a router
    with one (`buildKernelRouterEndpoint`, src/router-endpoints.ts). A prefix the
    namespace serves itself is never mirrored back into it. */
module BackRoutes {
  import opened Common
  import opened Network
  import opened RouteSynthesis

  /** A transit link: `left` is the OVN side, `right` the namespace side. */
  datatype TransitLink = TransitLink(left4: Option<Addr>, left6: Option<Addr>, right4: Option<Addr>,
      right6: Option<Addr>) {
    function Left(): seq<Addr> {
      Present(left4) + Present(left6)
    }

    function Right(): seq<Addr> {
      Present(right4) + Present(right6)
    }

    /** The namespace's address of one family. */
    function RightOf(f: Family): Option<Addr> {
      if f.V4? then right4 else right6
    }
  }

  function Present(a: Option<Addr>): seq<Addr> {
    if a.Some? then [a.value] else []
  }

  datatype KernelRouter = KernelRouter(
    name: string,
    leftAddrs: seq<Addr>,
    rightRoutes: seq<RouteDecl>,
    transit: string,
    transitPeerAddrs: seq<Addr>,
    routingDomains: Option<seq<RoutingDomain>>)

  /** What an author passes for a kernel endpoint. */
  datatype KernelInput = KernelInput(
    name: string,
    link: TransitLink,
    routes: seq<RouteDecl>,
    routingDomains: Option<seq<RoutingDomain>>)

  /** Every declared route is pointed at the namespace's address of its family,
      whatever `via` was declared; refused when there is none. */
  function RewriteVias(routes: seq<RouteDecl>, link: TransitLink): Result<seq<RouteDecl>, Addr> {
    if routes == [] then Success([])
    else
      var via := link.RightOf(routes[0].dst.Family());
      if via.None? then Failure(routes[0].dst)
      else
        var rest := RewriteVias(routes[1..], link);
        if rest.Failure? then rest
        else Success([routes[0].(via := Some(via.value.ip))] + rest.value)
  }

  /** The OVN endpoint and its namespace. `domains` is what the router declares,
      stamped onto the kernel router unless the endpoint has its own. */
  function BuildKernelEndpoint(routerName: string, input: KernelInput, domains: Option<seq<RoutingDomain>>)
      : Result<(Endpoint, KernelRouter), Addr>
  {
    var transit := "transit-" + routerName;
    var routes := RewriteVias(input.routes, input.link);
    if routes.Failure? then Failure(routes.error)
    else Success((
      Endpoint(input.name, Ovn, transit, input.link.Left(), routes.value, input.routingDomains),
      KernelRouter(routerName, input.link.Right(), input.routes, transit, input.link.Left(),
        if input.routingDomains.Some? then input.routingDomains else domains)))
  }

  /** The destination is kept and goes via the namespace's address of its family. */
  ghost predicate PointedHome(link: TransitLink, rt: RouteDecl, rt': RouteDecl) {
    && rt'.dst == rt.dst && rt'.securityGroups == rt.securityGroups && rt'.via.Some?
    && exists a | a in link.Right() :: link.RightOf(rt.dst.Family()) == Some(a) && a.ip == rt'.via.value
  }

  lemma RewrittenPointsHome(link: TransitLink, rt: RouteDecl)
    requires link.RightOf(rt.dst.Family()).Some?
    ensures PointedHome(link, rt, rt.(via := Some(link.RightOf(rt.dst.Family()).value.ip)))
  {
    assert link.RightOf(rt.dst.Family()).value in link.Right();
  }

  /** The rewrite keeps the destinations and points every one at the namespace. */
  lemma {:induction false} RewriteKeepsDestinations(routes: seq<RouteDecl>, link: TransitLink)
    ensures var r := RewriteVias(routes, link);
            && (r.Failure? <==> exists rt | rt in routes :: link.RightOf(rt.dst.Family()).None?)
            && (r.Success? ==>
                  && |r.value| == |routes|
                  && forall i | 0 <= i < |routes| :: PointedHome(link, routes[i], r.value[i]))
  {
    if routes != [] {
      RewriteKeepsDestinations(routes[1..], link);
      assert forall rt | rt in routes :: rt == routes[0] || rt in routes[1..];
      if link.RightOf(routes[0].dst.Family()).Some? {
        RewrittenPointsHome(link, routes[0]);
      }
    }
  }

  datatype BackRoute = BackRoute(dst: Addr, via: Ip)

  /** The namespace applies the destination on its right side already. */
  predicate RightApplies(k: KernelRouter, dst: Addr) {
    exists rt | rt in k.rightRoutes :: rt.via.Some? && rt.dst == dst
  }

  predicate OwnAddress(k: KernelRouter, ip: Ip) {
    exists a | a in k.leftAddrs :: a.ip == ip
  }

  predicate OwnDomain(k: KernelRouter, name: string) {
    k.routingDomains.Some? && exists d | d in k.routingDomains.value :: d.name == name
  }

  /** What one route node of the network gives the namespace paired with router
      `peer`. */
  function BackStep(k: KernelRouter, peer: string, n: RouteNode): seq<BackRoute> {
    if n.router != peer || !OwnDomain(k, n.domain) || OwnAddress(k, n.nexthop) || RightApplies(k, n.prefix) then []
    else
      var via := FirstOfFamily(k.transitPeerAddrs, n.prefix.Family());
      if via.None? then [] else [BackRoute(n.prefix, via.value)]
  }

  ghost function Mirrors(k: KernelRouter, peer: string): RouteNode -> seq<BackRoute> {
    n => BackStep(k, peer, n)
  }

  /** `transitPeer`: the first router with an endpoint on the transit segment. */
  method TransitPeer(k: KernelRouter, routers: seq<Router>) returns (peer: Option<Router>)
    ensures peer.None? <==> forall r | r in routers :: !OnTransit(k, r)
    ensures peer.Some? ==> exists i | 0 <= i < |routers| ::
              routers[i] == peer.value && OnTransit(k, routers[i]) && forall j | 0 <= j < i :: !OnTransit(k, routers[j])
  {
    for i := 0 to |routers|
      invariant forall j | 0 <= j < i :: !OnTransit(k, routers[j])
    {
      for j := 0 to |routers[i].endpoints|
        invariant forall m | 0 <= m < j ::
                  !(routers[i].endpoints[m].kind.Ovn? && routers[i].endpoints[m].segment == k.transit)
      {
        var e := routers[i].endpoints[j];
        if e.kind.Ovn? && e.segment == k.transit {
          assert OnTransit(k, routers[i]) && routers[i] in routers;
          return Some(routers[i]);
        }
      }
    }
    return None;
  }

  predicate OnTransit(k: KernelRouter, r: Router) {
    exists e | e in r.endpoints :: e.kind.Ovn? && e.segment == k.transit
  }

  /** `kernelRouterBackRoutes`. */
  method KernelRouterBackRoutes(k: KernelRouter, routers: seq<Router>, nodes: seq<RouteNode>)
      returns (routes: seq<BackRoute>)
    ensures (forall r | r in routers :: !OnTransit(k, r)) ==> routes == []
    ensures forall i | 0 <= i < |routers| && OnTransit(k, routers[i])
            && (forall j | 0 <= j < i :: !OnTransit(k, routers[j])) ::
              routes == FlatMap(Mirrors(k, routers[i].name), nodes)
  {
    routes := [];
    var peer := TransitPeer(k, routers);
    if peer.None? {
      return;
    }
    for i := 0 to |nodes|
      invariant routes == FlatMapTo(Mirrors(k, peer.value.name), nodes, i)
    {
      var n := nodes[i];
      if n.router != peer.value.name || !OwnDomain(k, n.domain) || OwnAddress(k, n.nexthop)
          || RightApplies(k, n.prefix) {
        continue;
      }
      var via := FirstOfFamily(k.transitPeerAddrs, n.prefix.Family());
      if via.Some? {
        routes := routes + [BackRoute(n.prefix, via.value)];
      }
    }
    FlatMapIs(Mirrors(k, peer.value.name), nodes);
  }

  // ---------------------------------------------------------------------
  // No prefix goes back to where it is declared
  // ---------------------------------------------------------------------

  /** `e` and `k` are the two sides of one transit link of router `r`, and no
      other router is on that segment. */
  ghost predicate Paired(net: Definition, r: Router, e: Endpoint, k: KernelRouter) {
    && r in net.routers && e in r.endpoints
    && (exists input :: BuildKernelEndpoint(r.name, input, r.routingDomains) == Success((e, k)))
    && (forall s | s in net.routers && OnTransit(k, s) :: s == r)
  }

  lemma PairedVia(net: Definition, r: Router, e: Endpoint, k: KernelRouter, rt: RouteDecl)
    requires Paired(net, r, e, k) && rt in e.routes
    ensures rt.via.Some? && OwnAddress(k, rt.via.value)
  {
    var input :| BuildKernelEndpoint(r.name, input, r.routingDomains) == Success((e, k));
    RewriteKeepsDestinations(input.routes, input.link);
    var i :| 0 <= i < |e.routes| && e.routes[i] == rt;
  }

  /** The namespace faces its router: the router is the one on the transit
      segment, the other side's addresses are the endpoint's, the domains are those
      the endpoint takes part in. */
  lemma PairedFaces(net: Definition, r: Router, e: Endpoint, k: KernelRouter)
    requires Paired(net, r, e, k)
    ensures OnTransit(k, r) && k.transitPeerAddrs == e.ipaddrs && e.segment == k.transit
    ensures forall name :: OwnDomain(k, name) <==> exists d | d in DomainsOf(r, e) :: d.name == name
  {
    assert e in r.endpoints && e.kind.Ovn?;
  }

  /** The domains of the namespace are those of its endpoint. */
  lemma PairedDomain(net: Definition, r: Router, e: Endpoint, k: KernelRouter, name: string) returns (d: RoutingDomain)
    requires Paired(net, r, e, k) && OwnDomain(k, name)
    ensures d in DomainsOf(r, e) && d.name == name && Participates(r, d)
  {
    d :| d in k.routingDomains.value && d.name == name;
  }

  /** Only the endpoint `e` of router `r` declares `p`. */
  ghost predicate OnlyDeclaredOn(r: Router, e: Endpoint, p: Addr) {
    EndpointDeclares(e, p) && forall e' | e' in r.endpoints && EndpointDeclares(e', p) :: e' == e
  }

  /** Some endpoint of `r` declares `dst` via `via`. */
  ghost predicate DeclaresVia(r: Router, dst: Addr, via: Ip) {
    exists e | e in r.endpoints :: exists rt | rt in e.routes :: rt.dst == dst && rt.via == Some(via)
  }

  lemma StepIsDeclared(anchor: Router, e: Endpoint, d: RoutingDomain, rt: RouteDecl, router: Router, n: RouteNode)
    requires n in AnchorStep(anchor, e, d, rt, router) && Declares(router, n.prefix)
    ensures router.name == anchor.name == n.router
    ensures n.origin == Declared && n.prefix == rt.dst && rt.via == Some(n.nexthop)
  {
  }

  lemma AnchorNodeIsDeclared(net: Definition, r: Router, n: RouteNode)
    requires net.UniqueNames() && r in net.routers && n in AnchorNodes(net) && n.router == r.name
             && Declares(r, n.prefix)
    ensures n.origin == Declared && DeclaresVia(r, n.prefix, n.nexthop)
  {
    var anchor, e, d, rt, router := AnchorNodeReason(net, n);
    AnchorStepShape(anchor, e, d, rt, router, n);
    NameIsIdentity(net, router, r);
    StepIsDeclared(anchor, e, d, rt, r, n);
    NameIsIdentity(net, anchor, r);
  }

  lemma NoExplicitNode(net: Definition, r: Router, n: RouteNode)
    requires net.UniqueNames() && r in net.routers && n in ExplicitNodes(net) && n.router == r.name
    ensures !Declares(r, n.prefix)
  {
    var d, rt, router := ExplicitNodeReason(net, n);
    NameIsIdentity(net, router, r);
  }

  /** Of the domain nodes of `r` for a prefix it declares, all are its own
      declarations: it learns none and no explicit route gives it one. */
  lemma DeclaredIsNotLearned(net: Definition, r: Router, n: RouteNode)
    requires net.UniqueNames() && r in net.routers && n in DomainNodes(net) && n.router == r.name
             && Declares(r, n.prefix)
    ensures n.origin == Declared && DeclaresVia(r, n.prefix, n.nexthop)
  {
    if n in AnchorNodes(net) {
      AnchorNodeIsDeclared(net, r, n);
    } else {
      NoExplicitNode(net, r, n);
    }
  }

  lemma OwnDeclarationIsPushed(net: Definition, r: Router, e: Endpoint, k: KernelRouter, p: Addr, name: string)
      returns (n: RouteNode)
    requires Paired(net, r, e, k) && EndpointDeclares(e, p) && OwnDomain(k, name)
    ensures n in DomainNodes(net) && n.Id() == RouteId(r.name, name, p)
  {
    var d := PairedDomain(net, r, e, k, name);
    var rt :| rt in e.routes && rt.dst == p;
    PairedVia(net, r, e, k, rt);
    n := RouteNode(r.name, p, name, rt.via.value, rt.securityGroups, MetricOf(None, d), Declared);
    AnchorNodeExists(net, n, r, e, d, rt, r);
  }

  /** In each domain of the namespace, the one surviving node for a prefix
      declared on its endpoint alone points at the namespace itself. */
  lemma SurvivorPointsHome(net: Definition, r: Router, e: Endpoint, k: KernelRouter, p: Addr, name: string)
    requires net.UniqueNames() && Paired(net, r, e, k) && OnlyDeclaredOn(r, e, p) && OwnDomain(k, name)
    ensures var id := RouteId(r.name, name, p);
            id in MergedNodes(net) && MergedNodes(net)[id].origin == Declared
                && OwnAddress(k, MergedNodes(net)[id].nexthop)
  {
    var id := RouteId(r.name, name, p);
    var own := OwnDeclarationIsPushed(net, r, e, k, p, name);
    MergeOverrides(InterconnectNodes(net), DomainNodes(net));
    MergeKeepsPushed(DomainNodes(net));
    var n := MergedNodes(net)[id];
    DeclaredIsNotLearned(net, r, n);
    var e' :| e' in r.endpoints && exists rt | rt in e'.routes :: rt.dst == n.prefix && rt.via == Some(n.nexthop);
    assert EndpointDeclares(e', p);
    var rt :| rt in e.routes && rt.dst == n.prefix && rt.via == Some(n.nexthop);
    PairedVia(net, r, e, k, rt);
  }

  /** No ping-pong on the transit link: the prefix is never mirrored back into
      the namespace, whatever order the merged nodes come in. */
  lemma NeverMirroredBack(net: Definition, r: Router, e: Endpoint, k: KernelRouter, p: Addr, nodes: seq<RouteNode>,
      b: BackRoute)
    requires net.UniqueNames() && Paired(net, r, e, k) && OnlyDeclaredOn(r, e, p)
    requires forall n :: n in nodes <==> n in MergedNodes(net).Values
    requires b in FlatMap(Mirrors(k, r.name), nodes)
    ensures b.dst != p
  {
    var n := FlatMapSource(Mirrors(k, r.name), nodes, b);
    MergeKeepsPushed(InterconnectNodes(net) + DomainNodes(net));
    assert n.Id() == RouteId(r.name, n.domain, n.prefix);
    if n.prefix == p {
      SurvivorPointsHome(net, r, e, k, p, n.domain);
    }
  }

  /** The mirrored destinations are prefixes of the router's own nodes in the
      namespace's domains; each goes to the OVN side's address of its family,
      and none is also applied on the namespace's other side. */
  lemma MirroredShape(k: KernelRouter, r: Router, nodes: seq<RouteNode>, b: BackRoute) returns (n: RouteNode)
    requires b in FlatMap(Mirrors(k, r.name), nodes)
    ensures n in nodes && n.router == r.name && OwnDomain(k, n.domain) && n.prefix == b.dst
    ensures !RightApplies(k, b.dst)
    ensures exists a | a in k.transitPeerAddrs :: a.ip == b.via && a.Family() == b.dst.Family()
  {
    n := FlatMapSource(Mirrors(k, r.name), nodes, b);
    FirstOfFamilyIsThere(k.transitPeerAddrs, n.prefix.Family());
  }

  /** `via` is the OVN side's first address of the family of `p`. */
  ghost predicate FirstVia(k: KernelRouter, p: Addr, via: Ip) {
    exists i | 0 <= i < |k.transitPeerAddrs| ::
      && k.transitPeerAddrs[i].ip == via && k.transitPeerAddrs[i].Family() == p.Family()
      && forall j | 0 <= j < i :: k.transitPeerAddrs[j].Family() != p.Family()
  }

  lemma FirstViaIs(k: KernelRouter, p: Addr, via: Ip)
    ensures FirstOfFamily(k.transitPeerAddrs, p.Family()) == Some(via) <==> FirstVia(k, p, via)
  {
    FirstOfFamilyIsThere(k.transitPeerAddrs, p.Family());
    if FirstOfFamily(k.transitPeerAddrs, p.Family()).Some? {
      var i := FirstOfFamilyIsFirst(k.transitPeerAddrs, p.Family());
    }
  }

  /** The node is one of router `peer` for `b`, in a domain of the namespace; it
      does not point at the namespace and is not applied on its other side. */
  ghost predicate Gives(k: KernelRouter, peer: string, n: RouteNode, b: BackRoute) {
    && n.router == peer && n.prefix == b.dst && FirstVia(k, b.dst, b.via)
    && k.routingDomains.Some? && (exists d | d in k.routingDomains.value :: d.name == n.domain)
    && (forall a | a in k.leftAddrs :: a.ip != n.nexthop)
    && (forall rt | rt in k.rightRoutes && rt.dst == b.dst :: rt.via.None?)
  }

  lemma StepGives(k: KernelRouter, peer: string, n: RouteNode, b: BackRoute)
    ensures b in BackStep(k, peer, n) <==> Gives(k, peer, n, b)
  {
    FirstViaIs(k, n.prefix, b.via);
  }

  /** Exactly these nodes are mirrored. */
  lemma MirroredIff(k: KernelRouter, peer: string, nodes: seq<RouteNode>, b: BackRoute)
    ensures b in FlatMap(Mirrors(k, peer), nodes) <==> exists n | n in nodes :: Gives(k, peer, n, b)
  {
    if b in FlatMap(Mirrors(k, peer), nodes) {
      var n := FlatMapSource(Mirrors(k, peer), nodes, b);
      StepGives(k, peer, n, b);
    }
    if n :| n in nodes && Gives(k, peer, n, b) {
      StepGives(k, peer, n, b);
      FlatMapReaches(Mirrors(k, peer), nodes, n, b);
    }
  }
}
