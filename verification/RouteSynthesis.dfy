/** Route nodes from routers and routing domains: `computeRoutes`,
    `computeInterconnectRoutes` and the merge by id in `toIR` (src/ir.ts).
    The nests of loops are methods; each computes the concatenation its
    specification function names, and the lemmas say which routes exist. */
module RouteSynthesis {
  import opened Common
  import opened Network

  /** Where a route node comes from. Only the model carries it: `owner` is the
      name of the router whose address the next hop is. A declared route keeps
      the author's own `via`, which may belong to nobody here. */
  datatype Origin =
    | Declared
    | Learned(owner: string)
    | Explicit(owner: string)
    | Interconnect(owner: string)

  datatype RouteNode = RouteNode(
    router: string,
    prefix: Addr,
    domain: string,
    nexthop: Ip,
    securityGroups: seq<string>,
    metric: real,
    origin: Origin)
  {
    function Id(): RouteId {
      RouteId(router, domain, prefix)
    }

    /** What `routeToIR` refuses otherwise. */
    predicate FamiliesAgree() {
      prefix.Family() == nexthop.family
    }
  }

  datatype RouteId = RouteId(router: string, domain: string, prefix: Addr)

  function MetricOf(own: Option<real>, domain: RoutingDomain): real {
    if own.Some? then own.value
    else if domain.metric.Some? then domain.metric.value
    else 400.0
  }

  // ---------------------------------------------------------------------
  // The next hop toward an anchor
  // ---------------------------------------------------------------------

  /** The first of `addrs` of the family of `dst`. */
  function FirstOfFamily(addrs: seq<Addr>, f: Family): Option<Ip> {
    if addrs == [] then None
    else if addrs[0].Family() == f then Some(addrs[0].ip)
    else FirstOfFamily(addrs[1..], f)
  }

  /** `anchorAddressSharedWith`: the anchor router's own address, of the family
      of `dst`, on the first of its other endpoints that shares a segment with
      `router`. */
  function AnchorAddress(router: Router, candidates: seq<Endpoint>, anchor: Endpoint, dst: Addr): Option<Ip> {
    if candidates == [] then None
    else
      var c := candidates[0];
      var here :=
        if c == anchor || !(exists e | e in router.endpoints :: SharesSegment(e, c)) then None
        else FirstOfFamily(c.ipaddrs, dst.Family());
      if here.Some? then here else AnchorAddress(router, candidates[1..], anchor, dst)
  }

  lemma {:induction false} FirstOfFamilyIsThere(addrs: seq<Addr>, f: Family)
    ensures var r := FirstOfFamily(addrs, f);
            && (r.Some? ==> exists a | a in addrs :: a.Family() == f && a.ip == r.value)
            && (r.None? ==> forall a | a in addrs :: a.Family() != f)
  {
    if addrs != [] && addrs[0].Family() != f {
      FirstOfFamilyIsThere(addrs[1..], f);
      assert forall a | a in addrs :: a == addrs[0] || a in addrs[1..];
    }
  }

  /** The address found is one of the anchor router's, of the right family, on
      a segment both routers are on; and none is found only if there is none. */
  lemma {:induction false} AnchorAddressIsShared(router: Router, candidates: seq<Endpoint>, anchor: Endpoint, dst: Addr)
    ensures var r := AnchorAddress(router, candidates, anchor, dst);
            && (r.Some? ==> exists c, e, a | c in candidates && e in router.endpoints && a in c.ipaddrs ::
                  c != anchor && SharesSegment(e, c) && a.Family() == dst.Family() && a.ip == r.value)
            && (r.None? ==> forall c, e, a | c in candidates && e in router.endpoints && a in c.ipaddrs ::
                  c == anchor || !SharesSegment(e, c) || a.Family() != dst.Family())
  {
    if candidates != [] {
      FirstOfFamilyIsThere(candidates[0].ipaddrs, dst.Family());
      AnchorAddressIsShared(router, candidates[1..], anchor, dst);
      assert forall c | c in candidates :: c == candidates[0] || c in candidates[1..];
    }
  }

  /** Another endpoint of the anchor's, facing `router`, with an address of the
      family of `dst`. */
  predicate Suitable(router: Router, c: Endpoint, anchor: Endpoint, dst: Addr) {
    && c != anchor && (exists e | e in router.endpoints :: SharesSegment(e, c))
    && exists a | a in c.ipaddrs :: a.Family() == dst.Family()
  }

  lemma {:induction false} FirstOfFamilyIsFirst(addrs: seq<Addr>, f: Family) returns (k: nat)
    requires FirstOfFamily(addrs, f).Some?
    ensures k < |addrs| && addrs[k].Family() == f && FirstOfFamily(addrs, f) == Some(addrs[k].ip)
    ensures forall m | 0 <= m < k :: addrs[m].Family() != f
  {
    if addrs[0].Family() == f {
      k := 0;
    } else {
      k := FirstOfFamilyIsFirst(addrs[1..], f);
      k := k + 1;
    }
  }

  /** The first suitable endpoint in order wins, and the first address of the
      family on it; none is found only if no endpoint is suitable. */
  lemma {:induction false} AnchorAddressIsFirst(router: Router, candidates: seq<Endpoint>, anchor: Endpoint, dst: Addr)
    returns (i: nat, k: nat)
    ensures var r := AnchorAddress(router, candidates, anchor, dst);
            if r.None? then forall c | c in candidates :: !Suitable(router, c, anchor, dst)
            else
              && i < |candidates| && Suitable(router, candidates[i], anchor, dst)
              && (forall j | 0 <= j < i :: !Suitable(router, candidates[j], anchor, dst))
              && k < |candidates[i].ipaddrs| && r.value == candidates[i].ipaddrs[k].ip
              && candidates[i].ipaddrs[k].Family() == dst.Family()
              && forall m | 0 <= m < k :: candidates[i].ipaddrs[m].Family() != dst.Family()
  {
    i, k := 0, 0;
    if candidates != [] {
      var c := candidates[0];
      FirstOfFamilyIsThere(c.ipaddrs, dst.Family());
      if Suitable(router, c, anchor, dst) {
        k := FirstOfFamilyIsFirst(c.ipaddrs, dst.Family());
      } else {
        i, k := AnchorAddressIsFirst(router, candidates[1..], anchor, dst);
        i := i + 1;
        assert forall c | c in candidates :: c == candidates[0] || c in candidates[1..];
      }
    }
  }

  // ---------------------------------------------------------------------
  // Anchor routes
  // ---------------------------------------------------------------------

  /** What one declared route gives one participant of its domain. */
  function AnchorStep(anchor: Router, e: Endpoint, d: RoutingDomain, rt: RouteDecl, router: Router): seq<RouteNode> {
    var metric := MetricOf(None, d);
    if router.name == anchor.name then
      if rt.via.None? then []
      else [RouteNode(router.name, rt.dst, d.name, rt.via.value, rt.securityGroups, metric, Declared)]
    else
      var nexthop := AnchorAddress(router, anchor.endpoints, e, rt.dst);
      if nexthop.None? || Declares(router, rt.dst) then []
      else [RouteNode(router.name, rt.dst, d.name, nexthop.value, rt.securityGroups, metric, Learned(anchor.name))]
  }

  lemma AnchorStepShape(anchor: Router, e: Endpoint, d: RoutingDomain, rt: RouteDecl, router: Router, n: RouteNode)
    requires n in AnchorStep(anchor, e, d, rt, router)
    ensures n.router == router.name && n.prefix == rt.dst && n.domain == d.name && n.metric == MetricOf(None, d)
  {
  }

  ghost function PerParticipant(anchor: Router, e: Endpoint, d: RoutingDomain,
      rt: RouteDecl): Router -> seq<RouteNode> {
    router => AnchorStep(anchor, e, d, rt, router)
  }

  ghost function PerRoute(net: Definition, anchor: Router, e: Endpoint, d: RoutingDomain): RouteDecl -> seq<RouteNode> {
    rt => FlatMap(PerParticipant(anchor, e, d, rt), Participants(net, d))
  }

  ghost function PerDomain(net: Definition, anchor: Router, e: Endpoint): RoutingDomain -> seq<RouteNode> {
    d => FlatMap(PerRoute(net, anchor, e, d), e.routes)
  }

  ghost function PerEndpoint(net: Definition, anchor: Router): Endpoint -> seq<RouteNode> {
    e => FlatMap(PerDomain(net, anchor, e), DomainsOf(anchor, e))
  }

  ghost function PerAnchor(net: Definition): Router -> seq<RouteNode> {
    anchor => FlatMap(PerEndpoint(net, anchor), anchor.endpoints)
  }

  /** The nodes the anchor loops push, in order. */
  ghost function AnchorNodes(net: Definition): seq<RouteNode> {
    FlatMap(PerAnchor(net), net.routers)
  }

  /** The loop over the participants of one domain that learn one declared route. */
  method ParticipantRoutes(anchor: Router, e: Endpoint, d: RoutingDomain, rt: RouteDecl, participants: seq<Router>)
    returns (nodes: seq<RouteNode>)
    ensures nodes == FlatMap(PerParticipant(anchor, e, d, rt), participants)
  {
    nodes := [];
    for k := 0 to |participants|
      invariant nodes == FlatMapTo(PerParticipant(anchor, e, d, rt), participants, k)
    {
      var router := participants[k];
      if router.name == anchor.name {
        if rt.via.Some? {
          nodes := nodes + [RouteNode(router.name, rt.dst, d.name, rt.via.value, rt.securityGroups,
              MetricOf(None, d), Declared)];
        }
      } else {
        var nexthop := AnchorAddress(router, anchor.endpoints, e, rt.dst);
        if nexthop.Some? && !Declares(router, rt.dst) {
          nodes := nodes + [RouteNode(router.name, rt.dst, d.name, nexthop.value, rt.securityGroups,
              MetricOf(None, d), Learned(anchor.name))];
        }
      }
    }
    FlatMapIs(PerParticipant(anchor, e, d, rt), participants);
  }

  /** The loops over the domains and routes of one anchor endpoint. An endpoint
      without routes is skipped. */
  method AnchorEndpointRoutes(net: Definition, anchor: Router, e: Endpoint) returns (nodes: seq<RouteNode>)
    ensures nodes == PerEndpoint(net, anchor)(e)
  {
    nodes := [];
    var domains := DomainsOf(anchor, e);
    if |e.routes| == 0 {
      NoRoutesNoNodes(net, anchor, e, domains, |domains|);
      FlatMapIs(PerDomain(net, anchor, e), domains);
      return;
    }
    for i := 0 to |domains|
      invariant nodes == FlatMapTo(PerDomain(net, anchor, e), domains, i)
    {
      var d := domains[i];
      var participants := Participants(net, d);
      ghost var before := nodes;
      for j := 0 to |e.routes|
        invariant nodes == Pushed(before, PerRoute(net, anchor, e, d), e.routes, j)
      {
        var more := ParticipantRoutes(anchor, e, d, e.routes[j], participants);
        nodes := nodes + more;
      }
      PushedIsAppended(before, PerRoute(net, anchor, e, d), e.routes, |e.routes|);
      FlatMapIs(PerRoute(net, anchor, e, d), e.routes);
    }
    FlatMapIs(PerDomain(net, anchor, e), domains);
  }

  /** The loop over the endpoints of one anchor router. */
  method AnchorRouterRoutes(net: Definition, anchor: Router) returns (nodes: seq<RouteNode>)
    ensures nodes == PerAnchor(net)(anchor)
  {
    nodes := [];
    for j := 0 to |anchor.endpoints|
      invariant nodes == FlatMapTo(PerEndpoint(net, anchor), anchor.endpoints, j)
    {
      var more := AnchorEndpointRoutes(net, anchor, anchor.endpoints[j]);
      nodes := nodes + more;
    }
    FlatMapIs(PerEndpoint(net, anchor), anchor.endpoints);
  }

  method AnchorRoutes(net: Definition) returns (nodes: seq<RouteNode>)
    ensures nodes == AnchorNodes(net)
  {
    nodes := [];
    for i := 0 to |net.routers|
      invariant nodes == FlatMapTo(PerAnchor(net), net.routers, i)
    {
      var more := AnchorRouterRoutes(net, net.routers[i]);
      nodes := nodes + more;
    }
    FlatMapIs(PerAnchor(net), net.routers);
  }

  lemma {:induction false} NoRoutesNoNodes(net: Definition, anchor: Router, e: Endpoint, domains: seq<RoutingDomain>,
      n: nat)
    requires e.routes == [] && n <= |domains|
    ensures FlatMapTo(PerDomain(net, anchor, e), domains, n) == []
  {
    if n > 0 {
      NoRoutesNoNodes(net, anchor, e, domains, n - 1);
      FlatMapIs(PerRoute(net, anchor, e, domains[n - 1]), e.routes);
    }
  }

  // ---------------------------------------------------------------------
  // Explicit domain routes
  // ---------------------------------------------------------------------

  /** `ownsDst`: the first endpoint connected to the destination. */
  function OwningEndpoint(endpoints: seq<Endpoint>, dst: Addr): Option<Endpoint> {
    if endpoints == [] then None
    else if EndpointOwns(endpoints[0], dst) then Some(endpoints[0])
    else OwningEndpoint(endpoints[1..], dst)
  }

  function OwningParticipant(participants: seq<Router>, except: string, dst: Addr): Option<Router> {
    if participants == [] then None
    else if participants[0].name != except && OwningEndpoint(participants[0].endpoints, dst).Some?
    then Some(participants[0])
    else OwningParticipant(participants[1..], except, dst)
  }

  lemma {:induction false} OwningEndpointIsConnected(endpoints: seq<Endpoint>, dst: Addr)
    ensures OwningEndpoint(endpoints, dst).Some? <==> exists e | e in endpoints :: EndpointOwns(e, dst)
    ensures var r := OwningEndpoint(endpoints, dst); r.Some? ==> r.value in endpoints && EndpointOwns(r.value, dst)
  {
    if endpoints != [] {
      OwningEndpointIsConnected(endpoints[1..], dst);
      assert forall e | e in endpoints :: e == endpoints[0] || e in endpoints[1..];
    }
  }

  lemma {:induction false} OwningParticipantIsAnother(participants: seq<Router>, except: string, dst: Addr)
    ensures var r := OwningParticipant(participants, except, dst);
            r.Some? ==>
              && r.value in participants && r.value.name != except
              && OwningEndpoint(r.value.endpoints, dst).Some?
  {
    if participants != [] {
      OwningParticipantIsAnother(participants[1..], except, dst);
    }
  }

  /** What one route a domain declares gives one of its participants. */
  function ExplicitStep(net: Definition, d: RoutingDomain, rt: DomainRoute, router: Router): seq<RouteNode> {
    if Declares(router, rt.dst) then []
    else if OwningEndpoint(router.endpoints, rt.dst).Some? then []
    else
      var owner := OwningParticipant(Participants(net, d), router.name, rt.dst);
      if owner.None? then []
      else
        var at := OwningEndpoint(owner.value.endpoints, rt.dst);
        if at.None? then []
        else
          var nexthop := AnchorAddress(router, owner.value.endpoints, at.value, rt.dst);
          if nexthop.None? then []
          else [RouteNode(router.name, rt.dst, d.name, nexthop.value, [], MetricOf(rt.metric, d),
              Explicit(owner.value.name))]
  }

  ghost function PerExplicitRouter(net: Definition, d: RoutingDomain, rt: DomainRoute): Router -> seq<RouteNode> {
    router => ExplicitStep(net, d, rt, router)
  }

  ghost function PerExplicitRoute(net: Definition, d: RoutingDomain): DomainRoute -> seq<RouteNode> {
    (rt: DomainRoute) => if IsDefault(rt.dst) then [] else FlatMap(PerExplicitRouter(net, d, rt), Participants(net, d))
  }

  ghost function PerExplicitDomain(net: Definition): RoutingDomain -> seq<RouteNode> {
    d => FlatMap(PerExplicitRoute(net, d), d.routes)
  }

  /** The nodes the explicit domain routes push, in order. */
  ghost function ExplicitNodes(net: Definition): seq<RouteNode> {
    FlatMap(PerExplicitDomain(net), net.domains)
  }

  /** The loop over the participants that learn one explicit destination. */
  method ExplicitRouteNodes(net: Definition, d: RoutingDomain, rt: DomainRoute) returns (nodes: seq<RouteNode>)
    ensures nodes == FlatMap(PerExplicitRouter(net, d, rt), Participants(net, d))
  {
    nodes := [];
    var participants := Participants(net, d);
    for k := 0 to |participants|
      invariant nodes == FlatMapTo(PerExplicitRouter(net, d, rt), participants, k)
    {
      var router := participants[k];
      if Declares(router, rt.dst) || OwningEndpoint(router.endpoints, rt.dst).Some? {
        continue;
      }
      var owner := OwningParticipant(participants, router.name, rt.dst);
      if owner.None? {
        continue;
      }
      var at := OwningEndpoint(owner.value.endpoints, rt.dst);
      if at.None? {
        continue;
      }
      var nexthop := AnchorAddress(router, owner.value.endpoints, at.value, rt.dst);
      if nexthop.None? {
        continue;
      }
      nodes := nodes + [RouteNode(router.name, rt.dst, d.name, nexthop.value, [], MetricOf(rt.metric, d),
          Explicit(owner.value.name))];
    }
    FlatMapIs(PerExplicitRouter(net, d, rt), participants);
  }

  method ExplicitRoutes(net: Definition) returns (nodes: seq<RouteNode>)
    ensures nodes == ExplicitNodes(net)
  {
    nodes := [];
    for i := 0 to |net.domains|
      invariant nodes == FlatMapTo(PerExplicitDomain(net), net.domains, i)
    {
      var d := net.domains[i];
      ghost var before := nodes;
      for j := 0 to |d.routes|
        invariant nodes == Pushed(before, PerExplicitRoute(net, d), d.routes, j)
      {
        var more := [];
        if !IsDefault(d.routes[j].dst) {
          more := ExplicitRouteNodes(net, d, d.routes[j]);
        }
        nodes := nodes + more;
      }
      PushedIsAppended(before, PerExplicitRoute(net, d), d.routes, |d.routes|);
      FlatMapIs(PerExplicitRoute(net, d), d.routes);
    }
    FlatMapIs(PerExplicitDomain(net), net.domains);
  }

  // ---------------------------------------------------------------------
  // computeRoutes: every node funnels through routeToIR
  // ---------------------------------------------------------------------

  ghost function DomainNodes(net: Definition): seq<RouteNode> {
    AnchorNodes(net) + ExplicitNodes(net)
  }

  /** `computeRoutes`: all the nodes, or the first one whose next hop is of the
      wrong family, at which the source throws. */
  method ComputeRoutes(net: Definition) returns (res: Result<seq<RouteNode>, RouteNode>)
    ensures res.Success? <==> forall n | n in DomainNodes(net) :: n.FamiliesAgree()
    ensures res.Success? ==> res.value == DomainNodes(net)
    ensures res.Failure? ==> exists i | 0 <= i < |DomainNodes(net)| ::
              && DomainNodes(net)[i] == res.error && !res.error.FamiliesAgree()
              && forall k | 0 <= k < i :: DomainNodes(net)[k].FamiliesAgree()
  {
    var anchored := AnchorRoutes(net);
    var explicit := ExplicitRoutes(net);
    var nodes := anchored + explicit;
    for i := 0 to |nodes|
      invariant forall k | 0 <= k < i :: nodes[k].FamiliesAgree()
    {
      if !nodes[i].FamiliesAgree() {
        return Failure(nodes[i]);
      }
    }
    return Success(nodes);
  }

  // ---------------------------------------------------------------------
  // Interconnect routes
  // ---------------------------------------------------------------------

  /** `r1` learns the network of one address of a remaining endpoint of `r2`. */
  ghost function PerPeerAddress(r1: Router, r2: Router, d: RoutingDomain, nexthop: Addr): Addr -> seq<RouteNode> {
    (a: Addr) =>
      if nexthop.Family() != a.Family() then []
      else [RouteNode(r1.name, a.Network(), d.name, nexthop.ip, [], MetricOf(None, d), Interconnect(r2.name))]
  }

  ghost function PerOther(r1: Router, r2: Router, d: RoutingDomain, side: Endpoint,
      nexthop: Addr): Endpoint -> seq<RouteNode> {
    (other: Endpoint) => if other == side then [] else FlatMap(PerPeerAddress(r1, r2, d, nexthop), other.ipaddrs)
  }

  ghost function PerNexthop(r1: Router, r2: Router, d: RoutingDomain, side: Endpoint): Addr -> seq<RouteNode> {
    (nexthop: Addr) => FlatMap(PerOther(r1, r2, d, side, nexthop), r2.endpoints)
  }

  ghost function PerPeerSide(r1: Router, r2: Router, d: RoutingDomain, near: Endpoint): Endpoint -> seq<RouteNode> {
    (side: Endpoint) => if !SharesSegment(near, side) then [] else FlatMap(PerNexthop(r1, r2, d, side), side.ipaddrs)
  }

  ghost function PerNearSide(r1: Router, r2: Router, d: RoutingDomain): Endpoint -> seq<RouteNode> {
    (near: Endpoint) => FlatMap(PerPeerSide(r1, r2, d, near), r2.endpoints)
  }

  ghost function PerPeer(r1: Router, d: RoutingDomain): Router -> seq<RouteNode> {
    (r2: Router) => if r1.name == r2.name then [] else FlatMap(PerNearSide(r1, r2, d), r1.endpoints)
  }

  ghost function PerLearner(net: Definition, d: RoutingDomain): Router -> seq<RouteNode> {
    (r1: Router) => FlatMap(PerPeer(r1, d), Participants(net, d))
  }

  ghost function PerInterconnect(net: Definition): RoutingDomain -> seq<RouteNode> {
    (d: RoutingDomain) => FlatMap(PerLearner(net, d), Participants(net, d))
  }

  /** The nodes `computeInterconnectRoutes` pushes, in order. */
  ghost function InterconnectNodes(net: Definition): seq<RouteNode> {
    FlatMap(PerInterconnect(net), net.domains)
  }

  /** The innermost loop: the addresses of one remaining endpoint of `r2`. */
  method AddressRoutes(r1: Router, r2: Router, d: RoutingDomain, nexthop: Addr, other: Endpoint)
    returns (nodes: seq<RouteNode>)
    ensures nodes == FlatMap(PerPeerAddress(r1, r2, d, nexthop), other.ipaddrs)
  {
    nodes := [];
    for k := 0 to |other.ipaddrs|
      invariant nodes == FlatMapTo(PerPeerAddress(r1, r2, d, nexthop), other.ipaddrs, k)
    {
      var a := other.ipaddrs[k];
      if nexthop.Family() == a.Family() {
        nodes := nodes + [RouteNode(r1.name, a.Network(), d.name, nexthop.ip, [], MetricOf(None, d),
            Interconnect(r2.name))];
      }
    }
    FlatMapIs(PerPeerAddress(r1, r2, d, nexthop), other.ipaddrs);
  }

  /** The loops over the next hops and the remaining endpoints of `r2`. */
  method PeerSubnets(r1: Router, r2: Router, d: RoutingDomain, side: Endpoint) returns (nodes: seq<RouteNode>)
    ensures nodes == FlatMap(PerNexthop(r1, r2, d, side), side.ipaddrs)
  {
    nodes := [];
    for i := 0 to |side.ipaddrs|
      invariant nodes == FlatMapTo(PerNexthop(r1, r2, d, side), side.ipaddrs, i)
    {
      var nexthop := side.ipaddrs[i];
      ghost var before := nodes;
      for j := 0 to |r2.endpoints|
        invariant nodes == Pushed(before, PerOther(r1, r2, d, side, nexthop), r2.endpoints, j)
      {
        var other := r2.endpoints[j];
        if other != side {
          var more := AddressRoutes(r1, r2, d, nexthop, other);
          nodes := nodes + more;
        }
      }
      PushedIsAppended(before, PerOther(r1, r2, d, side, nexthop), r2.endpoints, |r2.endpoints|);
      FlatMapIs(PerOther(r1, r2, d, side, nexthop), r2.endpoints);
    }
    FlatMapIs(PerNexthop(r1, r2, d, side), side.ipaddrs);
  }

  /** The loops over the endpoints of one ordered pair of participants. */
  method PairRoutes(r1: Router, r2: Router, d: RoutingDomain) returns (nodes: seq<RouteNode>)
    ensures nodes == FlatMap(PerNearSide(r1, r2, d), r1.endpoints)
  {
    nodes := [];
    for i := 0 to |r1.endpoints|
      invariant nodes == FlatMapTo(PerNearSide(r1, r2, d), r1.endpoints, i)
    {
      var near := r1.endpoints[i];
      ghost var before := nodes;
      for j := 0 to |r2.endpoints|
        invariant nodes == Pushed(before, PerPeerSide(r1, r2, d, near), r2.endpoints, j)
      {
        if SharesSegment(near, r2.endpoints[j]) {
          var more := PeerSubnets(r1, r2, d, r2.endpoints[j]);
          nodes := nodes + more;
        }
      }
      PushedIsAppended(before, PerPeerSide(r1, r2, d, near), r2.endpoints, |r2.endpoints|);
      FlatMapIs(PerPeerSide(r1, r2, d, near), r2.endpoints);
    }
    FlatMapIs(PerNearSide(r1, r2, d), r1.endpoints);
  }

  /** The loops over the ordered pairs of participants of one domain. */
  method DomainInterconnect(net: Definition, d: RoutingDomain) returns (nodes: seq<RouteNode>)
    ensures nodes == FlatMap(PerLearner(net, d), Participants(net, d))
  {
    nodes := [];
    var participants := Participants(net, d);
    for j := 0 to |participants|
      invariant nodes == FlatMapTo(PerLearner(net, d), participants, j)
    {
      var r1 := participants[j];
      ghost var before := nodes;
      for k := 0 to |participants|
        invariant nodes == Pushed(before, PerPeer(r1, d), participants, k)
      {
        var more := [];
        if r1.name != participants[k].name {
          more := PairRoutes(r1, participants[k], d);
        }
        nodes := nodes + more;
      }
      PushedIsAppended(before, PerPeer(r1, d), participants, |participants|);
      FlatMapIs(PerPeer(r1, d), participants);
    }
    FlatMapIs(PerLearner(net, d), participants);
  }

  method ComputeInterconnectRoutes(net: Definition) returns (nodes: seq<RouteNode>)
    ensures nodes == InterconnectNodes(net)
  {
    nodes := [];
    for i := 0 to |net.domains|
      invariant nodes == FlatMapTo(PerInterconnect(net), net.domains, i)
    {
      var more := DomainInterconnect(net, net.domains[i]);
      nodes := nodes + more;
    }
    FlatMapIs(PerInterconnect(net), net.domains);
  }

  // ---------------------------------------------------------------------
  // The merge by id: the last write wins
  // ---------------------------------------------------------------------

  function MergeById(nodes: seq<RouteNode>): map<RouteId, RouteNode> {
    if nodes == [] then map[]
    else MergeById(nodes[..|nodes| - 1])[nodes[|nodes| - 1].Id() := nodes[|nodes| - 1]]
  }

  /** The merged nodes of a network: interconnect first, domain routes second. */
  ghost function MergedNodes(net: Definition): map<RouteId, RouteNode> {
    MergeById(InterconnectNodes(net) + DomainNodes(net))
  }

  lemma MergeOneMore(nodes: seq<RouteNode>, i: nat)
    requires i < |nodes|
    ensures MergeById(nodes[..i + 1]) == MergeById(nodes[..i])[nodes[i].Id() := nodes[i]]
  {
    assert nodes[..i + 1][..i] == nodes[..i];
  }

  lemma MergeOneMoreAppended(earlier: seq<RouteNode>, later: seq<RouteNode>, i: nat)
    requires i < |later|
    ensures MergeById(earlier + later[..i + 1]) == MergeById(earlier + later[..i])[later[i].Id() := later[i]]
  {
    assert (earlier + later[..i + 1])[..|earlier| + i] == earlier + later[..i];
    assert (earlier + later[..i + 1])[..|earlier| + i + 1] == earlier + later[..i + 1];
    MergeOneMore(earlier + later[..i + 1], |earlier| + i);
  }

  /** The two loops of `toIR` that write every route node under its id. */
  method MergeRoutes(interconnect: seq<RouteNode>, domain: seq<RouteNode>) returns (nodes: map<RouteId, RouteNode>)
    ensures nodes == MergeById(interconnect + domain)
  {
    nodes := map[];
    for i := 0 to |interconnect|
      invariant nodes == MergeById(interconnect[..i])
    {
      MergeOneMore(interconnect, i);
      nodes := nodes[interconnect[i].Id() := interconnect[i]];
    }
    assert interconnect[..|interconnect|] == interconnect == interconnect + domain[..0];
    for i := 0 to |domain|
      invariant nodes == MergeById(interconnect + domain[..i])
    {
      MergeOneMoreAppended(interconnect, domain, i);
      nodes := nodes[domain[i].Id() := domain[i]];
    }
    assert domain[..|domain|] == domain;
  }

  /** A merged node is one that was pushed, under its own id, and every id that
      was pushed has a node. */
  lemma {:induction false} MergeKeepsPushed(nodes: seq<RouteNode>)
    ensures forall id | id in MergeById(nodes) :: MergeById(nodes)[id] in nodes && MergeById(nodes)[id].Id() == id
    ensures forall n | n in nodes :: n.Id() in MergeById(nodes)
  {
    if nodes != [] {
      var rest := nodes[..|nodes| - 1];
      MergeKeepsPushed(rest);
      assert forall n | n in nodes :: n in rest || n == nodes[|nodes| - 1];
    }
  }

  /** A later list overrides an earlier one exactly on the ids it has. */
  lemma {:induction false} MergeOverrides(earlier: seq<RouteNode>, later: seq<RouteNode>)
    ensures MergeById(earlier + later) == MergeById(earlier) + MergeById(later)
  {
    if later == [] {
      assert earlier + later == earlier;
    } else {
      var last := later[|later| - 1];
      MergeOverrides(earlier, later[..|later| - 1]);
      assert (earlier + later)[..|earlier + later| - 1] == earlier + later[..|later| - 1];
      assert (earlier + later)[|earlier + later| - 1] == last;
    }
  }

  // ---------------------------------------------------------------------
  // Which nodes there are
  // ---------------------------------------------------------------------

  /** Why an anchor node was pushed. */
  ghost predicate AnchorReason(net: Definition, n: RouteNode, anchor: Router, e: Endpoint, d: RoutingDomain,
      rt: RouteDecl, router: Router) {
    && anchor in net.routers && e in anchor.endpoints && d in DomainsOf(anchor, e) && rt in e.routes
    && router in net.routers && Participates(router, d)
    && n in AnchorStep(anchor, e, d, rt, router)
  }

  lemma AnchorNodeReason(net: Definition, n: RouteNode)
      returns (anchor: Router, e: Endpoint, d: RoutingDomain, rt: RouteDecl, router: Router)
    requires n in AnchorNodes(net)
    ensures AnchorReason(net, n, anchor, e, d, rt, router)
  {
    anchor := FlatMapSource(PerAnchor(net), net.routers, n);
    e := FlatMapSource(PerEndpoint(net, anchor), anchor.endpoints, n);
    d := FlatMapSource(PerDomain(net, anchor, e), DomainsOf(anchor, e), n);
    rt := FlatMapSource(PerRoute(net, anchor, e, d), e.routes, n);
    router := FlatMapSource(PerParticipant(anchor, e, d, rt), Participants(net, d), n);
  }

  lemma AnchorNodeExists(net: Definition, n: RouteNode, anchor: Router, e: Endpoint, d: RoutingDomain, rt: RouteDecl,
      router: Router)
    requires AnchorReason(net, n, anchor, e, d, rt, router)
    ensures n in AnchorNodes(net)
  {
    FlatMapReaches(PerParticipant(anchor, e, d, rt), Participants(net, d), router, n);
    FlatMapReaches(PerRoute(net, anchor, e, d), e.routes, rt, n);
    FlatMapReaches(PerDomain(net, anchor, e), DomainsOf(anchor, e), d, n);
    FlatMapReaches(PerEndpoint(net, anchor), anchor.endpoints, e, n);
    FlatMapReaches(PerAnchor(net), net.routers, anchor, n);
  }

  lemma ExplicitNodeReason(net: Definition, n: RouteNode) returns (d: RoutingDomain, rt: DomainRoute, router: Router)
    requires n in ExplicitNodes(net)
    ensures d in net.domains && rt in d.routes && router in net.routers && Participates(router, d)
    ensures n in ExplicitStep(net, d, rt, router)
  {
    d := FlatMapSource(PerExplicitDomain(net), net.domains, n);
    rt := FlatMapSource(PerExplicitRoute(net, d), d.routes, n);
    router := FlatMapSource(PerExplicitRouter(net, d, rt), Participants(net, d), n);
  }

  /** Why an interconnect node was pushed. */
  ghost predicate InterconnectReason(net: Definition, n: RouteNode, d: RoutingDomain, r1: Router, r2: Router,
                                     near: Endpoint, side: Endpoint, nexthop: Addr, other: Endpoint, a: Addr) {
    && d in net.domains && r1 in net.routers && Participates(r1, d) && r2 in net.routers && Participates(r2, d)
    && r1.name != r2.name && near in r1.endpoints && side in r2.endpoints && SharesSegment(near, side)
    && nexthop in side.ipaddrs && other in r2.endpoints && other != side && a in other.ipaddrs
    && nexthop.Family() == a.Family()
    && n == RouteNode(r1.name, a.Network(), d.name, nexthop.ip, [], MetricOf(None, d), Interconnect(r2.name))
  }

  lemma InterconnectNodeReason(net: Definition, n: RouteNode)
      returns (d: RoutingDomain, r1: Router, r2: Router, near: Endpoint, side: Endpoint, nexthop: Addr,
          other: Endpoint, a: Addr)
    requires n in InterconnectNodes(net)
    ensures InterconnectReason(net, n, d, r1, r2, near, side, nexthop, other, a)
  {
    d := FlatMapSource(PerInterconnect(net), net.domains, n);
    r1 := FlatMapSource(PerLearner(net, d), Participants(net, d), n);
    r2 := FlatMapSource(PerPeer(r1, d), Participants(net, d), n);
    near := FlatMapSource(PerNearSide(r1, r2, d), r1.endpoints, n);
    side := FlatMapSource(PerPeerSide(r1, r2, d, near), r2.endpoints, n);
    nexthop := FlatMapSource(PerNexthop(r1, r2, d, side), side.ipaddrs, n);
    other := FlatMapSource(PerOther(r1, r2, d, side, nexthop), r2.endpoints, n);
    a := FlatMapSource(PerPeerAddress(r1, r2, d, nexthop), other.ipaddrs, n);
  }

  lemma InterconnectNodeExists(net: Definition, n: RouteNode, d: RoutingDomain, r1: Router, r2: Router,
                               near: Endpoint, side: Endpoint, nexthop: Addr, other: Endpoint, a: Addr)
    requires InterconnectReason(net, n, d, r1, r2, near, side, nexthop, other, a)
    ensures n in InterconnectNodes(net)
  {
    FlatMapReaches(PerPeerAddress(r1, r2, d, nexthop), other.ipaddrs, a, n);
    FlatMapReaches(PerOther(r1, r2, d, side, nexthop), r2.endpoints, other, n);
    FlatMapReaches(PerNexthop(r1, r2, d, side), side.ipaddrs, nexthop, n);
    FlatMapReaches(PerPeerSide(r1, r2, d, near), r2.endpoints, side, n);
    FlatMapReaches(PerNearSide(r1, r2, d), r1.endpoints, near, n);
    FlatMapReaches(PerPeer(r1, d), Participants(net, d), r2, n);
    FlatMapReaches(PerLearner(net, d), Participants(net, d), r1, n);
    FlatMapReaches(PerInterconnect(net), net.domains, d, n);
  }
}
