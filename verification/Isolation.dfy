/** Where a computed route points: into its own routing domain, at a router that
    shares a segment and is connected to the prefix or declares it
    (src/ir.ts, computeRoutes and computeInterconnectRoutes). */
module Isolation {
  import opened Common
  import opened Network
  import opened RouteSynthesis

  /** `o` answers on `nexthop`: it is an address of `o` on a segment `r` is on. */
  ghost predicate Reaches(r: Router, o: Router, nexthop: Ip) {
    exists e, c, a | e in r.endpoints && c in o.endpoints && a in c.ipaddrs ::
      SharesSegment(e, c) && a.ip == nexthop
  }

  /** The route of `n` stays in domain `d`: its router and the owner of its next
      hop are two participants that share a segment. */
  ghost predicate StaysIn(net: Definition, n: RouteNode, r: Router, o: Router, d: RoutingDomain) {
    && r in net.routers && o in net.routers && r.name == n.router && r.name != o.name
    && d in net.domains && d.name == n.domain && Participates(r, d) && Participates(o, d)
    && Reaches(r, o, n.nexthop)
  }

  /** The owner can take the packet further for the same prefix: it is
      connected to it, or declares it while `r` does not. */
  ghost predicate Closer(n: RouteNode, r: Router, o: Router) {
    ConnectedTo(o, n.prefix) || (Declares(o, n.prefix) && !Declares(r, n.prefix) && n.origin.Learned?)
  }

  lemma ParticipatesInOwnDomains(r: Router, e: Endpoint, d: RoutingDomain)
    requires e in r.endpoints && d in DomainsOf(r, e)
    ensures Participates(r, d)
  {
  }

  lemma InterconnectHop(net: Definition, n: RouteNode) returns (r: Router, o: Router, d: RoutingDomain)
    requires n in InterconnectNodes(net)
    ensures n.origin == Interconnect(o.name) && StaysIn(net, n, r, o, d) && Closer(n, r, o)
  {
    var d', r1, r2, near, side, nexthop, other, a := InterconnectNodeReason(net, n);
    r, o, d := r1, r2, d';
    assert Reaches(r, o, n.nexthop);
    assert ConnectedTo(o, a.Network());
  }

  lemma AnchorStepHop(anchor: Router, e: Endpoint, d: RoutingDomain, rt: RouteDecl, router: Router, n: RouteNode)
    requires e in anchor.endpoints && rt in e.routes && n in AnchorStep(anchor, e, d, rt, router)
    ensures n.router == router.name && n.domain == d.name && Declares(anchor, n.prefix)
    ensures router.name == anchor.name ==> n.origin == Declared
    ensures router.name != anchor.name ==>
              n.origin == Learned(anchor.name) && !Declares(router, n.prefix) && Reaches(router, anchor, n.nexthop)
  {
    AnchorAddressIsShared(router, anchor.endpoints, e, rt.dst);
  }

  lemma AnchorHop(net: Definition, n: RouteNode) returns (r: Router, o: Router, d: RoutingDomain)
    requires net.WellFormed() && n in AnchorNodes(net)
    ensures r in net.routers && r.name == n.router && d in net.domains && d.name == n.domain && Participates(r, d)
    ensures n.origin == Declared || n.origin == Learned(o.name)
    ensures n.origin == Declared ==> Declares(r, n.prefix)
    ensures n.origin.Learned? ==> StaysIn(net, n, r, o, d) && Closer(n, r, o)
  {
    var anchor, e, d', rt, router := AnchorNodeReason(net, n);
    r, o, d := router, anchor, d';
    AnchorStepHop(anchor, e, d, rt, router, n);
    ParticipatesInOwnDomains(anchor, e, d);
    DomainRegistered(net, anchor, e, d);
    if router.name == anchor.name {
      NameIsIdentity(net, router, anchor);
    }
  }

  lemma ExplicitStepHop(net: Definition, d: RoutingDomain, rt: DomainRoute, router: Router, n: RouteNode)
      returns (o: Router)
    requires n in ExplicitStep(net, d, rt, router)
    ensures o in Participants(net, d) && o.name != router.name && n.origin == Explicit(o.name)
    ensures n.router == router.name && n.domain == d.name && ConnectedTo(o, n.prefix) && Reaches(router, o, n.nexthop)
  {
    var owner := OwningParticipant(Participants(net, d), router.name, rt.dst);
    OwningParticipantIsAnother(Participants(net, d), router.name, rt.dst);
    o := owner.value;
    OwningEndpointIsConnected(o.endpoints, rt.dst);
    AnchorAddressIsShared(router, o.endpoints, OwningEndpoint(o.endpoints, rt.dst).value, rt.dst);
  }

  lemma ExplicitHop(net: Definition, n: RouteNode) returns (r: Router, o: Router, d: RoutingDomain)
    requires n in ExplicitNodes(net)
    ensures n.origin == Explicit(o.name) && StaysIn(net, n, r, o, d) && Closer(n, r, o)
  {
    var d', rt, router := ExplicitNodeReason(net, n);
    r, d := router, d';
    o := ExplicitStepHop(net, d, rt, router, n);
  }

  /** Domain isolation: every computed route that is not the author's own points
      at another participant of its domain, on a shared segment, and that
      router is closer to the prefix. */
  lemma RoutesStayInTheirDomain(net: Definition, id: RouteId) returns (r: Router, o: Router, d: RoutingDomain)
    requires net.WellFormed() && id in MergedNodes(net)
    ensures var n := MergedNodes(net)[id];
            && r in net.routers && r.name == n.router && n.Id() == id
            && d in net.domains && d.name == n.domain && Participates(r, d)
            && (n.origin == Declared ==> Declares(r, n.prefix))
            && (n.origin != Declared ==> n.origin.owner == o.name && StaysIn(net, n, r, o, d) && Closer(n, r, o))
  {
    MergeKeepsPushed(InterconnectNodes(net) + DomainNodes(net));
    var n := MergedNodes(net)[id];
    if n in InterconnectNodes(net) {
      r, o, d := InterconnectHop(net, n);
    } else if n in AnchorNodes(net) {
      r, o, d := AnchorHop(net, n);
    } else {
      r, o, d := ExplicitHop(net, n);
    }
  }

  /** Completeness: a participant that shares a segment with another gets a
      route to every subnet of the other's remaining endpoints whose family the
      other has on that segment. */
  lemma PeersLearnSubnets(net: Definition, d: RoutingDomain, r1: Router, r2: Router,
                          near: Endpoint, side: Endpoint, nexthop: Addr, other: Endpoint, a: Addr)
    requires d in net.domains && r1 in net.routers && r2 in net.routers && r1.name != r2.name
    requires Participates(r1, d) && Participates(r2, d)
    requires near in r1.endpoints && side in r2.endpoints && SharesSegment(near, side) && nexthop in side.ipaddrs
    requires other in r2.endpoints && other != side && a in other.ipaddrs && a.Family() == nexthop.Family()
    ensures RouteId(r1.name, d.name, a.Network()) in MergedNodes(net)
  {
    var n := RouteNode(r1.name, a.Network(), d.name, nexthop.ip, [], MetricOf(None, d), Interconnect(r2.name));
    InterconnectNodeExists(net, n, d, r1, r2, near, side, nexthop, other, a);
    MergeKeepsPushed(InterconnectNodes(net) + DomainNodes(net));
    assert n in InterconnectNodes(net) + DomainNodes(net);
  }

  /** Reachability inside a domain is mutual: where both sides of a shared
      segment carry one family, each router gets a route to the other's
      remaining subnets of that family. */
  lemma ReachabilityIsMutual(net: Definition, d: RoutingDomain, r1: Router, r2: Router, near: Endpoint, side: Endpoint,
                             a1: Addr, a2: Addr, other1: Endpoint, s1: Addr, other2: Endpoint, s2: Addr)
    requires d in net.domains && r1 in net.routers && r2 in net.routers && r1.name != r2.name
    requires Participates(r1, d) && Participates(r2, d)
    requires near in r1.endpoints && side in r2.endpoints && SharesSegment(near, side)
    requires a1 in near.ipaddrs && a2 in side.ipaddrs
    requires other1 in r1.endpoints && other1 != near && s1 in other1.ipaddrs
    requires other2 in r2.endpoints && other2 != side && s2 in other2.ipaddrs
    requires a1.Family() == a2.Family() == s1.Family() == s2.Family()
    ensures RouteId(r1.name, d.name, s2.Network()) in MergedNodes(net)
    ensures RouteId(r2.name, d.name, s1.Network()) in MergedNodes(net)
  {
    PeersLearnSubnets(net, d, r1, r2, near, side, a2, other2, s2);
    PeersLearnSubnets(net, d, r2, r1, side, near, a1, other1, s1);
  }

  /** An anchor's destination reaches every participant that shares a segment
      with one of the anchor's other endpoints and does not declare the
      destination itself. */
  lemma ParticipantsLearnAnchors(net: Definition, anchor: Router, e: Endpoint, d: RoutingDomain, rt: RouteDecl,
      router: Router,
                                 near: Endpoint, c: Endpoint, a: Addr)
    requires anchor in net.routers && e in anchor.endpoints && d in DomainsOf(anchor, e) && rt in e.routes
    requires router in net.routers && Participates(router, d) && router.name != anchor.name
    requires near in router.endpoints && c in anchor.endpoints && c != e && SharesSegment(near, c)
    requires a in c.ipaddrs && a.Family() == rt.dst.Family() && !Declares(router, rt.dst)
    ensures RouteId(router.name, d.name, rt.dst) in MergedNodes(net)
  {
    AnchorAddressIsShared(router, anchor.endpoints, e, rt.dst);
    var nexthop := AnchorAddress(router, anchor.endpoints, e, rt.dst);
    var n := RouteNode(router.name, rt.dst, d.name, nexthop.value, rt.securityGroups, MetricOf(None, d),
        Learned(anchor.name));
    assert n in AnchorStep(anchor, e, d, rt, router);
    AnchorNodeExists(net, n, anchor, e, d, rt, router);
    MergeKeepsPushed(InterconnectNodes(net) + DomainNodes(net));
    assert n in InterconnectNodes(net) + DomainNodes(net);
  }
}
