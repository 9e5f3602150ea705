/** Exactly which route nodes there are and what is in them, told of the network:
    each kind of node is pushed if and only if the network has its reason, and
    which of several under one id is kept. */
module RouteContents {
  import opened Common
  import opened Network
  import opened RouteSynthesis
  import opened Isolation

  /** The first of some metrics that is set, else 400. */
  ghost predicate MetricIs(m: real, own: Option<real>, d: RoutingDomain) {
    if own.Some? then m == own.value
    else if d.metric.Some? then m == d.metric.value
    else m == 400.0
  }

  /** The first address of the family of `dst` on the first endpoint of the list,
      but for `except`, that shares a segment with `router` and has one. */
  ghost predicate FirstFacing(router: Router, list: seq<Endpoint>, except: Endpoint, dst: Addr, address: Ip) {
    exists i, k | 0 <= i < |list| && 0 <= k < |list[i].ipaddrs| ::
      && Suitable(router, list[i], except, dst)
      && (forall j | 0 <= j < i :: !Suitable(router, list[j], except, dst))
      && address == list[i].ipaddrs[k].ip && list[i].ipaddrs[k].Family() == dst.Family()
      && forall m | 0 <= m < k :: list[i].ipaddrs[m].Family() != dst.Family()
  }

  lemma FacingIsUnique(router: Router, list: seq<Endpoint>, except: Endpoint, dst: Addr, x: Ip, y: Ip)
    requires FirstFacing(router, list, except, dst, x) && FirstFacing(router, list, except, dst, y)
    ensures x == y
  {
    var i, k :| 0 <= i < |list| && 0 <= k < |list[i].ipaddrs| && Suitable(router, list[i], except, dst)
      && (forall j | 0 <= j < i :: !Suitable(router, list[j], except, dst))
      && x == list[i].ipaddrs[k].ip && list[i].ipaddrs[k].Family() == dst.Family()
      && forall m | 0 <= m < k :: list[i].ipaddrs[m].Family() != dst.Family();
    var j, l :| 0 <= j < |list| && 0 <= l < |list[j].ipaddrs| && Suitable(router, list[j], except, dst)
      && (forall m | 0 <= m < j :: !Suitable(router, list[m], except, dst))
      && y == list[j].ipaddrs[l].ip && list[j].ipaddrs[l].Family() == dst.Family()
      && forall m | 0 <= m < l :: list[j].ipaddrs[m].Family() != dst.Family();
    assert i == j;
    assert k == l;
  }

  lemma AddressIsFacing(router: Router, list: seq<Endpoint>, except: Endpoint, dst: Addr)
    ensures var r := AnchorAddress(router, list, except, dst);
            if r.Some? then FirstFacing(router, list, except, dst, r.value)
            else forall c | c in list :: !Suitable(router, c, except, dst)
  {
    var i, k := AnchorAddressIsFirst(router, list, except, dst);
  }

  /** The address is found exactly where there is one. */
  lemma AddressIs(router: Router, list: seq<Endpoint>, except: Endpoint, dst: Addr, address: Ip)
    ensures AnchorAddress(router, list, except, dst) == Some(address) <==>
            FirstFacing(router, list, except, dst, address)
  {
    AddressIsFacing(router, list, except, dst);
    var r := AnchorAddress(router, list, except, dst);
    if FirstFacing(router, list, except, dst, address) {
      assert exists i | 0 <= i < |list| :: Suitable(router, list[i], except, dst);
      assert r.Some?;
      FacingIsUnique(router, list, except, dst, address, r.value);
    }
  }

  // ---------------------------------------------------------------------
  // Anchor nodes
  // ---------------------------------------------------------------------

  /** Endpoint `e` of `anchor` declares `rt` and is in domain `d`; participant
      `router` gets `n` for it: the anchor itself its own `via`, any other that
      does not declare the destination the anchor's address facing it. */
  ghost predicate FromAnchor(net: Definition, n: RouteNode, anchor: Router, e: Endpoint, d: RoutingDomain,
    rt: RouteDecl, router: Router)
  {
    && anchor in net.routers && e in anchor.endpoints && d in DomainsOf(anchor, e) && rt in e.routes
    && router in net.routers && Participates(router, d)
    && n.router == router.name && n.prefix == rt.dst && n.domain == d.name
    && n.securityGroups == rt.securityGroups && MetricIs(n.metric, None, d)
    && if router.name == anchor.name then rt.via == Some(n.nexthop) && n.origin == Declared
       else
         && !Declares(router, rt.dst) && n.origin == Learned(anchor.name)
         && FirstFacing(router, anchor.endpoints, e, rt.dst, n.nexthop)
  }

  lemma AnchorStepIs(anchor: Router, e: Endpoint, d: RoutingDomain, rt: RouteDecl, router: Router, n: RouteNode)
    ensures n in AnchorStep(anchor, e, d, rt, router) <==>
            (&& n.router == router.name && n.prefix == rt.dst && n.domain == d.name
             && n.securityGroups == rt.securityGroups && MetricIs(n.metric, None, d)
             && if router.name == anchor.name then rt.via == Some(n.nexthop) && n.origin == Declared
                else
                  && !Declares(router, rt.dst) && n.origin == Learned(anchor.name)
                  && FirstFacing(router, anchor.endpoints, e, rt.dst, n.nexthop))
  {
    AddressIs(router, anchor.endpoints, e, rt.dst, n.nexthop);
  }

  /** An anchor node is pushed only for such a reason. */
  lemma AnchorNodesAre(net: Definition, n: RouteNode)
    returns (anchor: Router, e: Endpoint, d: RoutingDomain, rt: RouteDecl, router: Router)
    requires n in AnchorNodes(net)
    ensures FromAnchor(net, n, anchor, e, d, rt, router)
  {
    anchor, e, d, rt, router := AnchorNodeReason(net, n);
    AnchorStepIs(anchor, e, d, rt, router, n);
  }

  /** And for every such reason. */
  lemma AnchorNodesAreAll(net: Definition, n: RouteNode, anchor: Router, e: Endpoint, d: RoutingDomain, rt: RouteDecl,
    router: Router)
    requires FromAnchor(net, n, anchor, e, d, rt, router)
    ensures n in AnchorNodes(net)
  {
    AnchorStepIs(anchor, e, d, rt, router, n);
    AnchorNodeExists(net, n, anchor, e, d, rt, router);
  }

  // ---------------------------------------------------------------------
  // Explicit domain routes
  // ---------------------------------------------------------------------

  /** The first participant, in the order of the routers, that is connected to
      `dst` and is not the one named `except`. */
  ghost predicate FirstOwner(routers: seq<Router>, d: RoutingDomain, except: string, dst: Addr, owner: Router) {
    exists i | 0 <= i < |routers| ::
      routers[i] == owner && Owns(owner, d, except, dst) && forall j | 0 <= j < i :: !Owns(routers[j], d, except, dst)
  }

  predicate Owns(r: Router, d: RoutingDomain, except: string, dst: Addr) {
    Participates(r, d) && r.name != except && ConnectedTo(r, dst)
  }

  /** The first endpoint of the router that is connected to `dst`. */
  ghost predicate FirstConnected(list: seq<Endpoint>, dst: Addr, at: Endpoint) {
    exists i | 0 <= i < |list| ::
      list[i] == at && EndpointOwns(at, dst) && forall j | 0 <= j < i :: !EndpointOwns(list[j], dst)
  }

  /** Domain `d` declares `rt`, which is no default; participant `router` neither
      declares it nor is connected to it; another is, and `n` leads there. */
  ghost predicate FromDomain(net: Definition, n: RouteNode, d: RoutingDomain, rt: DomainRoute, router: Router,
    owner: Router, at: Endpoint)
  {
    && d in net.domains && rt in d.routes && !IsDefault(rt.dst)
    && router in net.routers && Participates(router, d)
    && !Declares(router, rt.dst) && !ConnectedTo(router, rt.dst)
    && FirstOwner(net.routers, d, router.name, rt.dst, owner) && FirstConnected(owner.endpoints, rt.dst, at)
    && n.router == router.name && n.prefix == rt.dst && n.domain == d.name && n.origin == Explicit(owner.name)
    && n.securityGroups == [] && MetricIs(n.metric, rt.metric, d)
    && FirstFacing(router, owner.endpoints, at, rt.dst, n.nexthop)
  }

  /** A default is the prefix of a family that contains all its addresses. */
  lemma DefaultIs(dst: Addr)
    requires dst.Valid()
    ensures IsDefault(dst) <==>
            dst.Normalised() && forall ip: Ip | ip.Valid() && ip.family == dst.Family() :: dst.Covers(ip)
  {
    if dst.Normalised() && dst.len == 0 {
      assert dst.ip.bits == dst.Network().ip.bits;
    }
    if IsDefault(dst) {
      assert dst.Network().ip.bits == dst.ip.bits;
    }
    if dst.len > 0 {
      var other := Ip(dst.Family(), dst.ip.bits[0 := !dst.ip.bits[0]]);
      assert other.bits[..dst.len][0] != dst.ip.bits[..dst.len][0];
      assert other.Valid() && !dst.Covers(other);
    }
  }

  lemma {:induction false} OwningEndpointIs(list: seq<Endpoint>, dst: Addr, at: Endpoint)
    ensures OwningEndpoint(list, dst) == Some(at) <==> FirstConnected(list, dst, at)
  {
    if list != [] {
      OwningEndpointIs(list[1..], dst, at);
      if FirstConnected(list[1..], dst, at) && !EndpointOwns(list[0], dst) {
        var i :| 0 <= i < |list[1..]| && list[1..][i] == at && EndpointOwns(at, dst)
          && forall j | 0 <= j < i :: !EndpointOwns(list[1..][j], dst);
        forall j | 0 <= j < i + 1 ensures !EndpointOwns(list[j], dst) {
          if j > 0 {
            assert list[j] == list[1..][j - 1];
          }
        }
        assert list[i + 1] == at;
      }
      if FirstConnected(list, dst, at) && !EndpointOwns(list[0], dst) {
        var i :| 0 <= i < |list| && list[i] == at && EndpointOwns(at, dst)
          && forall j | 0 <= j < i :: !EndpointOwns(list[j], dst);
        assert list[1..][i - 1] == at;
        forall j | 0 <= j < i - 1 ensures !EndpointOwns(list[1..][j], dst) {
          assert list[1..][j] == list[j + 1];
        }
      }
    }
  }

  lemma {:induction false} OwningAppends(list: seq<Router>, r: Router, except: string, dst: Addr)
    ensures OwningParticipant(list + [r], except, dst) ==
            var first := OwningParticipant(list, except, dst);
            if first.Some? then first
            else if r.name != except && ConnectedTo(r, dst) then Some(r)
            else None
  {
    if list == [] {
      OwningEndpointIsConnected(r.endpoints, dst);
      assert ([r])[1..] == [];
    } else {
      OwningAppends(list[1..], r, except, dst);
      assert (list + [r])[1..] == list[1..] + [r];
    }
  }

  lemma FirstOwnerOneMore(before: seq<Router>, r: Router, d: RoutingDomain, except: string, dst: Addr, owner: Router)
    ensures FirstOwner(before + [r], d, except, dst, owner) <==>
            || FirstOwner(before, d, except, dst, owner)
            || (r == owner && Owns(r, d, except, dst) && forall s | s in before :: !Owns(s, d, except, dst))
  {
    var all := before + [r];
    if FirstOwner(before, d, except, dst, owner) {
      var i :| 0 <= i < |before| && before[i] == owner && Owns(owner, d, except, dst)
        && forall j | 0 <= j < i :: !Owns(before[j], d, except, dst);
      assert all[i] == owner;
      assert forall j | 0 <= j < i :: all[j] == before[j];
    }
    if r == owner && Owns(r, d, except, dst) && forall s | s in before :: !Owns(s, d, except, dst) {
      assert all[|before|] == owner;
      assert forall j | 0 <= j < |before| :: all[j] == before[j];
    }
    if FirstOwner(all, d, except, dst, owner) {
      var i :| 0 <= i < |all| && all[i] == owner && Owns(owner, d, except, dst)
        && forall j | 0 <= j < i :: !Owns(all[j], d, except, dst);
      assert forall j | 0 <= j < |before| :: all[j] == before[j];
      if i < |before| {
        assert before[i] == owner;
      }
    }
  }

  lemma {:induction false} OwningIs(routers: seq<Router>, d: RoutingDomain, except: string, dst: Addr, owner: Router)
    ensures var first := OwningParticipant(Filter((r: Router) => Participates(r, d), routers), except, dst);
            && (first == Some(owner) <==> FirstOwner(routers, d, except, dst, owner))
            && (first == None <==> forall r | r in routers :: !Owns(r, d, except, dst))
  {
    if routers != [] {
      var before, last := routers[..|routers| - 1], routers[|routers| - 1];
      assert routers == before + [last];
      OwningIs(before, d, except, dst, owner);
      FirstOwnerOneMore(before, last, d, except, dst, owner);
      var p := (r: Router) => Participates(r, d);
      FilterOfOne(p, before, last);
      OwningAppends(Filter(p, before), last, except, dst);
    }
  }

  lemma ExplicitStepIs(net: Definition, d: RoutingDomain, rt: DomainRoute, router: Router, n: RouteNode, owner: Router,
    at: Endpoint)
    requires FirstOwner(net.routers, d, router.name, rt.dst, owner) && FirstConnected(owner.endpoints, rt.dst, at)
    ensures n in ExplicitStep(net, d, rt, router) <==>
            (&& !Declares(router, rt.dst) && !ConnectedTo(router, rt.dst)
             && n.router == router.name && n.prefix == rt.dst && n.domain == d.name && n.origin == Explicit(owner.name)
             && n.securityGroups == [] && MetricIs(n.metric, rt.metric, d)
             && FirstFacing(router, owner.endpoints, at, rt.dst, n.nexthop))
  {
    OwningEndpointIsConnected(router.endpoints, rt.dst);
    OwningIs(net.routers, d, router.name, rt.dst, owner);
    OwningEndpointIs(owner.endpoints, rt.dst, at);
    AddressIs(router, owner.endpoints, at, rt.dst, n.nexthop);
  }

  /** Where a node is pushed, there is an owner and its endpoint. */
  lemma StepHasOwner(net: Definition, d: RoutingDomain, rt: DomainRoute, router: Router, n: RouteNode)
    returns (owner: Router, at: Endpoint)
    requires n in ExplicitStep(net, d, rt, router)
    ensures FirstOwner(net.routers, d, router.name, rt.dst, owner) && FirstConnected(owner.endpoints, rt.dst, at)
  {
    owner := OwningParticipant(Participants(net, d), router.name, rt.dst).value;
    at := OwningEndpoint(owner.endpoints, rt.dst).value;
    OwningIs(net.routers, d, router.name, rt.dst, owner);
    OwningEndpointIs(owner.endpoints, rt.dst, at);
  }

  /** An explicit node is pushed only for such a reason. */
  lemma ExplicitNodesAre(net: Definition, n: RouteNode)
    returns (d: RoutingDomain, rt: DomainRoute, router: Router, owner: Router, at: Endpoint)
    requires n in ExplicitNodes(net)
    ensures FromDomain(net, n, d, rt, router, owner, at)
  {
    d, rt, router := ExplicitSource(net, n);
    owner, at := StepHasOwner(net, d, rt, router, n);
    ExplicitStepIs(net, d, rt, router, n, owner, at);
  }

  lemma ExplicitSource(net: Definition, n: RouteNode) returns (d: RoutingDomain, rt: DomainRoute, router: Router)
    requires n in ExplicitNodes(net)
    ensures d in net.domains && rt in d.routes && !IsDefault(rt.dst) && router in net.routers && Participates(router, d)
    ensures n in ExplicitStep(net, d, rt, router)
  {
    d := FlatMapSource(PerExplicitDomain(net), net.domains, n);
    rt := FlatMapSource(PerExplicitRoute(net, d), d.routes, n);
    router := FlatMapSource(PerExplicitRouter(net, d, rt), Participants(net, d), n);
  }

  /** And for every such reason. */
  lemma ExplicitNodesAreAll(net: Definition, n: RouteNode, d: RoutingDomain, rt: DomainRoute, router: Router,
    owner: Router, at: Endpoint)
    requires FromDomain(net, n, d, rt, router, owner, at)
    ensures n in ExplicitNodes(net)
  {
    ExplicitStepIs(net, d, rt, router, n, owner, at);
    FlatMapReaches(PerExplicitRouter(net, d, rt), Participants(net, d), router, n);
    FlatMapReaches(PerExplicitRoute(net, d), d.routes, rt, n);
    FlatMapReaches(PerExplicitDomain(net), net.domains, d, n);
  }

  // ---------------------------------------------------------------------
  // When no node is refused
  // ---------------------------------------------------------------------

  /** An endpoint in a domain declares a route via an address of the other
      family. */
  ghost predicate ViaOfOtherFamily(net: Definition, anchor: Router, e: Endpoint, d: RoutingDomain, rt: RouteDecl) {
    && anchor in net.routers && e in anchor.endpoints && d in DomainsOf(anchor, e) && rt in e.routes
    && rt.via.Some? && rt.via.value.family != rt.dst.ip.family
  }

  lemma NodeRefused(net: Definition, n: RouteNode)
      returns (anchor: Router, e: Endpoint, d: RoutingDomain, rt: RouteDecl)
    requires n in DomainNodes(net) && !n.FamiliesAgree()
    ensures ViaOfOtherFamily(net, anchor, e, d, rt)
  {
    if n in AnchorNodes(net) {
      var router;
      anchor, e, d, rt, router := AnchorNodesAre(net, n);
    } else {
      var domain, route, router, owner, at := ExplicitNodesAre(net, n);
      assert false;
    }
  }

  lemma ViaRefused(net: Definition, anchor: Router, e: Endpoint, d: RoutingDomain, rt: RouteDecl) returns (n: RouteNode)
    requires ViaOfOtherFamily(net, anchor, e, d, rt)
    ensures n in DomainNodes(net) && !n.FamiliesAgree()
  {
    var metric := if d.metric.Some? then d.metric.value else 400.0;
    n := RouteNode(anchor.name, rt.dst, d.name, rt.via.value, rt.securityGroups, metric, Declared);
    AnchorNodesAreAll(net, n, anchor, e, d, rt, anchor);
  }

  ghost predicate SomeRefused(net: Definition) {
    exists n | n in DomainNodes(net) :: !n.FamiliesAgree()
  }

  ghost predicate SomeViaOfOtherFamily(net: Definition) {
    exists anchor, e, d, rt :: ViaOfOtherFamily(net, anchor, e, d, rt)
  }

  lemma RefusedHasVia(net: Definition)
    requires SomeRefused(net)
    ensures SomeViaOfOtherFamily(net)
  {
    var n :| n in DomainNodes(net) && !n.FamiliesAgree();
    var anchor, e, d, rt := NodeRefused(net, n);
  }

  lemma ViaHasRefused(net: Definition)
    requires SomeViaOfOtherFamily(net)
    ensures SomeRefused(net)
  {
    var anchor, e, d, rt :| ViaOfOtherFamily(net, anchor, e, d, rt);
    var n := ViaRefused(net, anchor, e, d, rt);
  }

  /** `computeRoutes` throws exactly when an endpoint in a domain declares such a
      route, even if only the router itself would use it. */
  lemma ThrowsIff(net: Definition)
    ensures SomeRefused(net) <==> SomeViaOfOtherFamily(net)
  {
    if SomeRefused(net) {
      RefusedHasVia(net);
    }
    if SomeViaOfOtherFamily(net) {
      ViaHasRefused(net);
    }
  }

  // ---------------------------------------------------------------------
  // Interconnect nodes
  // ---------------------------------------------------------------------

  /** Participants `r1` and `r2` share a segment; `n` leads `r1` by an address of
      `r2` there to the network of an address on another endpoint of `r2`. */
  ghost predicate FromPeer(net: Definition, n: RouteNode, d: RoutingDomain, r1: Router, r2: Router, near: Endpoint,
    side: Endpoint, nexthop: Addr, other: Endpoint, a: Addr)
  {
    && d in net.domains && r1 in net.routers && Participates(r1, d) && r2 in net.routers && Participates(r2, d)
    && r1.name != r2.name && near in r1.endpoints && side in r2.endpoints && SharesSegment(near, side)
    && nexthop in side.ipaddrs && other in r2.endpoints && other != side && a in other.ipaddrs
    && nexthop.Family() == a.Family()
    && n.router == r1.name && n.prefix == a.Network() && n.domain == d.name && n.origin == Interconnect(r2.name)
    && n.nexthop == nexthop.ip && n.securityGroups == [] && MetricIs(n.metric, None, d)
  }

  lemma InterconnectNodesAre(net: Definition, n: RouteNode)
    returns (d: RoutingDomain, r1: Router, r2: Router, near: Endpoint, side: Endpoint, nexthop: Addr, other: Endpoint,
      a: Addr)
    requires n in InterconnectNodes(net)
    ensures FromPeer(net, n, d, r1, r2, near, side, nexthop, other, a)
  {
    d, r1, r2, near, side, nexthop, other, a := InterconnectNodeReason(net, n);
  }

  lemma InterconnectNodesAreAll(net: Definition, n: RouteNode, d: RoutingDomain, r1: Router, r2: Router,
    near: Endpoint, side: Endpoint, nexthop: Addr, other: Endpoint, a: Addr)
    requires FromPeer(net, n, d, r1, r2, near, side, nexthop, other, a)
    ensures n in InterconnectNodes(net)
  {
    InterconnectNodeExists(net, n, d, r1, r2, near, side, nexthop, other, a);
  }

  // ---------------------------------------------------------------------
  // Which is kept
  // ---------------------------------------------------------------------

  ghost predicate HasNode(nodes: seq<RouteNode>, id: RouteId) {
    exists n | n in nodes :: n.Id() == id
  }

  lemma MergedFrom(nodes: seq<RouteNode>, id: RouteId)
    ensures id in MergeById(nodes) <==> HasNode(nodes, id)
    ensures id in MergeById(nodes) ==> MergeById(nodes)[id] in nodes && MergeById(nodes)[id].Id() == id
  {
    MergeKeepsPushed(nodes);
  }

  /** Under one id, an explicit domain route wins over an anchor's, and that over
      an interconnect route. */
  lemma KeptNode(net: Definition, id: RouteId)
    ensures id in MergedNodes(net) <==>
            HasNode(ExplicitNodes(net), id) || HasNode(AnchorNodes(net), id) || HasNode(InterconnectNodes(net), id)
    ensures id in MergedNodes(net) ==>
              var n := MergedNodes(net)[id];
              && n.Id() == id
              && if HasNode(ExplicitNodes(net), id) then n in ExplicitNodes(net)
                 else if HasNode(AnchorNodes(net), id) then n in AnchorNodes(net)
                 else n in InterconnectNodes(net)
  {
    MergeOverrides(InterconnectNodes(net), DomainNodes(net));
    MergeOverrides(AnchorNodes(net), ExplicitNodes(net));
    MergedFrom(ExplicitNodes(net), id);
    MergedFrom(AnchorNodes(net), id);
    MergedFrom(InterconnectNodes(net), id);
  }

  lemma DomainIsIdentity(net: Definition, d: RoutingDomain, e: RoutingDomain)
    requires net.UniqueNames() && d in net.domains && e in net.domains && d.name == e.name
    ensures d == e
  {
    var i :| 0 <= i < |net.domains| && net.domains[i] == d;
    var j :| 0 <= j < |net.domains| && net.domains[j] == e;
    assert i == j by {
      if i < j { assert false; } else if j < i { assert false; }
    }
  }

  /** A route a domain declares reaches every participant that neither declares
      the destination nor is connected to it, when the first other participant
      that is connected faces it; it has the metric of the route, else of the
      domain, else 400, whatever else gives the participant a route there. */
  lemma ExplicitRouteWins(net: Definition, d: RoutingDomain, rt: DomainRoute, router: Router, owner: Router,
      at: Endpoint,
    nexthop: Ip)
    requires net.UniqueNames() && d in net.domains && rt in d.routes && !IsDefault(rt.dst)
    requires router in net.routers && Participates(router, d)
    requires !Declares(router, rt.dst) && !ConnectedTo(router, rt.dst)
    requires FirstOwner(net.routers, d, router.name, rt.dst, owner) && FirstConnected(owner.endpoints, rt.dst, at)
    requires FirstFacing(router, owner.endpoints, at, rt.dst, nexthop)
    requires forall other | other in d.routes && other.dst == rt.dst :: other == rt
    ensures var id := RouteId(router.name, d.name, rt.dst);
            && id in MergedNodes(net)
            && var n := MergedNodes(net)[id];
               && n.router == router.name && n.domain == d.name && n.prefix == rt.dst && n.nexthop == nexthop
               && n.securityGroups == [] && MetricIs(n.metric, rt.metric, d)
  {
    var metric := if rt.metric.Some? then rt.metric.value else if d.metric.Some? then d.metric.value else 400.0;
    var pushed := RouteNode(router.name, rt.dst, d.name, nexthop, [], metric, Explicit(owner.name));
    ExplicitNodesAreAll(net, pushed, d, rt, router, owner, at);
    var id := RouteId(router.name, d.name, rt.dst);
    assert pushed.Id() == id;
    KeptNode(net, id);
    KeptIsOfRoute(net, d, rt, router, owner, at, nexthop, MergedNodes(net)[id]);
  }

  lemma KeptIsOfRoute(net: Definition, d: RoutingDomain, rt: DomainRoute, router: Router, owner: Router, at: Endpoint,
    nexthop: Ip, n: RouteNode)
    requires net.UniqueNames() && d in net.domains && router in net.routers
    requires FirstOwner(net.routers, d, router.name, rt.dst, owner) && FirstConnected(owner.endpoints, rt.dst, at)
    requires FirstFacing(router, owner.endpoints, at, rt.dst, nexthop)
    requires forall other | other in d.routes && other.dst == rt.dst :: other == rt
    requires n in ExplicitNodes(net) && n.Id() == RouteId(router.name, d.name, rt.dst)
    ensures n.nexthop == nexthop && n.securityGroups == [] && MetricIs(n.metric, rt.metric, d)
  {
    var d', rt', router', owner', at' := ExplicitNodesAre(net, n);
    DomainIsIdentity(net, d, d');
    NameIsIdentity(net, router, router');
    assert rt' == rt;
    OwningIs(net.routers, d, router.name, rt.dst, owner);
    OwningIs(net.routers, d, router.name, rt.dst, owner');
    OwningEndpointIs(owner.endpoints, rt.dst, at);
    OwningEndpointIs(owner.endpoints, rt.dst, at');
    FacingIsUnique(router, owner.endpoints, at, rt.dst, nexthop, n.nexthop);
  }

  lemma LaterPartWins(x: seq<RouteNode>, y: seq<RouteNode>, id: RouteId)
    requires HasNode(y, id)
    ensures id in MergeById(x + y) && MergeById(x + y)[id] in y
  {
    MergeOverrides(x, y);
    MergedFrom(y, id);
  }

  lemma EarlierPartStays(x: seq<RouteNode>, y: seq<RouteNode>, id: RouteId)
    requires id in MergeById(x) && !HasNode(y, id)
    ensures id in MergeById(x + y) && MergeById(x + y)[id] == MergeById(x)[id]
  {
    MergeOverrides(x, y);
    MergedFrom(y, id);
  }

  lemma {:induction false} LastSourceWins<A(!new)>(f: A -> seq<RouteNode>, s: seq<A>, n: nat, i: nat, id: RouteId)
    requires i < n <= |s| && HasNode(f(s[i]), id) && forall j | i < j < n :: !HasNode(f(s[j]), id)
    ensures id in MergeById(FlatMapTo(f, s, n)) && MergeById(FlatMapTo(f, s, n))[id] in f(s[i])
  {
    if i < n - 1 {
      LastSourceWins(f, s, n - 1, i, id);
      EarlierPartStays(FlatMapTo(f, s, n - 1), f(s[n - 1]), id);
    } else {
      LaterPartWins(FlatMapTo(f, s, n - 1), f(s[n - 1]), id);
    }
  }

  /** `n` is one of the nodes that what `anchor` declares gives. */
  ghost predicate ByAnchor(net: Definition, n: RouteNode, anchor: Router) {
    exists e, d, rt, router :: FromAnchor(net, n, anchor, e, d, rt, router)
  }

  ghost predicate AnchorHas(net: Definition, anchor: Router, id: RouteId) {
    exists n | ByAnchor(net, n, anchor) :: n.Id() == id
  }

  lemma PerAnchorIs(net: Definition, anchor: Router, n: RouteNode)
    requires anchor in net.routers
    ensures n in PerAnchor(net)(anchor) <==> ByAnchor(net, n, anchor)
  {
    if n in PerAnchor(net)(anchor) {
      var e, d, rt, router := PerAnchorReason(net, anchor, n);
    }
    if ByAnchor(net, n, anchor) {
      var e, d, rt, router :| FromAnchor(net, n, anchor, e, d, rt, router);
      PerAnchorReaches(net, anchor, n, e, d, rt, router);
    }
  }

  lemma AnchorHasIff(net: Definition, anchor: Router, id: RouteId)
    requires anchor in net.routers
    ensures HasNode(PerAnchor(net)(anchor), id) <==> AnchorHas(net, anchor, id)
  {
    forall n ensures n in PerAnchor(net)(anchor) <==> ByAnchor(net, n, anchor) {
      PerAnchorIs(net, anchor, n);
    }
  }

  lemma PerAnchorReason(net: Definition, anchor: Router, n: RouteNode)
    returns (e: Endpoint, d: RoutingDomain, rt: RouteDecl, router: Router)
    requires anchor in net.routers && n in PerAnchor(net)(anchor)
    ensures FromAnchor(net, n, anchor, e, d, rt, router)
  {
    e := FlatMapSource(PerEndpoint(net, anchor), anchor.endpoints, n);
    d := FlatMapSource(PerDomain(net, anchor, e), DomainsOf(anchor, e), n);
    rt := FlatMapSource(PerRoute(net, anchor, e, d), e.routes, n);
    router := FlatMapSource(PerParticipant(anchor, e, d, rt), Participants(net, d), n);
    AnchorStepIs(anchor, e, d, rt, router, n);
  }

  lemma PerAnchorReaches(net: Definition, anchor: Router, n: RouteNode, e: Endpoint, d: RoutingDomain, rt: RouteDecl,
    router: Router)
    requires FromAnchor(net, n, anchor, e, d, rt, router)
    ensures n in PerAnchor(net)(anchor)
  {
    AnchorStepIs(anchor, e, d, rt, router, n);
    FlatMapReaches(PerParticipant(anchor, e, d, rt), Participants(net, d), router, n);
    FlatMapReaches(PerRoute(net, anchor, e, d), e.routes, rt, n);
    FlatMapReaches(PerDomain(net, anchor, e), DomainsOf(anchor, e), d, n);
    FlatMapReaches(PerEndpoint(net, anchor), anchor.endpoints, e, n);
  }

  /** Of several anchors that give one id, the last in the order of the routers
      is kept, unless an explicit route has the id. */
  lemma LastAnchorWins(net: Definition, i: nat, id: RouteId)
    requires !HasNode(ExplicitNodes(net), id)
    requires i < |net.routers| && AnchorHas(net, net.routers[i], id)
    requires forall j | i < j < |net.routers| :: !AnchorHas(net, net.routers[j], id)
    ensures id in MergedNodes(net) && ByAnchor(net, MergedNodes(net)[id], net.routers[i])
  {
    var f := PerAnchor(net);
    forall j | i <= j < |net.routers| ensures HasNode(f(net.routers[j]), id) <==> AnchorHas(net, net.routers[j], id) {
      AnchorHasIff(net, net.routers[j], id);
    }
    LastSourceWins(f, net.routers, |net.routers|, i, id);
    FlatMapIs(f, net.routers);
    KeptAnchor(net, id);
    PerAnchorIs(net, net.routers[i], MergedNodes(net)[id]);
  }

  lemma KeptAnchor(net: Definition, id: RouteId)
    requires !HasNode(ExplicitNodes(net), id) && id in MergeById(AnchorNodes(net))
    ensures id in MergedNodes(net) && MergedNodes(net)[id] == MergeById(AnchorNodes(net))[id]
  {
    MergeOverrides(InterconnectNodes(net), DomainNodes(net));
    EarlierPartStays(AnchorNodes(net), ExplicitNodes(net), id);
  }
}
