/** Where a router is in two domains, a packet can leave the domain it started
    in: the router has a longer match in the other one. */
module TwoDomains {
  import opened Common
  import opened Network
  import opened RouteSynthesis
  import opened Isolation
  import opened RouteTable
  import opened Forwarding
  import opened Confinement

  const A: RoutingDomain := RoutingDomain("a", [], None)
  const B: RoutingDomain := RoutingDomain("b", [], None)

  function Bits(b: bool): seq<bool> {
    seq(32, _ => b)
  }

  const EVERYTHING: Addr := Addr(Ip(V4, Bits(false)), 0)
  const GATEWAY: Addr := Addr(Ip(V4, Bits(false)), 32)
  const SERVER: Addr := Addr(Ip(V4, Bits(true)), 32)

  const DEFAULT_ROUTE: RouteDecl := RouteDecl(EVERYTHING, None, [])
  const HOME: Endpoint := Endpoint("r1-home", Ovn, "s0", [], [], None)
  const NEAR: Endpoint := Endpoint("r1-near", Ovn, "s1", [], [], None)
  const MIDDLE: Endpoint := Endpoint("r2-near", Ovn, "s1", [GATEWAY], [], None)
  const UPLINK: Endpoint := Endpoint("r2-uplink", Ovn, "s2", [], [DEFAULT_ROUTE], None)
  const BEYOND: Endpoint := Endpoint("r2-vpn", Ovn, "s3", [], [], Some([B]))
  const LAN: Endpoint := Endpoint("r3-lan", Ovn, "s4", [SERVER], [], None)
  const FAR: Endpoint := Endpoint("r3-vpn", Ovn, "s3", [GATEWAY], [], None)

  /** `ROUTER_1` is in A; `ROUTER_2` is in A, with an uplink for everything, and by one
      endpoint in B; `ROUTER_3` is in B, with the server. Addresses no route needs are
      left out. */
  const ROUTER_1: Router := Router("r1", [HOME, NEAR], Some([A]))
  const ROUTER_2: Router := Router("r2", [MIDDLE, UPLINK, BEYOND], Some([A]))
  const ROUTER_3: Router := Router("r3", [LAN, FAR], Some([B]))

  lemma AddressesAre()
    ensures EVERYTHING.Valid() && EVERYTHING.Network() == EVERYTHING && EVERYTHING.Covers(SERVER.ip)
    ensures GATEWAY.Valid() && GATEWAY.Network() == GATEWAY && !GATEWAY.Covers(SERVER.ip)
    ensures SERVER.Valid() && SERVER.Network() == SERVER && SERVER.Covers(SERVER.ip)
  {
    assert Bits(true)[0] != Bits(false)[0];
  }

  lemma MembershipsAre()
    ensures forall d :: Participates(ROUTER_1, d) <==> d == A
    ensures forall d :: Participates(ROUTER_2, d) <==> d == A || d == B
    ensures forall d :: Participates(ROUTER_3, d) <==> d == B
  {
    assert ROUTER_2.endpoints[2] == BEYOND;
  }

  lemma KnowledgeIs()
    ensures forall p :: !ConnectedTo(ROUTER_1, p) && !Declares(ROUTER_1, p)
    ensures forall p :: ConnectedTo(ROUTER_2, p) <==> p == GATEWAY
    ensures forall p :: Declares(ROUTER_2, p) <==> p == EVERYTHING
  {
    AddressesAre();
    assert ROUTER_2.endpoints[0] == MIDDLE && ROUTER_2.endpoints[1] == UPLINK;
    assert MIDDLE.ipaddrs[0] == GATEWAY && UPLINK.routes[0] == DEFAULT_ROUTE;
    assert EndpointOwns(MIDDLE, GATEWAY) && EndpointDeclares(UPLINK, EVERYTHING);
    forall p, e | e in ROUTER_2.endpoints && EndpointOwns(e, p) ensures p == GATEWAY {
    }
    forall p, e | e in ROUTER_2.endpoints && EndpointDeclares(e, p) ensures p == EVERYTHING {
    }
  }

  ghost predicate Built(net: Definition) {
    net == Definition([ROUTER_1, ROUTER_2, ROUTER_3], [A, B])
  }

  lemma RoutersAre(net: Definition)
    requires Built(net)
    ensures forall r :: r in net.routers <==> r == ROUTER_1 || r == ROUTER_2 || r == ROUTER_3
    ensures A in net.domains && B in net.domains
  {
    assert net.routers[0] == ROUTER_1 && net.routers[1] == ROUTER_2 && net.routers[2] == ROUTER_3;
    assert net.domains[0] == A && net.domains[1] == B;
  }

  lemma EndpointsAre(e: Endpoint)
    ensures e in ROUTER_1.endpoints <==> e == HOME || e == NEAR
    ensures e in ROUTER_2.endpoints <==> e == MIDDLE || e == UPLINK || e == BEYOND
    ensures e in ROUTER_3.endpoints <==> e == LAN || e == FAR
  {
    assert ROUTER_1.endpoints[0] == HOME && ROUTER_1.endpoints[1] == NEAR;
    assert ROUTER_2.endpoints[0] == MIDDLE && ROUTER_2.endpoints[1] == UPLINK && ROUTER_2.endpoints[2] == BEYOND;
    assert ROUTER_3.endpoints[0] == LAN && ROUTER_3.endpoints[1] == FAR;
  }

  lemma NamesAreUnique(net: Definition)
    requires Built(net)
    ensures net.UniqueNames()
  {
    RoutersAre(net);
    forall r | r in net.routers
      ensures forall i, j | 0 <= i < j < |r.endpoints| :: r.endpoints[i].name != r.endpoints[j].name
    {
    }
  }

  lemma DomainsAreRegistered(net: Definition)
    requires Built(net)
    ensures net.DomainsRegistered()
  {
    RoutersAre(net);
    forall r, e | r in net.routers && e in r.endpoints
      ensures e.routingDomains.Some? ==> forall d | d in e.routingDomains.value :: d in net.domains
    {
      EndpointsAre(e);
    }
  }

  lemma AddressesAreValid(net: Definition)
    requires Built(net)
    ensures net.AddressesValid()
  {
    RoutersAre(net);
    AddressesAre();
    forall r, e | r in net.routers && e in r.endpoints
      ensures forall a | a in e.ipaddrs :: a.Valid()
      ensures forall rt | rt in e.routes :: rt.dst.Valid() && rt.dst.Normalised() && rt.via.None?
    {
      EndpointsAre(e);
    }
  }

  lemma NetIsWellFormed(net: Definition)
    requires Built(net)
    ensures net.WellFormed()
  {
    NamesAreUnique(net);
    DomainsAreRegistered(net);
    AddressesAreValid(net);
  }

  /** The two routes that the packet takes. */
  lemma RoutesExist(net: Definition)
    requires Built(net)
    ensures RouteId("r1", "a", EVERYTHING) in MergedNodes(net)
    ensures RouteId("r2", "b", SERVER) in MergedNodes(net)
  {
    RoutersAre(net);
    AddressesAre();
    MembershipsAre();
    KnowledgeIs();
    EndpointsAre(NEAR);
    EndpointsAre(MIDDLE);
    EndpointsAre(UPLINK);
    EndpointsAre(BEYOND);
    EndpointsAre(FAR);
    EndpointsAre(LAN);
    assert MIDDLE.ipaddrs[0] == GATEWAY && FAR.ipaddrs[0] == GATEWAY && LAN.ipaddrs[0] == SERVER;
    assert UPLINK.routes[0] == DEFAULT_ROUTE;
    ParticipantsLearnAnchors(net, ROUTER_2, UPLINK, A, DEFAULT_ROUTE, ROUTER_1, NEAR, MIDDLE, GATEWAY);
    PeersLearnSubnets(net, B, ROUTER_2, ROUTER_3, BEYOND, FAR, GATEWAY, LAN, SERVER);
  }

  /** What a packet to `server` meets: `r1` knows a route to `all`, `r2` one to
      `server`. */
  ghost predicate Scene(tables: Tables, r1: Router, r2: Router, r3: Router, all: Addr, server: Addr) {
    && r1.name in tables && tables[r1.name].Keys == {all}
    && r2.name in tables && tables[r2.name].Keys == {server}
    && all.Covers(server.ip) && server.Covers(server.ip) && all.len < server.len
    && (forall p :: !ConnectedTo(r1, p) && !Declares(r1, p))
    && (forall p | ConnectedTo(r2, p) :: !p.Covers(server.ip))
    && (forall p :: Declares(r2, p) <==> p == all)
    && !ConnectedTo(r3, all) && !Declares(r3, all)
  }

  lemma Decisions(tables: Tables, r1: Router, r2: Router, r3: Router, all: Addr, server: Addr)
    requires Scene(tables, r1, r2, r3, all, server)
    ensures Longest(r1, tables, server.ip, all) && !Declares(r1, all) && !ConnectedTo(r1, all)
    ensures Longest(r2, tables, server.ip, server) && !Declares(r2, server) && !ConnectedTo(r2, server)
  {
  }

  /** Who can be nearer to the two prefixes. */
  lemma OwnersAre(tables: Tables, r1: Router, r2: Router, r3: Router, all: Addr, server: Addr, o: Router)
    requires Scene(tables, r1, r2, r3, all, server) && (o == r1 || o == r2 || o == r3)
    ensures ConnectedTo(o, all) || Declares(o, all) ==> o == r2
    ensures o != r2 && (ConnectedTo(o, server) || Declares(o, server)) ==> o == r3
  {
    Decisions(tables, r1, r2, r3, all, server);
  }

  lemma ForwardsBy(net: Definition, tables: Tables, r: Router, p: Addr, ip: Ip, o: Router)
    requires r.name in tables && o in net.routers
    requires Longest(r, tables, ip, p) && HopAt(r, tables, p) == Forward(o.name)
    ensures Hops(net, tables, ip, r, o)
  {
  }

  lemma OwnerIsNearer(n: RouteNode, net: Definition, r: Router, o: Router, d: RoutingDomain)
    requires StaysIn(net, n, r, o, d) && Closer(n, r, o)
    ensures o in net.routers && o.name != r.name && (ConnectedTo(o, n.prefix) || Declares(o, n.prefix))
  {
  }

  lemma FollowsEntry(net: Definition, tables: Tables, r: Router, p: Addr, ip: Ip) returns (o: Router)
    requires net.WellFormed() && Deployed(net, tables) && r in net.routers && p in tables[r.name]
    requires Longest(r, tables, ip, p) && !Declares(r, p) && !ConnectedTo(r, p)
    ensures o in net.routers && o != r && Hops(net, tables, ip, r, o) && (ConnectedTo(o, p) || Declares(o, p))
  {
    var o', d := EntryReason(net, r, tables, p);
    OwnerIsNearer(tables[r.name][p], net, r, o', d);
    o := o';
    ForwardsBy(net, tables, r, p, ip, o);
  }

  lemma ThreeRouters(net: Definition, tables: Tables, ip: Ip, r1: Router, r2: Router, r3: Router)
    requires r1 in net.routers && Hops(net, tables, ip, r1, r2) && Hops(net, tables, ip, r2, r3)
    ensures IsWalk(net, tables, ip, [r1, r2, r3])
  {
    assert IsWalk(net, tables, ip, [r3]);
    assert [r2, r3][1..] == [r3];
    assert IsWalk(net, tables, ip, [r2, r3]);
    assert [r1, r2, r3][1..] == [r2, r3];
  }

  lemma FirstHop(net: Definition, tables: Tables, r1: Router, r2: Router, r3: Router, all: Addr, server: Addr)
    requires net.WellFormed() && Deployed(net, tables) && r1 in net.routers
    requires forall r | r in net.routers :: r == r1 || r == r2 || r == r3
    requires Scene(tables, r1, r2, r3, all, server)
    ensures Hops(net, tables, server.ip, r1, r2)
  {
    Decisions(tables, r1, r2, r3, all, server);
    var o := FollowsEntry(net, tables, r1, all, server.ip);
    OwnersAre(tables, r1, r2, r3, all, server, o);
  }

  lemma SecondHop(net: Definition, tables: Tables, r1: Router, r2: Router, r3: Router, all: Addr, server: Addr)
    requires net.WellFormed() && Deployed(net, tables) && r2 in net.routers
    requires forall r | r in net.routers :: r == r1 || r == r2 || r == r3
    requires Scene(tables, r1, r2, r3, all, server)
    ensures Hops(net, tables, server.ip, r2, r3)
  {
    Decisions(tables, r1, r2, r3, all, server);
    var o := FollowsEntry(net, tables, r2, server, server.ip);
    OwnersAre(tables, r1, r2, r3, all, server, o);
  }

  /** The one pair of routers where a peer with an address on the shared segment
      has an address on another. */
  lemma PeersAre(r1: Router, r2: Router, near: Endpoint, side: Endpoint, other: Endpoint)
    requires r1 == ROUTER_1 || r1 == ROUTER_2 || r1 == ROUTER_3
    requires r2 == ROUTER_1 || r2 == ROUTER_2 || r2 == ROUTER_3
    requires r1 != r2 && near in r1.endpoints && side in r2.endpoints && SharesSegment(near, side)
    requires side.ipaddrs != [] && other in r2.endpoints && other != side && other.ipaddrs != []
    ensures r1 == ROUTER_2 && r2 == ROUTER_3 && other == LAN
  {
    EndpointsAre(side);
    EndpointsAre(other);
    assert r2 == ROUTER_3 && side == FAR && other == LAN;
    EndpointsAre(near);
  }

  lemma InterconnectIs(net: Definition, n: RouteNode)
    requires Built(net) && n in InterconnectNodes(net)
    ensures n.Id() == RouteId("r2", "b", SERVER)
  {
    var d, r1, r2, near, side, nexthop, other, a := InterconnectNodeReason(net, n);
    PeersOfNet(net, r1);
    PeersOfNet(net, r2);
    PeersAre(r1, r2, near, side, other);
    InterconnectIdIs(d, a, n);
  }

  lemma PeersOfNet(net: Definition, r: Router)
    requires Built(net) && r in net.routers
    ensures r == ROUTER_1 || r == ROUTER_2 || r == ROUTER_3
  {
    RoutersAre(net);
  }

  lemma InterconnectIdIs(d: RoutingDomain, a: Addr, n: RouteNode)
    requires Participates(ROUTER_2, d) && Participates(ROUTER_3, d) && a in LAN.ipaddrs
    requires n.router == ROUTER_2.name && n.domain == d.name && n.prefix == a.Network()
    ensures n.Id() == RouteId("r2", "b", SERVER)
  {
    MembershipsAre();
    AddressesAre();
  }

  /** The one declared route, and who learns it. */
  lemma AnchorsAre(anchor: Router, e: Endpoint, d: RoutingDomain, rt: RouteDecl, router: Router, n: RouteNode)
    requires anchor == ROUTER_1 || anchor == ROUTER_2 || anchor == ROUTER_3
    requires router == ROUTER_1 || router == ROUTER_2 || router == ROUTER_3
    requires e in anchor.endpoints && d in DomainsOf(anchor, e) && rt in e.routes && Participates(router, d)
    requires n in AnchorStep(anchor, e, d, rt, router)
    ensures n.Id() == RouteId("r1", "a", EVERYTHING)
  {
    EndpointsAre(e);
    assert e == UPLINK && anchor == ROUTER_2 && rt == DEFAULT_ROUTE && d == A;
    MembershipsAre();
    AnchorStepShape(anchor, e, d, rt, router, n);
  }

  lemma AnchorIs(net: Definition, n: RouteNode)
    requires Built(net) && n in AnchorNodes(net)
    ensures n.Id() == RouteId("r1", "a", EVERYTHING)
  {
    var anchor, e, d, rt, router := AnchorNodeReason(net, n);
    ReasonIs(net, n, anchor, e, d, rt, router);
  }

  lemma ReasonIs(net: Definition, n: RouteNode, anchor: Router, e: Endpoint, d: RoutingDomain, rt: RouteDecl,
    router: Router)
    requires Built(net) && AnchorReason(net, n, anchor, e, d, rt, router)
    ensures n.Id() == RouteId("r1", "a", EVERYTHING)
  {
    PeersOfNet(net, anchor);
    PeersOfNet(net, router);
    AnchorsAre(anchor, e, d, rt, router, n);
  }

  lemma NoneDeclared(net: Definition)
    requires Built(net)
    ensures forall d | d in net.domains :: d.routes == []
  {
  }

  lemma ExplicitIsDeclared(net: Definition, n: RouteNode) returns (d: RoutingDomain)
    requires n in ExplicitNodes(net)
    ensures d in net.domains && d.routes != []
  {
    var rt, router;
    d, rt, router := ExplicitNodeReason(net, n);
  }

  lemma NoExplicitNode(net: Definition, n: RouteNode)
    requires Built(net)
    ensures n !in ExplicitNodes(net)
  {
    NoneDeclared(net);
    if n in ExplicitNodes(net) {
      var d := ExplicitIsDeclared(net, n);
    }
  }

  lemma NodeIs(net: Definition, n: RouteNode)
    requires Built(net) && n in InterconnectNodes(net) + DomainNodes(net)
    ensures n.Id() == RouteId("r1", "a", EVERYTHING) || n.Id() == RouteId("r2", "b", SERVER)
  {
    NoExplicitNode(net, n);
    if n in InterconnectNodes(net) {
      InterconnectIs(net, n);
    } else {
      AnchorIs(net, n);
    }
  }

  /** They are all the merged nodes. */
  lemma MergedAre(net: Definition, id: RouteId)
    requires Built(net) && id in MergedNodes(net)
    ensures id == RouteId("r1", "a", EVERYTHING) || id == RouteId("r2", "b", SERVER)
  {
    MergeKeepsPushed(InterconnectNodes(net) + DomainNodes(net));
    NodeIs(net, MergedNodes(net)[id]);
  }

  ghost predicate OneOf(net: Definition, id: RouteId, n: RouteNode) {
    && id in MergedNodes(net) && MergedNodes(net)[id] == n && n.Id() == id
    && forall m | m in MergedNodes(net).Values && m.router == id.router :: m == n
  }

  lemma OnlyNode(net: Definition, id: RouteId) returns (n: RouteNode)
    requires Built(net) && (id == RouteId("r1", "a", EVERYTHING) || id == RouteId("r2", "b", SERVER))
    ensures OneOf(net, id, n)
  {
    RoutesExist(net);
    MergeKeepsPushed(InterconnectNodes(net) + DomainNodes(net));
    n := MergedNodes(net)[id];
    forall m | m in MergedNodes(net).Values && m.router == id.router ensures m == n {
      var k :| k in MergedNodes(net) && MergedNodes(net)[k] == m;
      MergedAre(net, k);
    }
  }

  /** Emission installs all the nodes of `r`, and these are `best`; by name. */
  ghost predicate Installs(net: Definition, r: Router, best: seq<RouteNode>) {
    forall n: nat {:trigger Turns(n)} :: Turns(n) && n == |best| ==>
        RoutesOf(net, r, best) && IsTable(best, best) && forall p :: !Ambiguous(best, p)
  }

  lemma InstallsMeans(net: Definition, r: Router, best: seq<RouteNode>)
    ensures Installs(net, r, best) <==>
            RoutesOf(net, r, best) && IsTable(best, best) && forall p :: !Ambiguous(best, p)
  {
    assert Turns(|best|);
  }

  /** A router with one node installs it. */
  lemma OneIsInstalled(net: Definition, r: Router, id: RouteId, n: RouteNode)
    requires OneOf(net, id, n) && r.name == id.router
    ensures Installs(net, r, [n]) && TableOf([n]).Keys == {id.prefix}
  {
    InstallsMeans(net, r, [n]);
    assert n in MergedNodes(net).Values;
    assert [n][0] == n;
  }

  lemma NoneIsInstalled(net: Definition)
    requires Built(net)
    ensures Installs(net, ROUTER_3, [])
  {
    InstallsMeans(net, ROUTER_3, []);
    forall n | n in MergedNodes(net).Values ensures n.router != "r3" {
      var id :| id in MergedNodes(net) && MergedNodes(net)[id] == n;
      MergeKeepsPushed(InterconnectNodes(net) + DomainNodes(net));
      MergedAre(net, id);
    }
  }

  lemma R3KnowsNothing()
    ensures !ConnectedTo(ROUTER_3, EVERYTHING) && !Declares(ROUTER_3, EVERYTHING)
  {
    AddressesAre();
    forall e | e in ROUTER_3.endpoints ensures !EndpointOwns(e, EVERYTHING) && !EndpointDeclares(e, EVERYTHING) {
      EndpointsAre(e);
    }
  }

  lemma SceneIsSet(tables: Tables)
    requires tables.Keys == {"r1", "r2", "r3"}
    requires tables["r1"].Keys == {EVERYTHING} && tables["r2"].Keys == {SERVER}
    ensures Scene(tables, ROUTER_1, ROUTER_2, ROUTER_3, EVERYTHING, SERVER)
  {
    AddressesAre();
    KnowledgeIs();
    R3KnowsNothing();
  }


  lemma EmittedHere(net: Definition, r: Router, best: seq<RouteNode>, routes: map<string, seq<RouteNode>>,
      tables: Tables)
    requires |best| <= 1 && Installs(net, r, best) && r.name in routes && r.name in tables
    requires routes[r.name] == best && tables[r.name] == TableOf(best)
    ensures EmittedAt(net, r, routes, routes, tables)
  {
    InstallsMeans(net, r, best);
  }

  lemma EmittedEverywhere(net: Definition, r1: Router, r2: Router, r3: Router, routes: map<string, seq<RouteNode>>,
    tables: Tables)
    requires net.routers == [r1, r2, r3] && EmittedAt(net, r1, routes, routes, tables)
    requires EmittedAt(net, r2, routes, routes, tables) && EmittedAt(net, r3, routes, routes, tables)
    ensures Emitted(net, routes, routes, tables)
  {
  }

  lemma ThreeEmitted(net: Definition, r1: Router, r2: Router, r3: Router,
    best1: seq<RouteNode>, best2: seq<RouteNode>, best3: seq<RouteNode>)
    returns (routes: map<string, seq<RouteNode>>, tables: Tables)
    requires net.routers == [r1, r2, r3] && r1.name != r2.name && r1.name != r3.name && r2.name != r3.name
    requires |best1| <= 1 && |best2| <= 1 && |best3| <= 1
    requires Installs(net, r1, best1) && Installs(net, r2, best2) && Installs(net, r3, best3)
    ensures tables.Keys == {r1.name, r2.name, r3.name}
    ensures tables[r1.name] == TableOf(best1) && tables[r2.name] == TableOf(best2)
    ensures Emitted(net, routes, routes, tables)
  {
    routes := map[r1.name := best1, r2.name := best2, r3.name := best3];
    tables := map[r1.name := TableOf(best1), r2.name := TableOf(best2), r3.name := TableOf(best3)];
    EmittedHere(net, r1, best1, routes, tables);
    EmittedHere(net, r2, best2, routes, tables);
    EmittedHere(net, r3, best3, routes, tables);
    EmittedEverywhere(net, r1, r2, r3, routes, tables);
  }

  /** What emission installs for this network. */
  lemma NetIsEmitted(net: Definition) returns (routes: map<string, seq<RouteNode>>, tables: Tables)
    requires Built(net)
    ensures Emitted(net, routes, routes, tables) && tables.Keys == {"r1", "r2", "r3"}
    ensures tables["r1"].Keys == {EVERYTHING} && tables["r2"].Keys == {SERVER}
  {
    var first := OnlyNode(net, RouteId("r1", "a", EVERYTHING));
    var second := OnlyNode(net, RouteId("r2", "b", SERVER));
    OneIsInstalled(net, ROUTER_1, RouteId("r1", "a", EVERYTHING), first);
    OneIsInstalled(net, ROUTER_2, RouteId("r2", "b", SERVER), second);
    NoneIsInstalled(net);
    routes, tables := ThreeEmitted(net, ROUTER_1, ROUTER_2, ROUTER_3, [first], [second], []);
  }

  /** A packet from a router of A alone to a server only B knows takes the
      default route of A and arrives in B; the tables are what is emitted for the
      network. */
  lemma PacketLeavesItsDomain()
    returns (net: Definition, routes: map<string, seq<RouteNode>>, tables: Tables, path: seq<Router>)
    ensures net.WellFormed() && Emitted(net, routes, routes, tables)
    ensures |path| == 3 && IsWalk(net, tables, SERVER.ip, path)
    ensures (forall d :: Participates(path[0], d) <==> d == A) && !Participates(path[2], A)
  {
    net, path := Definition([ROUTER_1, ROUTER_2, ROUTER_3], [A, B]), [ROUTER_1, ROUTER_2, ROUTER_3];
    routes, tables := NetIsEmitted(net);
    EmissionDeploys(net, routes, routes, tables);
    SceneIsSet(tables);
    NetIsWellFormed(net);
    RoutersAre(net);
    MembershipsAre();
    FirstHop(net, tables, ROUTER_1, ROUTER_2, ROUTER_3, EVERYTHING, SERVER);
    SecondHop(net, tables, ROUTER_1, ROUTER_2, ROUTER_3, EVERYTHING, SERVER);
    ThreeRouters(net, tables, SERVER.ip, ROUTER_1, ROUTER_2, ROUTER_3);
  }

  /** So domain A does not keep its packets. */
  lemma NotConfined() returns (net: Definition, tables: Tables)
    ensures net.WellFormed() && Deployed(net, tables) && !Confined(net, tables, A)
  {
    var routes, path;
    net, routes, tables, path := PacketLeavesItsDomain();
    EmissionDeploys(net, routes, routes, tables);
    assert Participates(path[0], A) && !Participates(path[2], A);
  }
}
