/** The declared network as the route generator sees it: addresses, router
    endpoints and routing domains (src/types.ts, src/ip.ts). */
module Network {
  import opened Common

  datatype Family = V4 | V6

  function Width(f: Family): nat {
    if f.V4? then 32 else 128
  }

  /** A bare address: what `to_s()` prints. */
  datatype Ip = Ip(family: Family, bits: seq<bool>) {
    ghost predicate Valid() {
      |bits| == Width(family)
    }
  }

  /** An address with its prefix length: what `to_string()` prints, so two of
      them are equal exactly when their texts are. */
  datatype Addr = Addr(ip: Ip, len: nat) {
    ghost predicate Valid() {
      ip.Valid() && len <= |ip.bits|
    }

    function Family(): Family {
      ip.family
    }

    /** `network()`: the host bits cleared. */
    function Network(): Addr {
      if len <= |ip.bits|
      then Addr(Ip(ip.family, ip.bits[..len] + seq(|ip.bits| - len, _ => false)), len)
      else this
    }

    /** Whether the prefix contains `ip`. */
    predicate Covers(a: Ip) {
      a.family == ip.family && len <= |ip.bits| && len <= |a.bits| && a.bits[..len] == ip.bits[..len]
    }

    /** No host bit is set: the address is its own network. */
    predicate Normalised() {
      Network() == this
    }
  }

  /** `0.0.0.0/0` or `::/0`. */
  predicate IsDefault(dst: Addr) {
    dst.len == 0 && dst.ip.bits == seq(Width(dst.Family()), _ => false)
  }

  lemma NetworkIsNormalised(a: Addr)
    requires a.Valid()
    ensures a.Network().Valid() && a.Network().Normalised() && a.Network().len == a.len
    ensures a.Network().Family() == a.Family()
    ensures a.Network().Covers(a.ip)
  {
    assert a.Network().ip.bits[..a.len] == a.ip.bits[..a.len];
    assert a.Network().Network().ip.bits == a.Network().ip.bits;
  }

  /** Two normalised prefixes of one length that contain the same address are
      one prefix: longest-prefix match has a single winner. */
  lemma CoveringPrefixIsUnique(p: Addr, q: Addr, ip: Ip)
    requires p.Valid() && q.Valid() && p.Normalised() && q.Normalised()
    requires p.Covers(ip) && q.Covers(ip) && p.len == q.len
    ensures p == q
  {
    assert p.ip.bits == p.Network().ip.bits == q.Network().ip.bits == q.ip.bits;
  }

  datatype RoutingDomain = RoutingDomain(name: string, routes: seq<DomainRoute>, metric: Option<real>)

  datatype DomainRoute = DomainRoute(dst: Addr, metric: Option<real>)

  datatype RouteDecl = RouteDecl(dst: Addr, via: Option<Ip>, securityGroups: seq<string>)

  datatype EndpointKind = Ovn | Kernel

  datatype Endpoint = Endpoint(
    name: string,
    kind: EndpointKind,
    segment: string,
    ipaddrs: seq<Addr>,
    routes: seq<RouteDecl>,
    routingDomains: Option<seq<RoutingDomain>>)

  datatype Router = Router(
    name: string,
    endpoints: seq<Endpoint>,
    routingDomains: Option<seq<RoutingDomain>>)

  datatype Definition = Definition(routers: seq<Router>, domains: seq<RoutingDomain>) {
    /** What the network builder enforces while routers are declared
        (src/define.ts): names identify routers, domains and endpoints. */
    ghost predicate UniqueNames() {
      && (forall i, j | 0 <= i < j < |routers| :: routers[i].name != routers[j].name)
      && (forall i, j | 0 <= i < j < |domains| :: domains[i].name != domains[j].name)
      && (forall r | r in routers :: forall i, j | 0 <= i < j < |r.endpoints| ::
          r.endpoints[i].name != r.endpoints[j].name)
    }

    /** Every membership names a registered domain. */
    ghost predicate DomainsRegistered() {
      forall r | r in routers ::
        && (r.routingDomains.Some? ==> forall d | d in r.routingDomains.value :: d in domains)
        && (forall e | e in r.endpoints ::
              e.routingDomains.Some? ==> forall d | d in e.routingDomains.value :: d in domains)
    }

    /** Addresses are well formed, and a declared destination is a network. */
    ghost predicate AddressesValid() {
      && (forall r | r in routers :: forall e | e in r.endpoints ::
            && (forall a | a in e.ipaddrs :: a.Valid())
            && (forall rt | rt in e.routes ::
                  rt.dst.Valid() && rt.dst.Normalised() && (rt.via.Some? ==> rt.via.value.Valid())))
      && (forall d | d in domains :: forall rt | rt in d.routes :: rt.dst.Valid())
    }

    ghost predicate WellFormed() {
      UniqueNames() && DomainsRegistered() && AddressesValid()
    }
  }

  /** The router a name stands for. */
  lemma NameIsIdentity(net: Definition, r: Router, s: Router)
    requires net.UniqueNames() && r in net.routers && s in net.routers && r.name == s.name
    ensures r == s
  {
    var i :| 0 <= i < |net.routers| && net.routers[i] == r;
    var j :| 0 <= j < |net.routers| && net.routers[j] == s;
    assert i == j by {
      if i < j { assert false; } else if j < i { assert false; }
    }
  }

  /** Some address of `e` has `dst` for its network. */
  predicate EndpointOwns(e: Endpoint, dst: Addr) {
    exists a | a in e.ipaddrs :: a.Family() == dst.Family() && a.Network() == dst
  }

  /** The router is connected to the network. */
  predicate ConnectedTo(r: Router, dst: Addr) {
    exists e | e in r.endpoints :: EndpointOwns(e, dst)
  }

  predicate EndpointDeclares(e: Endpoint, dst: Addr) {
    exists rt | rt in e.routes :: rt.dst == dst
  }

  /** The router declares the destination itself, with or without `via`
      (src/ir.ts, ownPrefixes). */
  predicate Declares(r: Router, dst: Addr) {
    exists e | e in r.endpoints :: EndpointDeclares(e, dst)
  }

  predicate SharesSegment(a: Endpoint, b: Endpoint) {
    a.kind == Ovn && b.kind == Ovn && a.segment == b.segment
  }

  predicate RoutersShareSegment(r: Router, s: Router) {
    exists a, b | a in r.endpoints && b in s.endpoints :: SharesSegment(a, b)
  }

  /** The segments a router is on. Those of kernel endpoints are not shared. */
  function Segments(r: Router): set<string> {
    set e | e in r.endpoints && e.kind == Ovn :: e.segment
  }

  lemma ShareSegmentIff(r: Router, s: Router)
    ensures RoutersShareSegment(r, s) <==> Segments(r) * Segments(s) != {}
  {
    forall a, b | a in r.endpoints && b in s.endpoints && SharesSegment(a, b)
      ensures a.segment in Segments(r) * Segments(s)
    {
    }
    forall segment | segment in Segments(r) * Segments(s)
      ensures exists a, b | a in r.endpoints && b in s.endpoints :: SharesSegment(a, b)
    {
      var a :| a in r.endpoints && a.kind == Ovn && a.segment == segment;
      var b :| b in s.endpoints && b.kind == Ovn && b.segment == segment;
      assert SharesSegment(a, b);
    }
  }

  /** The router or one of its endpoints names the domain. */
  predicate Participates(r: Router, d: RoutingDomain) {
    || (r.routingDomains.Some? && d in r.routingDomains.value)
    || (exists e | e in r.endpoints :: e.routingDomains.Some? && d in e.routingDomains.value)
  }

  function Participants(net: Definition, d: RoutingDomain): seq<Router> {
    Filter((r: Router) => Participates(r, d), net.routers)
  }

  /** The domains the routes of an endpoint belong to: its own, else the
      router's, else none. */
  function DomainsOf(r: Router, e: Endpoint): seq<RoutingDomain> {
    if e.routingDomains.Some? then e.routingDomains.value
    else if r.routingDomains.Some? then r.routingDomains.value
    else []
  }

  /** A domain an endpoint is in is registered. */
  lemma DomainRegistered(net: Definition, r: Router, e: Endpoint, d: RoutingDomain)
    requires net.DomainsRegistered() && r in net.routers && e in r.endpoints && d in DomainsOf(r, e)
    ensures d in net.domains
  {
  }
}
