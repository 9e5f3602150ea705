/** A packet follows the deployed tables by longest-prefix match (section 5.2.4.3
    of RFC 1812), and a connected network wins a tie. The walk never loops. */
module Forwarding {
  import opened Common
  import opened Network
  import opened RouteSynthesis
  import opened Isolation
  import opened RouteTable

  /** The table of each router, by router name and prefix. */
  type Tables = map<string, map<Addr, RouteNode>>

  /** What deploying the merged nodes installs: for every router, one of its
      lowest-metric nodes for each of its prefixes. */
  ghost predicate Deployed(net: Definition, tables: Tables) {
    forall r | r in net.routers ::
      && r.name in tables
      && forall p | p in tables[r.name] ::
           && tables[r.name][p] in MergedNodes(net).Values
           && tables[r.name][p].router == r.name
           && tables[r.name][p].prefix == p
  }

  /** The routes of one router among the merged nodes, in any order. */
  ghost predicate RoutesOf(net: Definition, r: Router, routes: seq<RouteNode>) {
    forall n :: n in routes <==> n in MergedNodes(net).Values && n.router == r.name
  }

  ghost function TableOf(best: seq<RouteNode>): map<Addr, RouteNode>
    requires forall i, j | 0 <= i < j < |best| :: best[i].prefix != best[j].prefix
  {
    map b | b in best :: b.prefix := b
  }

  /** What emission installs for a router: from its merged nodes in some order,
      none of them refused, the table of the best ones. */
  ghost predicate EmittedAt(net: Definition, r: Router, routes: map<string, seq<RouteNode>>,
    best: map<string, seq<RouteNode>>, tables: Tables)
  {
    && r.name in routes && r.name in best && r.name in tables
    && RoutesOf(net, r, routes[r.name])
    && (forall p :: !Ambiguous(routes[r.name], p))
    && IsTable(routes[r.name], best[r.name])
    && tables[r.name] == TableOf(best[r.name])
  }

  ghost predicate Emitted(
    net: Definition, routes: map<string, seq<RouteNode>>, best: map<string, seq<RouteNode>>, tables: Tables)
  {
    forall r | r in net.routers :: EmittedAt(net, r, routes, best, tables)
  }

  /** Every merged node of a router has its prefix in that router's table. */
  ghost predicate Complete(net: Definition, tables: Tables) {
    forall r, id | r in net.routers && id in MergedNodes(net) && id.router == r.name ::
      r.name in tables && id.prefix in tables[r.name]
  }

  /** If emission succeeds for every router, the tables it installs are deployed
      ones and complete, whatever order the nodes came in. */
  lemma EmissionDeploys(
    net: Definition, routes: map<string, seq<RouteNode>>, best: map<string, seq<RouteNode>>, tables: Tables)
    requires Emitted(net, routes, best, tables)
    ensures Deployed(net, tables) && Complete(net, tables)
  {
    forall r, p | r in net.routers && p in tables[r.name]
      ensures tables[r.name][p] in MergedNodes(net).Values
      ensures tables[r.name][p].router == r.name && tables[r.name][p].prefix == p
    {
      assert tables[r.name][p] in best[r.name];
    }
    MergeKeepsPushed(InterconnectNodes(net) + DomainNodes(net));
    forall r, id | r in net.routers && id in MergedNodes(net) && id.router == r.name
      ensures id.prefix in tables[r.name]
    {
      EmissionCovers(net, r, routes[r.name], best[r.name], id);
    }
  }

  lemma EmissionCovers(net: Definition, r: Router, routes: seq<RouteNode>, best: seq<RouteNode>, id: RouteId)
    requires RoutesOf(net, r, routes) && IsTable(routes, best) && id in MergedNodes(net) && id.router == r.name
    requires MergedNodes(net)[id].Id() == id
    ensures id.prefix in TableOf(best)
  {
    var n := MergedNodes(net)[id];
    assert n in MergedNodes(net).Values;
    TableCovers(routes, best, n);
  }

  lemma TableCovers(routes: seq<RouteNode>, best: seq<RouteNode>, n: RouteNode)
    requires IsTable(routes, best) && n in routes
    ensures n.prefix in TableOf(best)
  {
    var b :| b in best && b.prefix == n.prefix;
    TableHas(best, b);
  }

  lemma TableHas(best: seq<RouteNode>, b: RouteNode)
    requires forall i, j | 0 <= i < j < |best| :: best[i].prefix != best[j].prefix
    requires b in best
    ensures b.prefix in TableOf(best)
  {
  }

  // ---------------------------------------------------------------------
  // One hop
  // ---------------------------------------------------------------------

  /** The prefixes a router has an opinion on: its connected networks, its
      table, and the destinations its author declared on it. */
  ghost predicate Known(r: Router, tables: Tables, p: Addr)
    requires r.name in tables
  {
    ConnectedTo(r, p) || p in tables[r.name] || Declares(r, p)
  }

  ghost predicate Matches(r: Router, tables: Tables, ip: Ip, p: Addr)
    requires r.name in tables
  {
    Known(r, tables, p) && p.Covers(ip)
  }

  ghost predicate Longest(r: Router, tables: Tables, ip: Ip, p: Addr)
    requires r.name in tables
  {
    Matches(r, tables, ip, p) && forall q | Matches(r, tables, ip, q) :: q.len <= p.len
  }

  datatype Hop = Drop | Deliver | Exit | Forward(to: string)

  /** What a router does with a packet whose longest match is `p`. */
  ghost function HopAt(r: Router, tables: Tables, p: Addr): Hop
    requires r.name in tables
  {
    if ConnectedTo(r, p) then Deliver
    else if p in tables[r.name] then
      if tables[r.name][p].origin == Declared then Exit else Forward(tables[r.name][p].origin.owner)
    else Exit
  }

  /** The decision of a router for a packet. */
  ghost predicate Decides(r: Router, tables: Tables, ip: Ip, hop: Hop)
    requires r.name in tables
  {
    if exists p :: Matches(r, tables, ip, p)
    then exists p | Longest(r, tables, ip, p) :: hop == HopAt(r, tables, p)
    else hop == Drop
  }

  /** What a router knows is finite. */
  lemma KnownIsFinite(r: Router, tables: Tables) returns (all: set<Addr>)
    requires r.name in tables
    ensures forall p :: Known(r, tables, p) ==> p in all
  {
    var connected := set e, a | e in r.endpoints && a in e.ipaddrs :: a.Network();
    var declared := set e, rt | e in r.endpoints && rt in e.routes :: rt.dst;
    all := connected + tables[r.name].Keys + declared;
  }

  lemma LongestExists(r: Router, tables: Tables, ip: Ip, m: Addr) returns (p: Addr)
    requires r.name in tables && Matches(r, tables, ip, m)
    ensures Longest(r, tables, ip, p)
  {
    var all := KnownIsFinite(r, tables);
    var matching := set q | q in all && Matches(r, tables, ip, q);
    assert m in matching;
    assert forall q | Matches(r, tables, ip, q) :: q in matching;
    var measure := (a: Addr) => a.len;
    p := MaximumExists(matching, measure);
    assert forall q | q in matching :: measure(q) <= measure(p);
  }

  /** What stands behind a table entry: a declaration of this router, or a
      participant of the same domain on a shared segment that is connected to
      the prefix or declares it. */
  lemma EntryReason(net: Definition, r: Router, tables: Tables, p: Addr) returns (o: Router, d: RoutingDomain)
    requires net.WellFormed() && Deployed(net, tables) && r in net.routers && p in tables[r.name]
    ensures var n := tables[r.name][p];
            && n.prefix == p && d in net.domains && Participates(r, d)
            && (n.origin == Declared ==> Declares(r, p))
            && (n.origin != Declared ==> n.origin.owner == o.name && StaysIn(net, n, r, o, d) && Closer(n, r, o))
  {
    var n := tables[r.name][p];
    var id :| id in MergedNodes(net) && MergedNodes(net)[id] == n;
    var r', o', d' := RoutesStayInTheirDomain(net, id);
    NameIsIdentity(net, r, r');
    o, d := o', d';
  }

  lemma KnownIsNormalised(net: Definition, r: Router, tables: Tables, p: Addr)
    requires net.WellFormed() && Deployed(net, tables) && r in net.routers && Known(r, tables, p)
    ensures p.Valid() && p.Normalised()
  {
    if ConnectedTo(r, p) {
      ConnectedIsNormalised(net, r, p);
    } else if Declares(r, p) {
      DeclaredIsNormalised(net, r, p);
    } else {
      var o, d := EntryReason(net, r, tables, p);
      if ConnectedTo(o, p) {
        ConnectedIsNormalised(net, o, p);
      } else {
        DeclaredIsNormalised(net, o, p);
      }
    }
  }

  lemma ConnectedIsNormalised(net: Definition, r: Router, p: Addr)
    requires net.WellFormed() && r in net.routers && ConnectedTo(r, p)
    ensures p.Valid() && p.Normalised()
  {
    var e :| e in r.endpoints && EndpointOwns(e, p);
    var a :| a in e.ipaddrs && a.Network() == p;
    NetworkIsNormalised(a);
  }

  lemma DeclaredIsNormalised(net: Definition, r: Router, p: Addr)
    requires net.WellFormed() && r in net.routers && Declares(r, p)
    ensures p.Valid() && p.Normalised()
  {
    var e :| e in r.endpoints && EndpointDeclares(e, p);
  }

  /** The decision is a function of router and packet. */
  lemma LongestIsUnique(net: Definition, r: Router, tables: Tables, ip: Ip, p: Addr, q: Addr)
    requires net.WellFormed() && Deployed(net, tables) && r in net.routers
    requires Longest(r, tables, ip, p) && Longest(r, tables, ip, q)
    ensures p == q
  {
    KnownIsNormalised(net, r, tables, p);
    KnownIsNormalised(net, r, tables, q);
    CoveringPrefixIsUnique(p, q, ip);
  }

  // ---------------------------------------------------------------------
  // Every hop makes progress
  // ---------------------------------------------------------------------

  /** 0 for a router connected to the prefix, 1 for one that declares it, 2 for
      the rest. */
  ghost function Rank(r: Router, p: Addr): nat {
    if ConnectedTo(r, p) then 0 else if Declares(r, p) then 1 else 2
  }

  /** The lexicographic order on (bits left to match, rank). */
  ghost predicate Less(bits: int, rank: int, bits': int, rank': int) {
    bits < bits' || (bits == bits' && rank < rank')
  }

  /** Where a forwarding decision points, and that the owner of the next hop
      matches at least as many bits, with a lower rank when it matches no more. */
  lemma HopIsCloser(net: Definition, r: Router, tables: Tables, ip: Ip, p: Addr) returns (o: Router, q: Addr)
    requires net.WellFormed() && Deployed(net, tables) && r in net.routers
    requires Longest(r, tables, ip, p) && HopAt(r, tables, p).Forward?
    ensures o in net.routers && o.name == HopAt(r, tables, p).to
    ensures Longest(o, tables, ip, q)
    ensures q.len > p.len || (q == p && Rank(o, q) < Rank(r, p))
  {
    var o', d := EntryReason(net, r, tables, p);
    o := o';
    assert Matches(o, tables, ip, p);
    q := LongestExists(o, tables, ip, p);
    if q.len == p.len {
      KnownIsNormalised(net, o, tables, q);
      KnownIsNormalised(net, r, tables, p);
      CoveringPrefixIsUnique(p, q, ip);
    }
  }

  /** Each computed hop decreases the pair (bits left to match, rank). */
  lemma HopDecreases(net: Definition, r: Router, tables: Tables, ip: Ip, p: Addr, o: Router, q: Addr)
    requires net.WellFormed() && Deployed(net, tables) && r in net.routers && o in net.routers
    requires Longest(r, tables, ip, p) && HopAt(r, tables, p) == Forward(o.name)
    requires Longest(o, tables, ip, q)
    ensures Less(|q.ip.bits| - q.len, Rank(o, q), |p.ip.bits| - p.len, Rank(r, p))
  {
    KnownIsNormalised(net, r, tables, p);
    KnownIsNormalised(net, o, tables, q);
    var o', q' := HopIsCloser(net, r, tables, ip, p);
    NameIsIdentity(net, o, o');
    LongestIsUnique(net, o, tables, ip, q, q');
  }

  // ---------------------------------------------------------------------
  // The walk
  // ---------------------------------------------------------------------

  /** `r` forwards the packet to `o`. */
  ghost predicate Hops(net: Definition, tables: Tables, ip: Ip, r: Router, o: Router) {
    o in net.routers && r.name in tables && Decides(r, tables, ip, Forward(o.name))
  }

  /** The routers a packet visits, each forwarding to the next. */
  ghost predicate IsWalk(net: Definition, tables: Tables, ip: Ip, path: seq<Router>) {
    && path != []
    && path[0] in net.routers
    && (|path| > 1 ==> Hops(net, tables, ip, path[0], path[1]) && IsWalk(net, tables, ip, path[1..]))
  }

  /** The same order as one number: a rank is below 3. */
  ghost function Measure(r: Router, p: Addr): int {
    3 * (|p.ip.bits| - p.len) + Rank(r, p)
  }

  /** What is left to do for a packet at a router; -1 where nothing matches. */
  ghost function Left(r: Router, tables: Tables, ip: Ip): int {
    if r.name in tables && exists p :: Longest(r, tables, ip, p) then
      var p :| Longest(r, tables, ip, p);
      Measure(r, p)
    else -1
  }

  lemma LeftIs(net: Definition, r: Router, tables: Tables, ip: Ip, p: Addr)
    requires net.WellFormed() && Deployed(net, tables) && r in net.routers && Longest(r, tables, ip, p)
    ensures 0 <= Left(r, tables, ip) == Measure(r, p) <= 3 * 128 + 2
  {
    var q :| Longest(r, tables, ip, q) && Left(r, tables, ip) == Measure(r, q);
    LongestIsUnique(net, r, tables, ip, p, q);
    KnownIsNormalised(net, r, tables, p);
  }

  lemma HopReason(net: Definition, tables: Tables, ip: Ip, r: Router, o: Router) returns (p: Addr)
    requires Hops(net, tables, ip, r, o)
    ensures Longest(r, tables, ip, p) && HopAt(r, tables, p) == Forward(o.name)
  {
    p :| Longest(r, tables, ip, p) && HopAt(r, tables, p) == Forward(o.name);
  }

  /** One hop: less is left at the next router. */
  lemma HopFalls(net: Definition, tables: Tables, ip: Ip, r: Router, o: Router)
    requires net.WellFormed() && Deployed(net, tables) && r in net.routers && Hops(net, tables, ip, r, o)
    ensures 0 <= Left(o, tables, ip) < Left(r, tables, ip) <= 3 * 128 + 2
  {
    var p := HopReason(net, tables, ip, r, o);
    var o', q := HopIsCloser(net, r, tables, ip, p);
    NameIsIdentity(net, o, o');
    HopDecreases(net, r, tables, ip, p, o, q);
    LeftIs(net, r, tables, ip, p);
    LeftIs(net, o, tables, ip, q);
  }

  /** The next router is determined. */
  lemma NextIsUnique(net: Definition, tables: Tables, ip: Ip, r: Router, o: Router, o': Router)
    requires net.WellFormed() && Deployed(net, tables) && r in net.routers
    requires Hops(net, tables, ip, r, o) && Hops(net, tables, ip, r, o')
    ensures o == o'
  {
    var p := HopReason(net, tables, ip, r, o);
    var p' := HopReason(net, tables, ip, r, o');
    LongestIsUnique(net, r, tables, ip, p, p');
    NameIsIdentity(net, o, o');
  }

  /** Over a whole walk, at least one less is left for every hop taken. */
  lemma {:induction false} WalkFalls(net: Definition, tables: Tables, ip: Ip, path: seq<Router>, i: nat)
    requires net.WellFormed() && Deployed(net, tables) && IsWalk(net, tables, ip, path) && 0 < i < |path|
    ensures 0 <= Left(path[i], tables, ip) <= Left(path[0], tables, ip) - i <= 3 * 128 + 2
  {
    HopFalls(net, tables, ip, path[0], path[1]);
    if i > 1 {
      WalkFalls(net, tables, ip, path[1..], i - 1);
    }
  }

  /** Less is left after every hop. */
  ghost predicate EachHopFalls(net: Definition, tables: Tables, ip: Ip) {
    forall r, o | r in net.routers && Hops(net, tables, ip, r, o) :: Left(o, tables, ip) < Left(r, tables, ip)
  }

  lemma HopsFall(net: Definition, tables: Tables, ip: Ip)
    requires net.WellFormed() && Deployed(net, tables)
    ensures EachHopFalls(net, tables, ip)
  {
    forall r, o | r in net.routers && Hops(net, tables, ip, r, o)
      ensures Left(o, tables, ip) < Left(r, tables, ip)
    {
      HopFalls(net, tables, ip, r, o);
    }
  }

  lemma {:induction false} LaterIsLess(net: Definition, tables: Tables, ip: Ip, path: seq<Router>, i: nat, j: nat)
    requires EachHopFalls(net, tables, ip) && IsWalk(net, tables, ip, path) && i < j < |path|
    ensures Left(path[j], tables, ip) < Left(path[i], tables, ip)
    decreases j
  {
    if i > 0 {
      LaterIsLess(net, tables, ip, path[1..], i - 1, j - 1);
    } else if j > 1 {
      LaterIsLess(net, tables, ip, path[1..], 0, j - 1);
    }
  }

  /** Loop freedom: no walk visits a router twice. */
  lemma NoRouterTwice(net: Definition, tables: Tables, ip: Ip, path: seq<Router>, i: nat, j: nat)
    requires net.WellFormed() && Deployed(net, tables) && IsWalk(net, tables, ip, path)
    requires i < j < |path|
    ensures path[i] != path[j]
  {
    HopsFall(net, tables, ip);
    LaterIsLess(net, tables, ip, path, i, j);
  }

  /** A packet takes one way only: two walks from a router never part. */
  lemma {:induction false} WalksAgree(net: Definition, tables: Tables, ip: Ip, path: seq<Router>, other: seq<Router>,
      i: nat)
    requires net.WellFormed() && Deployed(net, tables)
    requires IsWalk(net, tables, ip, path) && IsWalk(net, tables, ip, other)
    requires path[0] == other[0] && i < |path| && i < |other|
    ensures path[i] == other[i]
  {
    if i > 0 {
      NextIsUnique(net, tables, ip, path[0], path[1], other[1]);
      WalksAgree(net, tables, ip, path[1..], other[1..], i - 1);
    }
  }

  /** How a packet may end at a router. */
  ghost predicate EndsAt(tables: Tables, ip: Ip, last: Router, hop: Hop) {
    && last.name in tables
    && !hop.Forward? && Decides(last, tables, ip, hop)
    && (hop == Deliver ==> exists n | ConnectedTo(last, n) :: n.Covers(ip))
    && (hop == Exit ==> exists n | Declares(last, n) :: n.Covers(ip))
    && (hop == Drop ==> Left(last, tables, ip) == -1)
  }

  /** A router ends the packet or names one more router. */
  lemma PacketGoesOn(net: Definition, tables: Tables, ip: Ip, r: Router) returns (hop: Hop, next: Router)
    requires net.WellFormed() && Deployed(net, tables) && r in net.routers
    ensures if hop.Forward? then Hops(net, tables, ip, r, next) else EndsAt(tables, ip, r, hop)
  {
    hop, next := Drop, r;
    if m :| Matches(r, tables, ip, m) {
      var p := LongestExists(r, tables, ip, m);
      hop := HopAt(r, tables, p);
      if hop.Forward? {
        var o, q := HopIsCloser(net, r, tables, ip, p);
        next := o;
      } else if hop == Exit {
        ExitIsDeclared(net, r, tables, p);
      }
    }
  }

  /** An exit is at a router whose author declared the prefix. */
  lemma ExitIsDeclared(net: Definition, r: Router, tables: Tables, p: Addr)
    requires net.WellFormed() && Deployed(net, tables) && r in net.routers
    requires Known(r, tables, p) && HopAt(r, tables, p) == Exit
    ensures Declares(r, p)
  {
    if p in tables[r.name] {
      var o, d := EntryReason(net, r, tables, p);
    }
  }

  /** Every packet from every router is, after finitely many hops, delivered on
      a connected network, handed to a route the last router declares itself, or
      dropped, and only the first router drops. */
  lemma {:induction false} EveryPacketEnds(net: Definition, tables: Tables, ip: Ip, r: Router)
      returns (path: seq<Router>, hop: Hop)
    requires net.WellFormed() && Deployed(net, tables) && r in net.routers
    ensures IsWalk(net, tables, ip, path) && path[0] == r && |path| <= 3 * 128 + 3
    ensures EndsAt(tables, ip, path[|path| - 1], hop) && (hop == Drop ==> path == [r])
    decreases Left(r, tables, ip) + 1
  {
    var hop', next := PacketGoesOn(net, tables, ip, r);
    if hop'.Forward? {
      HopFalls(net, tables, ip, r, next);
      var rest;
      rest, hop := EveryPacketEnds(net, tables, ip, next);
      path := [r] + rest;
      assert path[1..] == rest;
      WalkFalls(net, tables, ip, path, |path| - 1);
    } else {
      path, hop := [r], hop';
    }
  }

  /** Every computed hop connects two participants of one domain that share a
      segment. */
  lemma HopStaysInDomain(net: Definition, tables: Tables, ip: Ip, r: Router, o: Router) returns (d: RoutingDomain)
    requires net.WellFormed() && Deployed(net, tables) && r in net.routers && Hops(net, tables, ip, r, o)
    ensures d in net.domains && Participates(r, d) && Participates(o, d) && RoutersShareSegment(r, o)
  {
    var p := HopReason(net, tables, ip, r, o);
    var o', d' := EntryReason(net, r, tables, p);
    NameIsIdentity(net, o, o');
    d := d';
  }

  // ---------------------------------------------------------------------
  // Routes that exist are used
  // ---------------------------------------------------------------------

  /** How a walk from a router with a route for the packet ends: not dropped. */
  lemma NotDropped(net: Definition, tables: Tables, ip: Ip, id: RouteId, path: seq<Router>, hop: Hop)
    requires net.WellFormed() && Deployed(net, tables) && Complete(net, tables)
    requires id in MergedNodes(net) && id.prefix.Covers(ip)
    requires IsWalk(net, tables, ip, path) && path[0].name == id.router
    requires EndsAt(tables, ip, path[|path| - 1], hop)
    ensures hop != Drop
  {
    HasRouteLeft(net, tables, ip, id, path[0]);
    LastHasLeft(net, tables, ip, path);
  }

  lemma HasRouteLeft(net: Definition, tables: Tables, ip: Ip, id: RouteId, r: Router)
    requires net.WellFormed() && Deployed(net, tables) && Complete(net, tables)
    requires id in MergedNodes(net) && id.prefix.Covers(ip) && r in net.routers && r.name == id.router
    ensures Left(r, tables, ip) >= 0
  {
    SomethingLeft(net, tables, ip, r, id.prefix);
  }

  lemma LastHasLeft(net: Definition, tables: Tables, ip: Ip, path: seq<Router>)
    requires net.WellFormed() && Deployed(net, tables) && IsWalk(net, tables, ip, path)
    requires Left(path[0], tables, ip) >= 0
    ensures Left(path[|path| - 1], tables, ip) >= 0
  {
    if |path| > 1 {
      WalkFalls(net, tables, ip, path, |path| - 1);
    }
  }

  lemma SomethingLeft(net: Definition, tables: Tables, ip: Ip, r: Router, p: Addr)
    requires net.WellFormed() && Deployed(net, tables) && r in net.routers
    requires p in tables[r.name] && p.Covers(ip)
    ensures Left(r, tables, ip) >= 0
  {
    assert Matches(r, tables, ip, p);
    var q := LongestExists(r, tables, ip, p);
    LeftIs(net, r, tables, ip, q);
  }

  /** A packet from a participant to a subnet of another it shares a segment with
      is not dropped, wherever it goes. */
  lemma PeersReachSubnets(
    net: Definition, tables: Tables, ip: Ip, d: RoutingDomain, r1: Router, r2: Router,
    near: Endpoint, side: Endpoint, nexthop: Addr, other: Endpoint, a: Addr)
    returns (path: seq<Router>, hop: Hop)
    requires net.WellFormed() && Deployed(net, tables) && Complete(net, tables)
    requires d in net.domains && r1 in net.routers && r2 in net.routers && r1.name != r2.name
    requires Participates(r1, d) && Participates(r2, d)
    requires near in r1.endpoints && side in r2.endpoints && SharesSegment(near, side) && nexthop in side.ipaddrs
    requires other in r2.endpoints && other != side && a in other.ipaddrs && a.Family() == nexthop.Family()
    requires a.Network().Covers(ip)
    ensures IsWalk(net, tables, ip, path) && path[0] == r1
    ensures EndsAt(tables, ip, path[|path| - 1], hop) && hop != Drop
  {
    path, hop := EveryPacketEnds(net, tables, ip, r1);
    PeersLearnSubnets(net, d, r1, r2, near, side, nexthop, other, a);
    NotDropped(net, tables, ip, RouteId(r1.name, d.name, a.Network()), path, hop);
  }

  /** Nor is one to a destination an anchor declares. */
  lemma ParticipantsReachAnchors(
    net: Definition, tables: Tables, ip: Ip, anchor: Router, e: Endpoint, d: RoutingDomain, rt: RouteDecl,
    router: Router, near: Endpoint, c: Endpoint, a: Addr)
    returns (path: seq<Router>, hop: Hop)
    requires net.WellFormed() && Deployed(net, tables) && Complete(net, tables)
    requires anchor in net.routers && e in anchor.endpoints && d in DomainsOf(anchor, e) && rt in e.routes
    requires router in net.routers && Participates(router, d) && router.name != anchor.name
    requires near in router.endpoints && c in anchor.endpoints && c != e && SharesSegment(near, c)
    requires a in c.ipaddrs && a.Family() == rt.dst.Family() && !Declares(router, rt.dst)
    requires rt.dst.Covers(ip)
    ensures IsWalk(net, tables, ip, path) && path[0] == router
    ensures EndsAt(tables, ip, path[|path| - 1], hop) && hop != Drop
  {
    path, hop := EveryPacketEnds(net, tables, ip, router);
    ParticipantsLearnAnchors(net, anchor, e, d, rt, router, near, c, a);
    NotDropped(net, tables, ip, RouteId(router.name, d.name, rt.dst), path, hop);
  }
}
