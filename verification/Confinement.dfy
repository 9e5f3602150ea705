/** When the packets of a routing domain stay in it. */
module Confinement {
  import opened Common
  import opened Network
  import opened RouteSynthesis
  import opened Isolation
  import opened RouteTable
  import opened Forwarding

  /** Some packet follows the entry of `r` for `p`. */
  ghost predicate Follows(r: Router, tables: Tables, p: Addr) {
    && r.name in tables && p in tables[r.name] && !ConnectedTo(r, p) && tables[r.name][p].origin != Declared
    && exists ip :: Longest(r, tables, ip, p)
  }

  /** The next hop of the entry belongs to a participant of `d`. */
  ghost predicate LeadsInto(net: Definition, d: RoutingDomain, n: RouteNode)
    requires n.origin != Declared
  {
    exists o | o in net.routers :: o.name == n.origin.owner && Participates(o, d)
  }

  /** No walk from a participant of `d` visits a router that is none. */
  ghost predicate Confined(net: Definition, tables: Tables, d: RoutingDomain) {
    forall ip, path, i | IsWalk(net, tables, ip, path) && Participates(path[0], d) && 0 <= i < |path| ::
      Participates(path[i], d)
  }

  /** Every entry of a participant of `d` that some packet follows leads to one. */
  ghost predicate EntriesStay(net: Definition, tables: Tables, d: RoutingDomain) {
    forall r, p | r in net.routers && Participates(r, d) && Follows(r, tables, p) ::
      LeadsInto(net, d, tables[r.name][p])
  }

  lemma HopStays(net: Definition, tables: Tables, d: RoutingDomain, ip: Ip, r: Router, o: Router)
    requires net.UniqueNames() && EntriesStay(net, tables, d)
    requires r in net.routers && Participates(r, d) && Hops(net, tables, ip, r, o)
    ensures Participates(o, d)
  {
    var p := HopReason(net, tables, ip, r, o);
    assert Follows(r, tables, p);
    var o' :| o' in net.routers && o'.name == tables[r.name][p].origin.owner && Participates(o', d);
    NameIsIdentity(net, o, o');
  }

  lemma {:induction false} WalkStays(
    net: Definition, tables: Tables, d: RoutingDomain, ip: Ip, path: seq<Router>, i: nat)
    requires net.UniqueNames() && EntriesStay(net, tables, d)
    requires IsWalk(net, tables, ip, path) && Participates(path[0], d) && i < |path|
    ensures Participates(path[i], d)
    decreases i
  {
    if i > 0 {
      HopStays(net, tables, d, ip, path[0], path[1]);
      WalkStays(net, tables, d, ip, path[1..], i - 1);
    }
  }

  lemma TwoRouters(net: Definition, tables: Tables, ip: Ip, r: Router, o: Router)
    requires r in net.routers && Hops(net, tables, ip, r, o)
    ensures IsWalk(net, tables, ip, [r, o])
  {
    assert [r, o][1..] == [o];
    assert IsWalk(net, tables, ip, [o]);
  }

  /** An entry that is followed is a hop of some walk. */
  lemma EntryIsWalked(net: Definition, tables: Tables, d: RoutingDomain, r: Router, p: Addr)
    requires net.WellFormed() && Deployed(net, tables) && Confined(net, tables, d)
    requires r in net.routers && Participates(r, d) && Follows(r, tables, p)
    ensures LeadsInto(net, d, tables[r.name][p])
  {
    var ip :| Longest(r, tables, ip, p);
    var o, q := HopIsCloser(net, r, tables, ip, p);
    TwoRouters(net, tables, ip, r, o);
    assert Participates([r, o][1], d);
  }

  /** A domain keeps its packets exactly when every entry of its participants
      that some packet follows leads to one of them. */
  lemma ConfinedIff(net: Definition, tables: Tables, d: RoutingDomain)
    requires net.WellFormed() && Deployed(net, tables)
    ensures Confined(net, tables, d) <==> EntriesStay(net, tables, d)
  {
    if EntriesStay(net, tables, d) {
      forall ip, path, i | IsWalk(net, tables, ip, path) && Participates(path[0], d) && 0 <= i < |path|
        ensures Participates(path[i], d)
      {
        WalkStays(net, tables, d, ip, path, i);
      }
    }
    if Confined(net, tables, d) {
      forall r, p | r in net.routers && Participates(r, d) && Follows(r, tables, p)
        ensures LeadsInto(net, d, tables[r.name][p])
      {
        EntryIsWalked(net, tables, d, r, p);
      }
    }
  }

  /** No router is in two domains. */
  ghost predicate OneDomainEach(net: Definition) {
    forall r, d, d' | r in net.routers && Participates(r, d) && Participates(r, d') :: d == d'
  }

  lemma SameDomain(net: Definition, r: Router, d: RoutingDomain, e: RoutingDomain)
    requires OneDomainEach(net) && r in net.routers && Participates(r, d) && Participates(r, e)
    ensures d == e
  {
  }

  lemma EntryStays(net: Definition, tables: Tables, d: RoutingDomain, r: Router, p: Addr)
    requires net.WellFormed() && Deployed(net, tables) && OneDomainEach(net)
    requires r in net.routers && Participates(r, d) && Follows(r, tables, p)
    ensures LeadsInto(net, d, tables[r.name][p])
  {
    var o, e := EntryReason(net, r, tables, p);
    SameDomain(net, r, d, e);
  }

  /** So where no router is in two domains, no packet leaves one. */
  lemma WalkStaysInDomain(net: Definition, tables: Tables, d: RoutingDomain)
    requires net.WellFormed() && Deployed(net, tables) && OneDomainEach(net)
    ensures Confined(net, tables, d)
  {
    forall r, p | r in net.routers && Participates(r, d) && Follows(r, tables, p)
      ensures LeadsInto(net, d, tables[r.name][p])
    {
      EntryStays(net, tables, d, r, p);
    }
    ConfinedIff(net, tables, d);
  }
}
