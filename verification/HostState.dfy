/** What the commands of the deployer do to one host. A command either applies
    or fails and changes nothing; `ip`, `iptables` and `ovs-vsctl` refuse to add
    what exists and to remove what does not (`--if-exists` aside). */
module HostState {
  import opened Common

  /** The root namespace, or a named one. */
  datatype Loc = Root | In(ns: string)

  datatype LinkKey = LinkKey(loc: Loc, name: string)

  /** The two ends of a veth carry the name of the leg created first; the end
      that is not in the root namespace any more is found by it. */
  datatype LinkKind = Veth(pair: string) | Vlan(parent: string, id: nat) | Dummy | Other

  /** What hangs on a link and is lost when it moves or goes. A route is known
      by what its delete command names. */
  datatype Fact =
    | Up(at: LinkKey)
    | Address(at: LinkKey, addr: string)
    | Route(at: LinkKey, table: string, dst: string)

  datatype Chain = Chain(ns: string, binary: string, table: string, chain: string)

  datatype Policy = Policy(loc: Loc, family: nat, source: string, table: nat)

  datatype Port = Port(bridge: string, settings: seq<string>)

  datatype Host = Host(
    spaces: map<string, seq<string>>,
    links: map<LinkKey, LinkKind>,
    bridges: map<string, seq<string>>,
    ports: map<string, Port>,
    rules: map<Chain, seq<string>>,
    policies: set<Policy>,
    files: map<string, string>,
    facts: set<Fact>)
  {
    predicate HasLoc(loc: Loc) {
      loc.In? ==> loc.ns in spaces
    }

    /** Everything is somewhere: links, rules and policies in namespaces that
        exist, facts on links that exist, ports on bridges that exist; and the
        leg a veth pair is known by is in the root namespace. */
    ghost predicate Valid() {
      && (forall k | k in links :: HasLoc(k.loc))
      && (forall k | k in links && links[k].Veth? ::
            LinkKey(Root, links[k].pair) in links && links[LinkKey(Root, links[k].pair)] == links[k])
      && (forall f | f in facts :: f.at in links)
      && (forall c | c in rules :: c.ns in spaces && rules[c] != [])
      && (forall p | p in policies :: HasLoc(p.loc))
      && (forall p | p in ports :: ports[p].bridge in bridges)
    }
  }

  datatype Cmd =
    | AddNetns(ns: string)
    | InNetns(ns: string, setting: string)               // `lo` up, forwarding
    | DelNetns(ns: string)
    | AddVlan(parent: string, name: string, id: nat)
    | AddDummy(name: string)
    | AddVeth(name: string, peer: string)
    | SetUp(at: LinkKey)
    | Move(at: LinkKey, ns: string)
    | Rename(at: LinkKey, name: string)
    | DelLink(at: LinkKey)
    | AddFact(fact: Fact)
    | DelFact(fact: Fact)
    | AddBridge(bridge: string)
    | SetBridge(bridge: string, setting: string)
    | DelBridge(bridge: string)
    | AddPort(bridge: string, port: string)
    | SetPort(port: string, setting: string)
    | DelPort(bridge: string, port: string)
    | AppendRule(chain: Chain, args: string)
    | DeleteRule(chain: Chain, args: string)
    | AddPolicy(policy: Policy)
    | DelPolicy(policy: Policy)
    | WriteFile(path: string, content: string)
    | Unlink(path: string)

  function OtherFacts(facts: set<Fact>, gone: set<LinkKey>): set<Fact> {
    set f | f in facts && f.at !in gone
  }

  function DropLinks(h: Host, gone: set<LinkKey>): Host {
    h.(links := h.links - gone, facts := OtherFacts(h.facts, gone))
  }

  /** A link goes with the other end of its veth pair. */
  function Ends(h: Host, k: LinkKey): set<LinkKey>
    requires k in h.links
  {
    {k} + set other | other in h.links && h.links[k].Veth? && h.links[other] == h.links[k]
  }

  function LinksIn(h: Host, ns: string): set<LinkKey> {
    set k, other | k in h.links && k.loc == In(ns) && other in Ends(h, k) :: other
  }

  function DropSpace(h: Host, ns: string): Host {
    DropLinks(h, LinksIn(h, ns)).(
      spaces := h.spaces - {ns},
      rules := map c | c in h.rules && c.ns != ns :: h.rules[c],
      policies := set p | p in h.policies && p.loc != In(ns))
  }

  function Put(rules: map<Chain, seq<string>>, c: Chain, args: seq<string>): map<Chain, seq<string>> {
    if args == [] then rules - {c} else rules[c := args]
  }

  function RulesOf(h: Host, c: Chain): seq<string> {
    if c in h.rules then h.rules[c] else []
  }

  function RemoveFirst(s: seq<string>, x: string): seq<string> {
    if s == [] then [] else if s[0] == x then s[1..] else [s[0]] + RemoveFirst(s[1..], x)
  }

  /** Something hangs on the link; one that is up is not renamed. */
  predicate HangsOn(h: Host, at: LinkKey) {
    exists f | f in h.facts :: f.at == at
  }

  function AddLink(h: Host, name: string, kind: LinkKind): Option<Host> {
    var k := LinkKey(Root, name);
    if k in h.links then None else Some(h.(links := h.links[k := kind]))
  }

  function Exec(h: Host, c: Cmd): Option<Host> {
    match c
    case AddNetns(ns) => if ns in h.spaces then None else Some(h.(spaces := h.spaces[ns := []]))
    case InNetns(ns, setting) =>
      if ns in h.spaces then Some(h.(spaces := h.spaces[ns := h.spaces[ns] + [setting]])) else None
    case DelNetns(ns) => if ns in h.spaces then Some(DropSpace(h, ns)) else None
    case AddVlan(parent, name, id) =>
        if LinkKey(Root, parent) in h.links then AddLink(h, name, Vlan(parent, id)) else None
    case AddDummy(name) => AddLink(h, name, Dummy)
    case AddVeth(name, peer) =>
      var k, p := LinkKey(Root, name), LinkKey(Root, peer);
      if k in h.links || p in h.links || k == p then None
      else Some(h.(links := h.links[k := Veth(name)][p := Veth(name)]))
    case SetUp(at) => if at in h.links then Some(h.(facts := h.facts + {Up(at)})) else None
    case Move(at, ns) =>
      var to := LinkKey(In(ns), at.name);
      if at !in h.links || ns !in h.spaces || to in h.links then None
      else Some(DropLinks(h, {at}).(links := (h.links - {at})[to := h.links[at]]))
    case Rename(at, name) =>
      var to := LinkKey(at.loc, name);
      if at !in h.links || to in h.links || HangsOn(h, at) then None
      else Some(h.(links := (h.links - {at})[to := h.links[at]]))
    case DelLink(at) => if at in h.links then Some(DropLinks(h, Ends(h, at))) else None
    case AddFact(f) => if f.at !in h.links || f in h.facts then None else Some(h.(facts := h.facts + {f}))
    case DelFact(f) => if f in h.facts then Some(h.(facts := h.facts - {f})) else None
    case AddBridge(b) => if b in h.bridges then None else Some(h.(bridges := h.bridges[b := []]))
    case SetBridge(b, setting) =>
        if b in h.bridges then Some(h.(bridges := h.bridges[b := h.bridges[b] + [setting]])) else None
    case DelBridge(b) =>
      Some(h.(bridges := h.bridges - {b}, ports := map p | p in h.ports && h.ports[p].bridge != b :: h.ports[p]))
    case AddPort(b, p) => if b !in h.bridges || p in h.ports then None else Some(h.(ports := h.ports[p := Port(b, [])]))
    case SetPort(p, setting) =>
      if p in h.ports then Some(h.(ports := h.ports[p := h.ports[p].(settings := h.ports[p].settings + [setting])]))
          else None
    case DelPort(b, p) =>
      if p in h.ports && h.ports[p].bridge != b then None else Some(h.(ports := h.ports - {p}))
    case AppendRule(c, args) =>
        if c.ns in h.spaces then Some(h.(rules := Put(h.rules, c, RulesOf(h, c) + [args]))) else None
    case DeleteRule(c, args) =>
      if c.ns in h.spaces && args in RulesOf(h, c)
          then Some(h.(rules := Put(h.rules, c, RemoveFirst(RulesOf(h, c), args)))) else None
    case AddPolicy(p) => if !h.HasLoc(p.loc) || p in h.policies then None else Some(h.(policies := h.policies + {p}))
    case DelPolicy(p) => if p in h.policies then Some(h.(policies := h.policies - {p})) else None
    case WriteFile(path, content) => Some(h.(files := h.files[path := WithNewline(content)]))
    case Unlink(path) => Some(h.(files := h.files - {path}))
  }

  /** What is written ends with a newline. */
  function WithNewline(content: string): string {
    if content != "" && content[|content| - 1] == '\n' then content else content + "\n"
  }

  // ---------------------------------------------------------------------
  // Objects: what a command can bring into being or remove
  // ---------------------------------------------------------------------

  datatype Obj =
    | Space(ns: string)
    | Link(key: LinkKey)
    | Bridge(bridge: string)
    | PortOf(port: string)
    | Rule(chain: Chain, args: string)
    | PolicyRule(policy: Policy)
    | File(path: string)
    | FactOf(fact: Fact)

  predicate Has(h: Host, o: Obj) {
    match o
    case Space(ns) => ns in h.spaces
    case Link(k) => k in h.links
    case Bridge(b) => b in h.bridges
    case PortOf(p) => p in h.ports
    case Rule(c, args) => args in RulesOf(h, c)
    case PolicyRule(p) => p in h.policies
    case File(path) => path in h.files
    case FactOf(f) => f in h.facts
  }

  /** The objects a command can bring into being. */
  predicate Adds(c: Cmd, o: Obj) {
    match c
    case AddNetns(ns) => o == Space(ns)
    case AddVlan(_, name, _) => o == Link(LinkKey(Root, name))
    case AddDummy(name) => o == Link(LinkKey(Root, name))
    case AddVeth(name, peer) => o == Link(LinkKey(Root, name)) || o == Link(LinkKey(Root, peer))
    case SetUp(at) => o == FactOf(Up(at))
    case Move(at, ns) => o == Link(LinkKey(In(ns), at.name))
    case Rename(at, name) => o == Link(LinkKey(at.loc, name))
    case AddFact(f) => o == FactOf(f)
    case AddBridge(b) => o == Bridge(b)
    case AddPort(_, p) => o == PortOf(p)
    case AppendRule(c, args) => o == Rule(c, args)
    case AddPolicy(p) => o == PolicyRule(p)
    case WriteFile(path, _) => o == File(path)
    case _ => false
  }

  /** The object without which a command changes nothing. */
  function Needs(c: Cmd): Option<Obj> {
    match c
    case DelNetns(ns) => Some(Space(ns))
    case Move(at, _) => Some(Link(at))
    case DelLink(at) => Some(Link(at))
    case DelFact(f) => Some(FactOf(f))
    case DelBridge(b) => Some(Bridge(b))
    case DelPort(_, p) => Some(PortOf(p))
    case DeleteRule(c, args) => Some(Rule(c, args))
    case DelPolicy(p) => Some(PolicyRule(p))
    case Unlink(path) => Some(File(path))
    case _ => None
  }

  lemma PutIs(rules: map<Chain, seq<string>>, c: Chain, args: seq<string>, x: Chain)
    ensures (x in Put(rules, c, args)) == if x == c then args != [] else x in rules
    ensures x in Put(rules, c, args) ==> Put(rules, c, args)[x] == if x == c then args else rules[x]
  {
  }

  lemma {:induction false} RemoveFirstFrom(s: seq<string>, x: string, y: string)
    ensures y in RemoveFirst(s, x) ==> y in s
  {
    if s != [] && s[0] != x {
      RemoveFirstFrom(s[1..], x, y);
    }
  }

  /** Removing what was just appended, when it was not there before. */
  lemma {:induction false} RemoveAppended(s: seq<string>, x: string)
    requires x !in s
    ensures RemoveFirst(s + [x], x) == s
  {
    if s == [] {
      assert ([x])[1..] == [];
    } else {
      assert (s + [x])[1..] == s[1..] + [x];
      RemoveAppended(s[1..], x);
    }
  }

  lemma LinksOnlyAdd(h: Host, c: Cmd, o: Obj)
    requires c.AddVlan? || c.AddDummy? || c.AddVeth? || c.Move? || c.Rename? || c.DelLink? || c.SetUp?
    requires Exec(h, c).Some? && Has(Exec(h, c).value, o)
    ensures Has(h, o) || Adds(c, o)
  {
  }

  lemma SpacesOnlyAdd(h: Host, c: Cmd, o: Obj)
    requires c.AddNetns? || c.InNetns? || c.DelNetns?
    requires Exec(h, c).Some? && Has(Exec(h, c).value, o)
    ensures Has(h, o) || Adds(c, o)
  {
  }

  lemma RulesOnlyAdd(h: Host, c: Cmd, o: Obj)
    requires c.AppendRule? || c.DeleteRule?
    requires Exec(h, c).Some? && Has(Exec(h, c).value, o)
    ensures Has(h, o) || Adds(c, o)
  {
    if c.DeleteRule? && o.Rule? {
      RemoveFirstFrom(RulesOf(h, c.chain), c.args, o.args);
    }
  }

  /** Nothing appears that the command does not add. */
  lemma OnlyAdds(h: Host, c: Cmd, o: Obj)
    requires Exec(h, c).Some? && Has(Exec(h, c).value, o)
    ensures Has(h, o) || Adds(c, o)
  {
    if c.AddVlan? || c.AddDummy? || c.AddVeth? || c.Move? || c.Rename? || c.DelLink? || c.SetUp? {
      LinksOnlyAdd(h, c, o);
    } else if c.AddNetns? || c.InNetns? || c.DelNetns? {
      SpacesOnlyAdd(h, c, o);
    } else if c.AppendRule? || c.DeleteRule? {
      RulesOnlyAdd(h, c, o);
    }
  }

  /** A command that needs what is not there changes nothing. */
  lemma NothingToDo(h: Host, c: Cmd)
    requires h.Valid() && Needs(c).Some? && !Has(h, Needs(c).value)
    ensures Exec(h, c) == None || Exec(h, c) == Some(h)
  {
    match c
    case DelBridge(b) =>
      assert h.bridges - {b} == h.bridges;
      assert (map p | p in h.ports && h.ports[p].bridge != b :: h.ports[p]) == h.ports;
    case DelPort(_, p) => assert h.ports - {p} == h.ports;
    case Unlink(path) => assert h.files - {path} == h.files;
    case _ =>
  }

  /** A link command that does not take the leg a veth pair is known by out of
      the root namespace. */
  predicate KeepsLegs(h: Host, c: Cmd) {
    (c.Move? || c.Rename?) && c.at in h.links && h.links[c.at].Veth? ==> c.at != LinkKey(Root, h.links[c.at].pair)
  }

  lemma MoveStaysValid(h: Host, at: LinkKey, ns: string)
    requires h.Valid() && Exec(h, Move(at, ns)).Some? && KeepsLegs(h, Move(at, ns))
    ensures Exec(h, Move(at, ns)).value.Valid()
  {
  }

  lemma RenameStaysValid(h: Host, at: LinkKey, name: string)
    requires h.Valid() && Exec(h, Rename(at, name)).Some? && KeepsLegs(h, Rename(at, name))
    ensures Exec(h, Rename(at, name)).value.Valid()
  {
  }

  lemma VethStaysValid(h: Host, name: string, peer: string)
    requires h.Valid() && Exec(h, AddVeth(name, peer)).Some?
    ensures Exec(h, AddVeth(name, peer)).value.Valid()
  {
  }

  lemma NewLinkStaysValid(h: Host, c: Cmd)
    requires c.AddVlan? || c.AddDummy? || c.SetUp?
    requires h.Valid() && Exec(h, c).Some?
    ensures Exec(h, c).value.Valid()
  {
  }

  lemma RulesStayValid(h: Host, c: Cmd)
    requires c.AppendRule? && h.Valid() && Exec(h, c).Some?
    ensures Exec(h, c).value.Valid()
  {
    var h' := Exec(h, c).value;
    forall x | x in h'.rules ensures x.ns in h'.spaces && h'.rules[x] != [] {
      PutIs(h.rules, c.chain, RulesOf(h, c.chain) + [c.args], x);
    }
  }

  lemma BridgesStayValid(h: Host, c: Cmd)
    requires c.AddBridge? || c.SetBridge?
    requires h.Valid() && Exec(h, c).Some?
    ensures Exec(h, c).value.Valid()
  {
  }

  lemma PortsStayValid(h: Host, c: Cmd)
    requires c.AddPort? || c.SetPort?
    requires h.Valid() && Exec(h, c).Some?
    ensures Exec(h, c).value.Valid()
  {
  }

  lemma SpacesStayValid(h: Host, c: Cmd)
    requires c.AddNetns? || c.InNetns?
    requires h.Valid() && Exec(h, c).Some?
    ensures Exec(h, c).value.Valid()
  {
  }

  lemma FactsStayValid(h: Host, f: Fact)
    requires h.Valid() && Exec(h, AddFact(f)).Some?
    ensures Exec(h, AddFact(f)).value.Valid()
  {
  }

  lemma PoliciesStayValid(h: Host, p: Policy)
    requires h.Valid() && Exec(h, AddPolicy(p)).Some?
    ensures Exec(h, AddPolicy(p)).value.Valid()
  {
  }

  predicate Creating(c: Cmd) {
    c.AddNetns? || c.InNetns? || c.AddVlan? || c.AddDummy? || c.AddVeth? || c.Move? || c.Rename? || c.SetUp?
    || c.AddFact? || c.AddBridge? || c.SetBridge? || c.AddPort? || c.SetPort? || c.AppendRule? || c.AddPolicy?
        || c.WriteFile?
  }

  /** The commands of creating keep everything somewhere. */
  lemma CreatingStaysValid(h: Host, c: Cmd)
    requires Creating(c) && h.Valid() && Exec(h, c).Some? && KeepsLegs(h, c)
    ensures Exec(h, c).value.Valid()
  {
    if c.Move? {
      MoveStaysValid(h, c.at, c.ns);
    } else if c.Rename? {
      RenameStaysValid(h, c.at, c.name);
    } else if c.AddVeth? {
      VethStaysValid(h, c.name, c.peer);
    } else if c.AddVlan? || c.AddDummy? || c.SetUp? {
      NewLinkStaysValid(h, c);
    } else if c.AppendRule? {
      RulesStayValid(h, c);
    } else if c.AddBridge? || c.SetBridge? {
      BridgesStayValid(h, c);
    } else if c.AddPort? || c.SetPort? {
      PortsStayValid(h, c);
    } else if c.AddNetns? || c.InNetns? {
      SpacesStayValid(h, c);
    } else if c.AddFact? {
      FactsStayValid(h, c.fact);
    } else if c.AddPolicy? {
      PoliciesStayValid(h, c.policy);
    }
  }
}
