/** The command lists of the deployer's host primitives
    (deployer/primitives_net.py, deployer/primitives_host.py,
    deployer/primitives_ovs.py) and that each delete list undoes what its create
    list did, even when creation was cut short. */
module Primitives {
  import opened Common
  import opened HostState

  datatype NewLink = NewVeth(rootLeg: string, bridge: Option<string>) | NewVlan(parent: string, id: nat) | NewDummy

  datatype HostOp =
    | Netns(space: Option<string>, owned: bool)
    | NetnsLink(ns: string, name: string, link: NewLink, renameTo: Option<string>)
    | LinkMove(owner: string, lent: string, to: string)
    | FactOp(fact: Fact)                                  // one address, or one route
    | Iptables(chain: Chain, args: string)
    | IpRule(policy: Policy)
    | OvsBridge(bridge: string, datapath: Option<string>, failMode: string)
    | OvsPort(on: string, port: string, tag: Option<string>, trunks: Option<string>)
    | TextFile(path: string, content: string)

  function FinalName(op: HostOp): string
    requires op.NetnsLink?
  {
    if op.renameTo.Some? then op.renameTo.value else op.name
  }

  /** The commands that bring a link into the root namespace. */
  function LinkStart(op: HostOp): seq<Cmd>
    requires op.NetnsLink?
  {
    match op.link
    case NewVeth(root, bridge) =>
      [AddVeth(root, op.name), SetUp(LinkKey(Root, root))]
          + (if bridge.Some? then [AddPort(bridge.value, root)] else [])
    case NewVlan(parent, id) => [AddVlan(parent, op.name, id)]
    case NewDummy => [AddDummy(op.name)]
  }

  /** And those that bring it into its namespace. */
  function LinkFinish(op: HostOp): seq<Cmd>
    requires op.NetnsLink?
  {
    [Move(LinkKey(Root, op.name), op.ns)]
    + (if op.renameTo.Some? then [Rename(LinkKey(In(op.ns), op.name), op.renameTo.value)] else [])
    + [SetUp(LinkKey(In(op.ns), FinalName(op)))]
  }

  function CreateCmds(op: HostOp): seq<Cmd> {
    match op
    case Netns(name, owned) =>
      if name.None? || !owned then []
          else [AddNetns(name.value), InNetns(name.value, "lo up"), InNetns(name.value, "net.ipv4.ip_forward=1"),
                InNetns(name.value, "net.ipv6.conf.all.forwarding=1")]
    case NetnsLink(_, _, _, _) => LinkStart(op) + LinkFinish(op)
    case LinkMove(owner, lent, to) => [Move(LinkKey(In(owner), lent), to), SetUp(LinkKey(In(to), lent))]
    case FactOp(f) => [AddFact(f)]
    case Iptables(chain, args) => [AppendRule(chain, args)]
    case IpRule(p) => [AddPolicy(p)]
    case OvsBridge(b, datapath, failMode) =>
      [AddBridge(b)] + (if datapath.Some? then [SetBridge(b, datapath.value)] else []) + [SetBridge(b, failMode)]
    case OvsPort(b, p, tag, trunks) =>
      [AddPort(b, p)] + (if tag.Some? then [SetPort(p, tag.value)] else [])
          + (if trunks.Some? then [SetPort(p, trunks.value)] else [])
    case TextFile(path, content) => [WriteFile(path, content)]
  }

  function DeleteCmds(op: HostOp): seq<Cmd> {
    match op
    case Netns(name, owned) => if name.None? || !owned then [] else [DelNetns(name.value)]
    case NetnsLink(ns, name, link, _) =>
      if link.NewVeth? then
        (if link.bridge.Some? then [DelPort(link.bridge.value, link.rootLeg)] else [])
            + [DelLink(LinkKey(Root, link.rootLeg))]
      else [DelLink(LinkKey(In(ns), name))]
    case LinkMove(owner, lent, to) => [Move(LinkKey(In(to), lent), owner)]
    case FactOp(f) => [DelFact(f)]
    case Iptables(chain, args) => [DeleteRule(chain, args)]
    case IpRule(p) => [DelPolicy(p)]
    case OvsBridge(b, _, _) => [DelBridge(b)]
    case OvsPort(b, p, _, _) => [DelPort(b, p)]
    case TextFile(path, _) => [Unlink(path)]
  }

  /** The list of a namespace link, built up the way the program does. */
  method LinkCommands(op: HostOp) returns (create: seq<Cmd>, delete: seq<Cmd>)
    requires op.NetnsLink?
    ensures create == CreateCmds(op) && delete == DeleteCmds(op)
  {
    create, delete := [], [];
    match op.link {
      case NewVlan(parent, id) => create := create + [AddVlan(parent, op.name, id)];
      case NewVeth(root, bridge) =>
        create := create + [AddVeth(root, op.name)];
        create := create + [SetUp(LinkKey(Root, root))];
        if bridge.Some? {
          create := create + [AddPort(bridge.value, root)];
        }
      case NewDummy => create := create + [AddDummy(op.name)];
    }
    assert create == LinkStart(op);
    create := create + [Move(LinkKey(Root, op.name), op.ns)];
    if op.renameTo.Some? {
      create := create + [Rename(LinkKey(In(op.ns), op.name), op.renameTo.value)];
    }
    create := create + [SetUp(LinkKey(In(op.ns), FinalName(op)))];
    assert create == LinkStart(op) + LinkFinish(op);
    if op.link.NewVeth? && op.link.bridge.Some? {
      delete := delete + [DelPort(op.link.bridge.value, op.link.rootLeg)];
    }
    delete := delete + [DelLink(if op.link.NewVeth? then LinkKey(Root, op.link.rootLeg)
        else LinkKey(In(op.ns), op.name))];
  }

  // ---------------------------------------------------------------------
  // Running a list
  // ---------------------------------------------------------------------

  /** The state once all the commands applied, one after the other. */
  function After(h: Host, cmds: seq<Cmd>): Option<Host> {
    if cmds == [] then Some(h)
    else
      var rest := After(h, cmds[..|cmds| - 1]);
      if rest.None? then None else Exec(rest.value, cmds[|cmds| - 1])
  }

  /** Best effort: a command that fails is passed over. */
  function Try(h: Host, c: Cmd): Host {
    var r := Exec(h, c);
    if r.Some? then r.value else h
  }

  function TryAll(h: Host, cmds: seq<Cmd>): Host
    decreases cmds
  {
    if cmds == [] then h else TryAll(Try(h, cmds[0]), cmds[1..])
  }

  ghost predicate IsAddedBy(op: HostOp, o: Obj) {
    exists i | 0 <= i < |CreateCmds(op)| :: Adds(CreateCmds(op)[i], o)
  }

  /** What one of its create commands adds, by name. */
  ghost predicate Claims(op: HostOp, o: Obj) {
    forall n: nat {:trigger Turns(n)} :: Turns(n) && n == |CreateCmds(op)| ==> IsAddedBy(op, o)
  }

  lemma ClaimsMeans(op: HostOp, o: Obj)
    ensures Claims(op, o) <==> IsAddedBy(op, o)
  {
    assert Turns(|CreateCmds(op)|);
  }

  /** What its delete list looks for. */
  ghost predicate Touches(op: HostOp, o: Obj) {
    exists i | 0 <= i < |DeleteCmds(op)| :: Needs(DeleteCmds(op)[i]) == Some(o)
  }

  ghost predicate Untouched(h: Host, op: HostOp) {
    forall o | Touches(op, o) :: !Has(h, o)
  }

  /** `t` is `s`, except that it may miss facts among `lost`. */
  ghost predicate Similar(t: Host, s: Host, lost: iset<Fact>) {
    && t.(facts := s.facts) == s
    && t.facts <= s.facts
    && (forall f | f in s.facts && f !in t.facts :: f in lost)
  }

  lemma {:induction false} OnlyClaims(h: Host, op: HostOp, c: nat, o: Obj)
    requires c <= |CreateCmds(op)| && After(h, CreateCmds(op)[..c]).Some? && Has(After(h, CreateCmds(op)[..c]).value, o)
    ensures Has(h, o) || Claims(op, o)
  {
    if c > 0 {
      var cmds := CreateCmds(op)[..c];
      assert cmds[..c - 1] == CreateCmds(op)[..c - 1];
      var before := After(h, cmds[..c - 1]).value;
      OnlyAdds(before, cmds[c - 1], o);
      ClaimsMeans(op, o);
      if Has(before, o) {
        OnlyClaims(h, op, c - 1, o);
      }
    }
  }

  /** Deleting what was never created changes nothing. */
  lemma {:induction false} DeletingNothing(h: Host, cmds: seq<Cmd>)
    requires h.Valid()
    requires forall i | 0 <= i < |cmds| :: Needs(cmds[i]).Some? && !Has(h, Needs(cmds[i]).value)
    ensures TryAll(h, cmds) == h
  {
    if cmds != [] {
      NothingToDo(h, cmds[0]);
      DeletingNothing(h, cmds[1..]);
    }
  }

  lemma NeverCreated(h: Host, op: HostOp)
    requires h.Valid() && Untouched(h, op)
    ensures TryAll(h, DeleteCmds(op)) == h
  {
    forall i | 0 <= i < |DeleteCmds(op)|
        ensures Needs(DeleteCmds(op)[i]).Some? && !Has(h, Needs(DeleteCmds(op)[i]).value) {
      assert Touches(op, Needs(DeleteCmds(op)[i]).value);
    }
    DeletingNothing(h, DeleteCmds(op));
  }

  // ---------------------------------------------------------------------
  // The same by name (see `Turns`), where only the effect of a list matters
  // ---------------------------------------------------------------------

  /** The first `c` create commands of `op` made `u` of `s`. */
  ghost predicate Reached(s: Host, op: HostOp, c: nat, u: Host) {
    forall n: nat {:trigger Turns(n)} :: Turns(n) && n == c ==>
        n <= |CreateCmds(op)| && After(s, CreateCmds(op)[..n]) == Some(u)
  }

  lemma ReachedMeans(s: Host, op: HostOp, c: nat, u: Host)
    ensures Reached(s, op, c, u) <==> c <= |CreateCmds(op)| && After(s, CreateCmds(op)[..c]) == Some(u)
  {
    assert Turns(c);
  }

  /** Creating `op` succeeded. */
  ghost predicate Created(s: Host, op: HostOp, u: Host) {
    Reached(s, op, |CreateCmds(op)|, u)
  }

  ghost predicate IsDeleted(h: Host, op: HostOp, r: Host) {
    forall n: nat {:trigger Turns(n)} :: Turns(n) && n == |DeleteCmds(op)| ==> r == TryAll(h, DeleteCmds(op))
  }

  /** `h` after the delete list of `op`. */
  ghost function Deleted(h: Host, op: HostOp): Host {
    assert IsDeleted(h, op, TryAll(h, DeleteCmds(op)));
    var r :| IsDeleted(h, op, r);
    r
  }

  lemma DeletedIs(h: Host, op: HostOp)
    ensures Deleted(h, op) == TryAll(h, DeleteCmds(op))
  {
    assert Turns(|DeleteCmds(op)|);
  }

  lemma DeletedUntouched(h: Host, op: HostOp)
    requires h.Valid() && Untouched(h, op)
    ensures Deleted(h, op) == h
  {
    NeverCreated(h, op);
    DeletedIs(h, op);
  }

  lemma ReachedHolds(s: Host, op: HostOp, c: nat, u: Host, o: Obj)
    requires Reached(s, op, c, u) && Has(u, o)
    ensures Has(s, o) || Claims(op, o)
  {
    ReachedMeans(s, op, c, u);
    OnlyClaims(s, op, c, o);
  }
}
