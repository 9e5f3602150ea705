/** Deleting one operation: whatever part of its create list applied, its delete
    list brings the host back, apart from facts that links lost when they moved. */
module Undo {
  import opened Common
  import opened HostState
  import opened Primitives

  /** The interruptions a delete list recovers from: `c` create commands
      applied. A vlan or dummy that was not moved yet, or was renamed, is not
      found by its delete command. */
  predicate Undone(op: HostOp, c: nat) {
    op.NetnsLink? && !op.link.NewVeth? ==> c != 1 && (op.renameTo.Some? ==> c < 3)
  }

  /** Before the last of the first `c` commands. */
  lemma OneLess(h: Host, op: HostOp, c: nat) returns (before: Host)
    requires 0 < c <= |CreateCmds(op)| && After(h, CreateCmds(op)[..c]).Some?
    ensures After(h, CreateCmds(op)[..c - 1]) == Some(before)
    ensures Exec(before, CreateCmds(op)[c - 1]) == After(h, CreateCmds(op)[..c])
  {
    assert CreateCmds(op)[..c][..c - 1] == CreateCmds(op)[..c - 1];
    before := After(h, CreateCmds(op)[..c - 1]).value;
  }

  // ---------------------------------------------------------------------
  // Links
  // ---------------------------------------------------------------------

  /** Where the link is after `c` of its create commands. */
  function PlaceAfter(op: HostOp, c: nat): LinkKey
    requires op.NetnsLink?
  {
    var start := |LinkStart(op)|;
    if c <= start then LinkKey(Root, op.name)
    else if op.renameTo.Some? && c > start + 1 then LinkKey(In(op.ns), op.renameTo.value)
    else LinkKey(In(op.ns), op.name)
  }

  function KindOf(op: HostOp): LinkKind
    requires op.NetnsLink?
  {
    match op.link
    case NewVeth(root, _) => Veth(root)
    case NewVlan(parent, id) => Vlan(parent, id)
    case NewDummy => Dummy
  }

  /** The links after `c` commands: one more, and the root leg of a veth. */
  function LinksAfter(s: Host, op: HostOp, c: nat): map<LinkKey, LinkKind>
    requires op.NetnsLink?
  {
    var links := if op.link.NewVeth? then s.links[LinkKey(Root, op.link.rootLeg) := KindOf(op)] else s.links;
    links[PlaceAfter(op, c) := KindOf(op)]
  }

  function PortsAfter(s: Host, op: HostOp, c: nat): map<string, Port>
    requires op.NetnsLink?
  {
    if op.link.NewVeth? && op.link.bridge.Some? && c > 2
        then s.ports[op.link.rootLeg := Port(op.link.bridge.value, [])] else s.ports
  }

  /** The state after `c > 0` commands of a link's creation: nothing else
      changed, and every new fact is on a new link. */
  ghost predicate Staged(s: Host, op: HostOp, c: nat, u: Host)
    requires op.NetnsLink?
  {
    && u == s.(links := LinksAfter(s, op, c), ports := PortsAfter(s, op, c), facts := u.facts)
    && PlaceAfter(op, c) !in s.links
    && (op.link.NewVeth? ==>
          && LinkKey(Root, op.link.rootLeg) !in s.links
          && PlaceAfter(op, c) != LinkKey(Root, op.link.rootLeg)
          && (PortsAfter(s, op, c) != s.ports ==> op.link.rootLeg !in s.ports))
    && (forall f :: f in s.facts <==> f in u.facts && f.at in s.links)
    && (forall f | f in u.facts :: f.at in u.links)
  }

  lemma StageStartVeth(s: Host, op: HostOp, u: Host)
    requires s.Valid() && op.NetnsLink? && op.link.NewVeth? && Exec(s, AddVeth(op.link.rootLeg, op.name)) == Some(u)
    ensures Staged(s, op, 1, u)
  {
  }

  lemma StageStartPlain(s: Host, op: HostOp, u: Host)
    requires s.Valid() && op.NetnsLink? && !op.link.NewVeth? && AddLink(s, op.name, KindOf(op)) == Some(u)
    ensures Staged(s, op, 1, u)
  {
  }

  lemma StageStart(s: Host, op: HostOp, u: Host)
    requires s.Valid() && op.NetnsLink? && After(s, CreateCmds(op)[..1]) == Some(u)
    ensures Staged(s, op, 1, u)
  {
    var before := OneLess(s, op, 1);
    assert before == s;
    if op.link.NewVeth? {
      assert CreateCmds(op)[0] == AddVeth(op.link.rootLeg, op.name);
      StageStartVeth(s, op, u);
    } else {
      StageStartPlain(s, op, u);
    }
  }

  lemma StageUp(s: Host, op: HostOp, c: nat, v: Host, u: Host, at: LinkKey)
    requires op.NetnsLink? && c > 1 && Staged(s, op, c - 1, v) && Exec(v, SetUp(at)) == Some(u) && at !in s.links
    requires PlaceAfter(op, c) == PlaceAfter(op, c - 1) && PortsAfter(s, op, c) == PortsAfter(s, op, c - 1)
    ensures Staged(s, op, c, u)
  {
  }

  lemma StagePort(s: Host, op: HostOp, v: Host, u: Host)
    requires op.NetnsLink? && op.link.NewVeth? && op.link.bridge.Some? && Staged(s, op, 2, v)
    requires Exec(v, AddPort(op.link.bridge.value, op.link.rootLeg)) == Some(u)
    ensures Staged(s, op, 3, u)
  {
  }

  lemma StageMove(s: Host, op: HostOp, c: nat, v: Host, u: Host)
    requires op.NetnsLink? && c == |LinkStart(op)| + 1 && Staged(s, op, c - 1, v)
    requires Exec(v, Move(LinkKey(Root, op.name), op.ns)) == Some(u)
    ensures Staged(s, op, c, u)
  {
    assert (v.links - {LinkKey(Root, op.name)})[LinkKey(In(op.ns), op.name) := KindOf(op)] == LinksAfter(s, op, c);
  }

  lemma StageRename(s: Host, op: HostOp, c: nat, v: Host, u: Host)
    requires op.NetnsLink? && op.renameTo.Some? && c == |LinkStart(op)| + 2 && Staged(s, op, c - 1, v)
    requires Exec(v, Rename(LinkKey(In(op.ns), op.name), op.renameTo.value)) == Some(u)
    ensures Staged(s, op, c, u)
  {
    var at, to := LinkKey(In(op.ns), op.name), LinkKey(In(op.ns), op.renameTo.value);
    assert (v.links - {at})[to := KindOf(op)] == LinksAfter(s, op, c);
    forall f ensures f in s.facts <==> f in u.facts && f.at in s.links {
      if f in s.facts {
        assert f in v.facts && f.at != at;
      }
    }
  }

  /** The `c`th create command of a link. */
  lemma LinkCommand(op: HostOp, c: nat)
    requires op.NetnsLink? && 1 < c <= |CreateCmds(op)|
    ensures var cmd, start := CreateCmds(op)[c - 1], |LinkStart(op)|;
            if c == start + 1 then cmd == Move(LinkKey(Root, op.name), op.ns)
            else if c == start + 2 && op.renameTo.Some?
                then cmd == Rename(LinkKey(In(op.ns), op.name), op.renameTo.value)
            else if c > start then cmd == SetUp(PlaceAfter(op, c)) && c == |CreateCmds(op)|
                && PlaceAfter(op, c) == PlaceAfter(op, c - 1)
            else op.link.NewVeth? && if c == 2 then cmd == SetUp(LinkKey(Root, op.link.rootLeg))
            else c == 3 && op.link.bridge.Some? && cmd == AddPort(op.link.bridge.value, op.link.rootLeg)
  {
  }

  lemma StageNext(s: Host, op: HostOp, c: nat, v: Host, u: Host)
    requires op.NetnsLink? && 1 < c <= |CreateCmds(op)| && Staged(s, op, c - 1, v)
    requires Exec(v, CreateCmds(op)[c - 1]) == Some(u)
    ensures Staged(s, op, c, u)
  {
    LinkCommand(op, c);
    var start := |LinkStart(op)|;
    if c == start + 1 {
      StageMove(s, op, c, v, u);
    } else if c == start + 2 && op.renameTo.Some? {
      StageRename(s, op, c, v, u);
    } else if c > start {
      StageUp(s, op, c, v, u, PlaceAfter(op, c));
    } else if c == 2 {
      StageUp(s, op, c, v, u, LinkKey(Root, op.link.rootLeg));
    } else {
      StagePort(s, op, v, u);
    }
  }

  /** What the state is after any number of a link's create commands. */
  lemma {:induction false} LinkStages(s: Host, op: HostOp, c: nat, u: Host)
    requires s.Valid() && op.NetnsLink? && 0 < c <= |CreateCmds(op)| && After(s, CreateCmds(op)[..c]) == Some(u)
    ensures Staged(s, op, c, u)
  {
    if c == 1 {
      StageStart(s, op, u);
    } else {
      var v := OneLess(s, op, c);
      LinkStages(s, op, c - 1, v);
      StageNext(s, op, c, v, u);
    }
  }

  /** What `t` may miss of `u` is no loss for `s` beyond `lost`. */
  ghost predicate NoLoss(missing: iset<Fact>, s: Host, lost: iset<Fact>) {
    forall f | f in missing && f in s.facts :: f in lost
  }

  /** Deleting the links `gone` that `s` does not have. */
  lemma DropNewLinks(s: Host, op: HostOp, c: nat, u: Host, t: Host, gone: set<LinkKey>, missing: iset<Fact>,
      lost: iset<Fact>)
    requires op.NetnsLink? && Staged(s, op, c, u) && Similar(t, u, missing) && NoLoss(missing, s, lost)
    requires forall k :: k in gone <==> k in u.links && k !in s.links
    ensures Similar(DropLinks(t, gone).(ports := s.ports), s, lost)
  {
    assert t.links - gone == s.links;
  }

  lemma NoVethKnownBy(s: Host, root: string)
    requires s.Valid() && LinkKey(Root, root) !in s.links
    ensures forall k | k in s.links :: s.links[k] != Veth(root)
  {
  }

  lemma VethEnds(s: Host, op: HostOp, c: nat, u: Host, t: Host)
    requires s.Valid() && op.NetnsLink? && op.link.NewVeth? && Staged(s, op, c, u) && t.links == u.links
    ensures LinkKey(Root, op.link.rootLeg) in t.links
    ensures Ends(t, LinkKey(Root, op.link.rootLeg)) == {LinkKey(Root, op.link.rootLeg), PlaceAfter(op, c)}
  {
    NoVethKnownBy(s, op.link.rootLeg);
  }

  /** The port is gone, or was never there. */
  lemma PortIsGone(s: Host, op: HostOp, c: nat, u: Host, t: Host)
    requires op.NetnsLink? && op.link.NewVeth? && op.link.bridge.Some? && Staged(s, op, c, u) && Untouched(s, op)
    requires t.ports == u.ports
    ensures Try(t, DelPort(op.link.bridge.value, op.link.rootLeg)) == t.(ports := s.ports)
  {
    assert Touches(op, PortOf(op.link.rootLeg)) by {
      assert Needs(DeleteCmds(op)[0]) == Some(PortOf(op.link.rootLeg));
    }
    assert t.ports - {op.link.rootLeg} == s.ports;
  }

  lemma UndoVeth(s: Host, op: HostOp, c: nat, u: Host, t: Host, missing: iset<Fact>, lost: iset<Fact>)
    requires s.Valid() && op.NetnsLink? && op.link.NewVeth? && Staged(s, op, c, u) && Untouched(s, op)
    requires Similar(t, u, missing) && NoLoss(missing, s, lost)
    ensures Similar(TryAll(t, DeleteCmds(op)), s, lost)
  {
    var root := LinkKey(Root, op.link.rootLeg);
    VethEnds(s, op, c, u, t);
    DropNewLinks(s, op, c, u, t, Ends(t, root), missing, lost);
    if op.link.bridge.Some? {
      PortIsGone(s, op, c, u, t);
      var cmds := [DelPort(op.link.bridge.value, op.link.rootLeg), DelLink(root)];
      assert cmds[1..] == [DelLink(root)];
      assert TryAll(t, cmds) == TryAll(t.(ports := s.ports), [DelLink(root)]) ==
          Try(t.(ports := s.ports), DelLink(root));
    } else {
      assert TryAll(t, [DelLink(root)]) == Try(t, DelLink(root));
    }
  }

  /** A vlan or dummy that is where its delete command looks. */
  lemma UndoPlain(s: Host, op: HostOp, c: nat, u: Host, t: Host, missing: iset<Fact>, lost: iset<Fact>)
    requires s.Valid() && op.NetnsLink? && !op.link.NewVeth? && Staged(s, op, c, u) && c > 1 && Undone(op, c)
    requires Similar(t, u, missing) && NoLoss(missing, s, lost)
    ensures Similar(TryAll(t, DeleteCmds(op)), s, lost)
  {
    var at := PlaceAfter(op, c);
    assert Ends(t, at) == {at};
    DropNewLinks(s, op, c, u, t, {at}, missing, lost);
    assert TryAll(t, [DelLink(at)]) == Try(t, DelLink(at));
  }

  // ---------------------------------------------------------------------
  // The rest
  // ---------------------------------------------------------------------

  /** After its first command, the rest of an operation's creation changes
      nothing its delete list does not take away. */
  ghost predicate Grown(s: Host, op: HostOp, u: Host) {
    match op
    case Netns(space, owned) =>
        && space.Some? && owned && space.value !in s.spaces && space.value in u.spaces
        && u == s.(spaces := s.spaces[space.value := u.spaces[space.value]])
    case LinkMove(owner, lent, to) =>
      var from, at := LinkKey(In(owner), lent), LinkKey(In(to), lent);
      && from in s.links && at !in s.links
      && u == s.(links := (s.links - {from})[at := s.links[from]], facts := u.facts)
      && (forall f :: f in s.facts && f.at != from <==> f in u.facts && f.at != at)
      && (forall f | f in u.facts :: f.at != from)
    case FactOp(f) => f !in s.facts && u == s.(facts := s.facts + {f})
    case Iptables(chain, args) =>
        chain.ns in s.spaces && u == s.(rules := Put(s.rules, chain, RulesOf(s, chain) + [args]))
    case IpRule(p) => p !in s.policies && u == s.(policies := s.policies + {p})
    case OvsBridge(b, _, _) => b !in s.bridges && b in u.bridges && u == s.(bridges := s.bridges[b := u.bridges[b]])
    case OvsPort(b, p, _, _) =>
      p !in s.ports && p in u.ports && u == s.(ports := s.ports[p := u.ports[p]]) && u.ports[p].bridge == b
    case TextFile(path, content) => u == s.(files := s.files[path := WithNewline(content)])
    case NetnsLink(_, _, _, _) => false
  }

  lemma GrownStart(s: Host, op: HostOp, u: Host)
    requires s.Valid() && !op.NetnsLink? && CreateCmds(op) != [] && After(s, CreateCmds(op)[..1]) == Some(u)
    ensures Grown(s, op, u)
  {
    var before := OneLess(s, op, 1);
    assert before == s;
    if op.LinkMove? {
      GrownByMove(s, op, u);
    } else {
      GrownByFirst(s, op, u);
    }
  }

  lemma GrownByMove(s: Host, op: HostOp, u: Host)
    requires s.Valid() && op.LinkMove? && Exec(s, CreateCmds(op)[0]) == Some(u)
    ensures Grown(s, op, u)
  {
  }

  lemma GrownByFirst(s: Host, op: HostOp, u: Host)
    requires s.Valid() && !op.NetnsLink? && !op.LinkMove? && CreateCmds(op) != []
    requires Exec(s, CreateCmds(op)[0]) == Some(u)
    ensures Grown(s, op, u)
  {
  }

  lemma GrownNext(s: Host, op: HostOp, c: nat, v: Host, u: Host)
    requires s.Valid() && !op.NetnsLink? && 1 < c <= |CreateCmds(op)|
    requires Grown(s, op, v) && Exec(v, CreateCmds(op)[c - 1]) == Some(u)
    ensures Grown(s, op, u)
  {
    match op
    case Netns(_, _) => SpaceGrowsOn(s, op, c, v, u);
    case LinkMove(owner, lent, to) => LentIsUp(s, op, v, u);
    case OvsBridge(_, _, _) => BridgeGrowsOn(s, op, c, v, u);
    case OvsPort(_, _, _, _) => PortGrowsOn(s, op, c, v, u);
    case _ =>
  }

  lemma SpaceGrowsOn(s: Host, op: HostOp, c: nat, v: Host, u: Host)
    requires op.Netns? && 1 < c <= |CreateCmds(op)|
    requires Grown(s, op, v) && Exec(v, CreateCmds(op)[c - 1]) == Some(u)
    ensures Grown(s, op, u)
  {
    assert CreateCmds(op)[c - 1].InNetns? && CreateCmds(op)[c - 1].ns == op.space.value;
  }

  lemma BridgeGrowsOn(s: Host, op: HostOp, c: nat, v: Host, u: Host)
    requires op.OvsBridge? && 1 < c <= |CreateCmds(op)|
    requires Grown(s, op, v) && Exec(v, CreateCmds(op)[c - 1]) == Some(u)
    ensures Grown(s, op, u)
  {
    assert CreateCmds(op)[c - 1].SetBridge? && CreateCmds(op)[c - 1].bridge == op.bridge;
  }

  lemma PortGrowsOn(s: Host, op: HostOp, c: nat, v: Host, u: Host)
    requires op.OvsPort? && 1 < c <= |CreateCmds(op)|
    requires Grown(s, op, v) && Exec(v, CreateCmds(op)[c - 1]) == Some(u)
    ensures Grown(s, op, u)
  {
    assert CreateCmds(op)[c - 1].SetPort? && CreateCmds(op)[c - 1].port == op.port;
  }

  lemma LentIsUp(s: Host, op: HostOp, v: Host, u: Host)
    requires s.Valid() && op.LinkMove? && Grown(s, op, v) && Exec(v, SetUp(LinkKey(In(op.to), op.lent))) == Some(u)
    ensures Grown(s, op, u)
  {
  }

  lemma {:induction false} GrownAfter(s: Host, op: HostOp, c: nat, u: Host)
    requires s.Valid() && !op.NetnsLink? && 0 < c <= |CreateCmds(op)| && After(s, CreateCmds(op)[..c]) == Some(u)
    ensures Grown(s, op, u)
  {
    if c == 1 {
      GrownStart(s, op, u);
    } else {
      var v := OneLess(s, op, c);
      GrownAfter(s, op, c - 1, v);
      GrownNext(s, op, c, v, u);
    }
  }

  lemma UndoSpace(s: Host, op: HostOp, u: Host, t: Host, missing: iset<Fact>, lost: iset<Fact>)
    requires s.Valid() && op.Netns? && Grown(s, op, u)
    requires Similar(t, u, missing) && NoLoss(missing, s, lost)
    ensures Similar(TryAll(t, DeleteCmds(op)), s, lost)
  {
    var ns := op.space.value;
    assert TryAll(t, [DelNetns(ns)]) == Try(t, DelNetns(ns)) == DropSpace(t, ns);
    assert LinksIn(t, ns) == {};
    assert t.links - {} == s.links;
    assert t.spaces - {ns} == s.spaces;
    assert (map c | c in t.rules && c.ns != ns :: t.rules[c]) == s.rules;
    assert (set p | p in t.policies && p.loc != In(ns)) == s.policies;
  }

  /** The lent link is back at its owner; what hung on it before is lost. */
  lemma UndoLend(s: Host, op: HostOp, u: Host, t: Host, missing: iset<Fact>, lost: iset<Fact>)
    requires s.Valid() && op.LinkMove? && Grown(s, op, u)
    requires Similar(t, u, missing) && NoLoss(missing, s, lost)
    requires forall f | f in s.facts && f.at == LinkKey(In(op.owner), op.lent) :: f in lost
    ensures Similar(TryAll(t, DeleteCmds(op)), s, lost)
  {
    var from, at := LinkKey(In(op.owner), op.lent), LinkKey(In(op.to), op.lent);
    assert TryAll(t, [Move(at, op.owner)]) == Try(t, Move(at, op.owner));
    assert (t.links - {at})[from := t.links[at]] == s.links;
  }

  lemma UndoRule(s: Host, op: HostOp, u: Host, t: Host, missing: iset<Fact>, lost: iset<Fact>)
    requires s.Valid() && op.Iptables? && Grown(s, op, u) && Untouched(s, op)
    requires Similar(t, u, missing) && NoLoss(missing, s, lost)
    ensures Similar(TryAll(t, DeleteCmds(op)), s, lost)
  {
    var q := RulesOf(s, op.chain);
    assert Touches(op, Rule(op.chain, op.args)) by {
      assert Needs(DeleteCmds(op)[0]) == Some(Rule(op.chain, op.args));
    }
    assert RulesOf(u, op.chain) == q + [op.args];
    RemoveAppended(q, op.args);
    assert TryAll(t, [DeleteRule(op.chain, op.args)]) == Try(t, DeleteRule(op.chain, op.args));
    assert Put(u.rules, op.chain, q) == s.rules;
  }

  lemma UndoBridge(s: Host, op: HostOp, u: Host, t: Host, missing: iset<Fact>, lost: iset<Fact>)
    requires s.Valid() && op.OvsBridge? && Grown(s, op, u)
    requires Similar(t, u, missing) && NoLoss(missing, s, lost)
    ensures Similar(TryAll(t, DeleteCmds(op)), s, lost)
  {
    var b := op.bridge;
    assert TryAll(t, [DelBridge(b)]) == Try(t, DelBridge(b));
    assert t.bridges - {b} == s.bridges;
    assert (map p | p in t.ports && t.ports[p].bridge != b :: t.ports[p]) == s.ports;
  }

  lemma UndoPort(s: Host, op: HostOp, u: Host, t: Host, missing: iset<Fact>, lost: iset<Fact>)
    requires s.Valid() && op.OvsPort? && Grown(s, op, u)
    requires Similar(t, u, missing) && NoLoss(missing, s, lost)
    ensures Similar(TryAll(t, DeleteCmds(op)), s, lost)
  {
    assert TryAll(t, [DelPort(op.on, op.port)]) == Try(t, DelPort(op.on, op.port));
    assert t.ports - {op.port} == s.ports;
  }

  lemma UndoFact(s: Host, op: HostOp, u: Host, t: Host, missing: iset<Fact>, lost: iset<Fact>)
    requires s.Valid() && op.FactOp? && Grown(s, op, u)
    requires Similar(t, u, missing) && NoLoss(missing, s, lost)
    ensures Similar(TryAll(t, DeleteCmds(op)), s, lost)
  {
    assert TryAll(t, [DelFact(op.fact)]) == Try(t, DelFact(op.fact));
    assert op.fact !in s.facts;
  }

  lemma UndoPolicy(s: Host, op: HostOp, u: Host, t: Host, missing: iset<Fact>, lost: iset<Fact>)
    requires s.Valid() && op.IpRule? && Grown(s, op, u)
    requires Similar(t, u, missing) && NoLoss(missing, s, lost)
    ensures Similar(TryAll(t, DeleteCmds(op)), s, lost)
  {
    assert TryAll(t, [DelPolicy(op.policy)]) == Try(t, DelPolicy(op.policy));
    assert t.policies - {op.policy} == s.policies;
  }

  lemma UndoFile(s: Host, op: HostOp, u: Host, t: Host, missing: iset<Fact>, lost: iset<Fact>)
    requires s.Valid() && op.TextFile? && Grown(s, op, u) && Untouched(s, op)
    requires Similar(t, u, missing) && NoLoss(missing, s, lost)
    ensures Similar(TryAll(t, DeleteCmds(op)), s, lost)
  {
    assert Touches(op, File(op.path)) by {
      assert Needs(DeleteCmds(op)[0]) == Some(File(op.path));
    }
    assert TryAll(t, [Unlink(op.path)]) == Try(t, Unlink(op.path));
    assert t.files - {op.path} == s.files;
  }

  /** The local inverse: `u` is what the first `c` create commands made of `s`;
      running the delete list on `u`, or on `u` without some facts, gives `s`
      back, without facts it could not keep. */
  lemma UndoIsInverse(s: Host, op: HostOp, c: nat, u: Host, t: Host, missing: iset<Fact>, lost: iset<Fact>)
    requires s.Valid() && Untouched(s, op) && 0 < c <= |CreateCmds(op)| && After(s, CreateCmds(op)[..c]) == Some(u)
    requires Undone(op, c) && Similar(t, u, missing) && NoLoss(missing, s, lost)
    requires op.LinkMove? ==> forall f | f in s.facts && f.at == LinkKey(In(op.owner), op.lent) :: f in lost
    ensures Similar(TryAll(t, DeleteCmds(op)), s, lost)
  {
    if op.NetnsLink? {
      LinkStages(s, op, c, u);
      if op.link.NewVeth? {
        UndoVeth(s, op, c, u, t, missing, lost);
      } else {
        UndoPlain(s, op, c, u, t, missing, lost);
      }
    } else {
      GrownAfter(s, op, c, u);
      match op
      case Netns(_, _) => UndoSpace(s, op, u, t, missing, lost);
      case LinkMove(_, _, _) => UndoLend(s, op, u, t, missing, lost);
      case Iptables(_, _) => UndoRule(s, op, u, t, missing, lost);
      case OvsBridge(_, _, _) => UndoBridge(s, op, u, t, missing, lost);
      case OvsPort(_, _, _, _) => UndoPort(s, op, u, t, missing, lost);
      case FactOp(_) => UndoFact(s, op, u, t, missing, lost);
      case IpRule(_) => UndoPolicy(s, op, u, t, missing, lost);
      case TextFile(_, _) => UndoFile(s, op, u, t, missing, lost);
    }
  }

  lemma KeepsLegsWhileCreating(s: Host, op: HostOp, c: nat, v: Host)
    requires s.Valid() && 0 < c <= |CreateCmds(op)| && After(s, CreateCmds(op)[..c - 1]) == Some(v)
    ensures KeepsLegs(v, CreateCmds(op)[c - 1]) && Creating(CreateCmds(op)[c - 1])
  {
    if op.NetnsLink? && c > 1 {
      LinkKeepsLegs(s, op, c, v);
    } else if op.NetnsLink? {
      StartKeepsLegs(op, v);
    } else {
      OtherKeepsLegs(op, c, v);
    }
  }

  lemma StartKeepsLegs(op: HostOp, v: Host)
    requires op.NetnsLink?
    ensures KeepsLegs(v, CreateCmds(op)[0]) && Creating(CreateCmds(op)[0])
  {
  }

  lemma OtherKeepsLegs(op: HostOp, c: nat, v: Host)
    requires !op.NetnsLink? && 0 < c <= |CreateCmds(op)|
    ensures KeepsLegs(v, CreateCmds(op)[c - 1]) && Creating(CreateCmds(op)[c - 1])
  {
  }

  lemma LinkKeepsLegs(s: Host, op: HostOp, c: nat, v: Host)
    requires s.Valid() && op.NetnsLink? && 1 < c <= |CreateCmds(op)| && After(s, CreateCmds(op)[..c - 1]) == Some(v)
    ensures KeepsLegs(v, CreateCmds(op)[c - 1]) && Creating(CreateCmds(op)[c - 1])
  {
    LinkStages(s, op, c - 1, v);
    LinkCommand(op, c);
  }

  lemma {:induction false} CreatedIsValid(s: Host, op: HostOp, c: nat, u: Host)
    requires s.Valid() && c <= |CreateCmds(op)| && After(s, CreateCmds(op)[..c]) == Some(u)
    ensures u.Valid()
  {
    if c > 0 {
      var v := OneLess(s, op, c);
      CreatedIsValid(s, op, c - 1, v);
      KeepsLegsWhileCreating(s, op, c, v);
      CreatingStaysValid(v, CreateCmds(op)[c - 1]);
    }
  }

  /** The facts a link's creation claims: its legs are up. */
  lemma LinkClaims(op: HostOp, f: Fact)
    requires op.NetnsLink? && Claims(op, FactOf(f))
    ensures f == Up(PlaceAfter(op, |CreateCmds(op)|)) || (op.link.NewVeth? && f == Up(LinkKey(Root, op.link.rootLeg)))
  {
    var cmds := CreateCmds(op);
    ClaimsMeans(op, FactOf(f));
    var i :| 0 <= i < |cmds| && Adds(cmds[i], FactOf(f));
    if i > 0 {
      LinkCommand(op, i + 1);
    }
  }

  lemma OtherClaims(op: HostOp, f: Fact)
    requires !op.NetnsLink? && Claims(op, FactOf(f))
    ensures (op.LinkMove? && f == Up(LinkKey(In(op.to), op.lent))) || op == FactOp(f)
  {
    ClaimsMeans(op, FactOf(f));
    var i :| 0 <= i < |CreateCmds(op)| && Adds(CreateCmds(op)[i], FactOf(f));
  }

  /** A fact that a completed operation claims was not there before it. */
  lemma CompletedClaimsAreNew(s: Host, op: HostOp, u: Host, f: Fact)
    requires s.Valid() && After(s, CreateCmds(op)) == Some(u) && Claims(op, FactOf(f))
    ensures f !in s.facts
  {
    var c := |CreateCmds(op)|;
    assert CreateCmds(op)[..c] == CreateCmds(op);
    if op.NetnsLink? {
      LinkClaims(op, f);
      LinkStages(s, op, c, u);
    } else {
      OtherClaims(op, f);
      GrownAfter(s, op, c, u);
    }
  }

  // ---------------------------------------------------------------------
  // Where it is not undone
  // ---------------------------------------------------------------------

  lemma {:induction false} RenamedIsAnother(s: Host, op: HostOp, c: nat, u: Host)
    requires s.Valid() && op.NetnsLink? && op.renameTo.Some? && |LinkStart(op)| + 2 <= c <= |CreateCmds(op)|
    requires After(s, CreateCmds(op)[..c]) == Some(u)
    ensures op.renameTo.value != op.name
  {
    var v := OneLess(s, op, c);
    if c == |LinkStart(op)| + 2 {
      LinkStages(s, op, c - 1, v);
      LinkCommand(op, c);
    } else {
      RenamedIsAnother(s, op, c - 1, v);
    }
  }

  /** The place its delete command looks at is empty. */
  lemma DeleteLooksElsewhere(s: Host, op: HostOp, c: nat, u: Host)
    requires s.Valid() && Untouched(s, op) && 0 < c <= |CreateCmds(op)| && After(s, CreateCmds(op)[..c]) == Some(u)
    requires !Undone(op, c)
    ensures LinkKey(In(op.ns), op.name) !in u.links
  {
    LinkStages(s, op, c, u);
    if c > 1 {
      RenamedIsAnother(s, op, c, u);
    }
    assert Touches(op, Link(LinkKey(In(op.ns), op.name))) by {
      assert Needs(DeleteCmds(op)[0]) == Some(Link(LinkKey(In(op.ns), op.name)));
    }
  }

  lemma LinkIsNew(s: Host, op: HostOp, c: nat, u: Host)
    requires op.NetnsLink? && !op.link.NewVeth? && Staged(s, op, c, u)
    ensures u.links.Keys == s.links.Keys + {PlaceAfter(op, c)} && PlaceAfter(op, c) !in s.links
  {
  }

  // ---------------------------------------------------------------------
  // By name
  // ---------------------------------------------------------------------

  lemma ReachedIsValid(s: Host, op: HostOp, c: nat, u: Host)
    requires s.Valid() && Reached(s, op, c, u)
    ensures u.Valid()
  {
    ReachedMeans(s, op, c, u);
    CreatedIsValid(s, op, c, u);
  }

  lemma CreatedClaimsAreNew(s: Host, op: HostOp, u: Host, f: Fact)
    requires s.Valid() && Created(s, op, u) && Claims(op, FactOf(f))
    ensures f !in s.facts
  {
    ReachedMeans(s, op, |CreateCmds(op)|, u);
    assert CreateCmds(op)[..|CreateCmds(op)|] == CreateCmds(op);
    CompletedClaimsAreNew(s, op, u, f);
  }

  /** The facts of `s` a lent link loses are among `lost`. */
  ghost predicate LentLoss(s: Host, op: HostOp, lost: iset<Fact>) {
    op.LinkMove? ==> forall f | f in s.facts && f.at == LinkKey(In(op.owner), op.lent) :: f in lost
  }

  lemma DeletedIsInverse(s: Host, op: HostOp, c: nat, u: Host, t: Host, missing: iset<Fact>, lost: iset<Fact>)
    requires s.Valid() && Untouched(s, op) && Reached(s, op, c, u) && Undone(op, c) && LentLoss(s, op, lost)
    requires Similar(t, u, missing) && NoLoss(missing, s, lost)
    requires c == 0 ==> CreateCmds(op) == [] || t == u
    ensures Similar(Deleted(t, op), s, lost)
  {
    ReachedMeans(s, op, c, u);
    DeletedIs(t, op);
    if c == 0 {
      if t == u {
        NeverCreated(s, op);
      } else {
        assert DeleteCmds(op) == [];
      }
    } else {
      UndoIsInverse(s, op, c, u, t, missing, lost);
    }
  }

  /** The converse: a vlan or dummy interrupted before its move, or already
      renamed, stays where it is, and nothing else does. */
  lemma NotUndoneStaysBehind(
    s: Host, op: HostOp, c: nat, u: Host, t: Host, missing: iset<Fact>, lost: iset<Fact>)
    requires s.Valid() && Untouched(s, op) && Reached(s, op, c, u) && !Undone(op, c) && c > 0
    requires Similar(t, u, missing) && NoLoss(missing, s, lost)
    ensures Deleted(t, op) == t
    ensures PlaceAfter(op, c) in t.links && PlaceAfter(op, c) !in s.links && !t.links[PlaceAfter(op, c)].Veth?
    ensures Similar(DropLinks(t, {PlaceAfter(op, c)}), s, lost)
  {
    ReachedMeans(s, op, c, u);
    DeletedIs(t, op);
    LinkStages(s, op, c, u);
    LinkIsNew(s, op, c, u);
    DeleteLooksElsewhere(s, op, c, u);
    var cmd := DelLink(LinkKey(In(op.ns), op.name));
    assert TryAll(t, [cmd]) == Try(t, cmd);
    DropNewLinks(s, op, c, u, t, {PlaceAfter(op, c)}, missing, lost);
  }
}
