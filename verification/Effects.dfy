/** What creating an operation brings about: the object it names, in full, and
    nothing else. */
module Effects {
  import opened Common
  import opened HostState
  import opened Primitives
  import opened Undo
  import opened Lifecycle
  import opened Rewind

  /** `u` is `s` with what the operation declares, and no more. */
  ghost predicate Brings(s: Host, op: HostOp, u: Host) {
    match op
    case Netns(space, owned) =>
      if space.None? || !owned then u == s
      else
        && space.value !in s.spaces
        && u == s.(spaces := s.spaces[space.value :=
                     ["lo up", "net.ipv4.ip_forward=1", "net.ipv6.conf.all.forwarding=1"]])
    case NetnsLink(ns, name, link, renameTo) =>
      BringsLink(s, link, LinkKey(In(ns), if renameTo.Some? then renameTo.value else name), u)
    case LinkMove(owner, lent, to) =>
      var from, at := LinkKey(In(owner), lent), LinkKey(In(to), lent);
      && from in s.links && at !in s.links
      && u == s.(links := (s.links - {from})[at := s.links[from]], facts := OtherFacts(s.facts, {from}) + {Up(at)})
    case FactOp(f) => f !in s.facts && u == s.(facts := s.facts + {f})
    case Iptables(chain, args) => u == s.(rules := s.rules[chain := RulesOf(s, chain) + [args]])
    case IpRule(p) => p !in s.policies && u == s.(policies := s.policies + {p})
    case OvsBridge(b, datapath, failMode) =>
      && b !in s.bridges
      && u == s.(bridges := s.bridges[b := if datapath.Some? then [datapath.value, failMode] else [failMode]])
    case OvsPort(b, p, tag, trunks) =>
      && p !in s.ports
      && u == s.(ports := s.ports[p := Port(b, (if tag.Some? then [tag.value] else [])
                                                + if trunks.Some? then [trunks.value] else [])])
    case TextFile(path, content) =>
      u == s.(files := s.files[path := if EndsInNewline(content) then content else content + "\n"])
  }

  predicate EndsInNewline(s: string) {
    s != "" && s[|s| - 1] == '\n'
  }

  /** The link is at its place in its namespace, up; the other leg of a veth is in
      the root namespace, up, and on its bridge. */
  ghost predicate BringsLink(s: Host, link: NewLink, at: LinkKey, u: Host) {
    at !in s.links &&
    match link
    case NewVeth(root, bridge) =>
      var leg := LinkKey(Root, root);
      && leg !in s.links
      && u == s.(links := s.links[leg := Veth(root)][at := Veth(root)],
                 facts := s.facts + {Up(leg), Up(at)},
                 ports := if bridge.Some? then s.ports[root := Port(bridge.value, [])] else s.ports)
    case NewVlan(parent, id) => u == s.(links := s.links[at := Vlan(parent, id)], facts := s.facts + {Up(at)})
    case NewDummy => u == s.(links := s.links[at := Dummy], facts := s.facts + {Up(at)})
  }

  // ---------------------------------------------------------------------
  // Objects that get settings one by one
  // ---------------------------------------------------------------------

  const SPACE_SETTINGS := ["lo up", "net.ipv4.ip_forward=1", "net.ipv6.conf.all.forwarding=1"]

  function BridgeSettings(op: HostOp): seq<string>
    requires op.OvsBridge?
  {
    if op.datapath.Some? then [op.datapath.value, op.failMode] else [op.failMode]
  }

  function PortSettings(op: HostOp): seq<string>
    requires op.OvsPort?
  {
    (if op.tag.Some? then [op.tag.value] else []) + if op.trunks.Some? then [op.trunks.value] else []
  }

  lemma SettingCommand(op: HostOp, c: nat)
    requires (op.Netns? || op.OvsBridge? || op.OvsPort?) && 0 < c <= |CreateCmds(op)|
    ensures var cmd := CreateCmds(op)[c - 1];
            match op
            case Netns(space, _) =>
              && space.Some? && |CreateCmds(op)| == |SPACE_SETTINGS| + 1
              && cmd == if c == 1 then AddNetns(space.value) else InNetns(space.value, SPACE_SETTINGS[c - 2])
            case OvsBridge(b, _, _) =>
              && |CreateCmds(op)| == |BridgeSettings(op)| + 1
              && cmd == if c == 1 then AddBridge(b) else SetBridge(b, BridgeSettings(op)[c - 2])
            case OvsPort(b, p, _, _) =>
              && |CreateCmds(op)| == |PortSettings(op)| + 1
              && cmd == if c == 1 then AddPort(b, p) else SetPort(p, PortSettings(op)[c - 2])
            case _ => true
  {
  }

  lemma OneSettingMore(settings: seq<string>, c: nat)
    requires 1 < c <= |settings| + 1
    ensures settings[..c - 1] == settings[..c - 2] + [settings[c - 2]]
  {
  }

  lemma {:induction false} SpaceStages(s: Host, op: HostOp, c: nat, u: Host)
    requires op.Netns? && 0 < c <= |CreateCmds(op)| && After(s, CreateCmds(op)[..c]) == Some(u)
    ensures op.space.Some? && op.space.value !in s.spaces && c <= |SPACE_SETTINGS| + 1
    ensures u == s.(spaces := s.spaces[op.space.value := SPACE_SETTINGS[..c - 1]])
  {
    var v := OneLess(s, op, c);
    SettingCommand(op, c);
    if c > 1 {
      SpaceStages(s, op, c - 1, v);
      OneSettingMore(SPACE_SETTINGS, c);
    }
  }

  lemma {:induction false} BridgeStages(s: Host, op: HostOp, c: nat, u: Host)
    requires op.OvsBridge? && 0 < c <= |CreateCmds(op)| && After(s, CreateCmds(op)[..c]) == Some(u)
    ensures op.bridge !in s.bridges && c <= |BridgeSettings(op)| + 1
    ensures u == s.(bridges := s.bridges[op.bridge := BridgeSettings(op)[..c - 1]])
  {
    var v := OneLess(s, op, c);
    SettingCommand(op, c);
    if c > 1 {
      BridgeStages(s, op, c - 1, v);
      OneSettingMore(BridgeSettings(op), c);
    }
  }

  lemma {:induction false} PortStages(s: Host, op: HostOp, c: nat, u: Host)
    requires op.OvsPort? && 0 < c <= |CreateCmds(op)| && After(s, CreateCmds(op)[..c]) == Some(u)
    ensures op.port !in s.ports && c <= |PortSettings(op)| + 1
    ensures u == s.(ports := s.ports[op.port := Port(op.on, PortSettings(op)[..c - 1])])
  {
    var v := OneLess(s, op, c);
    SettingCommand(op, c);
    if c > 1 {
      PortStages(s, op, c - 1, v);
      OneSettingMore(PortSettings(op), c);
      PortSet(s, v, u, op.port, Port(op.on, PortSettings(op)[..c - 2]), PortSettings(op)[c - 2]);
    }
  }

  lemma PortSet(s: Host, v: Host, u: Host, p: string, port: Port, setting: string)
    requires v == s.(ports := s.ports[p := port]) && Exec(v, SetPort(p, setting)) == Some(u)
    ensures u == s.(ports := s.ports[p := Port(port.bridge, port.settings + [setting])])
  {
  }

  lemma SettingsBring(s: Host, op: HostOp, u: Host)
    requires (op.Netns? && op.space.Some? && op.owned) || op.OvsBridge? || op.OvsPort?
    requires After(s, CreateCmds(op)) == Some(u)
    ensures Brings(s, op, u)
  {
    var c := |CreateCmds(op)|;
    assert CreateCmds(op)[..c] == CreateCmds(op);
    SettingCommand(op, c);
    match op
    case Netns(_, _) =>
      SpaceStages(s, op, c, u);
      assert SPACE_SETTINGS[..c - 1] == SPACE_SETTINGS;
    case OvsBridge(_, _, _) =>
      BridgeStages(s, op, c, u);
      assert BridgeSettings(op)[..c - 1] == BridgeSettings(op);
    case OvsPort(_, _, _, _) =>
      PortStages(s, op, c, u);
      assert PortSettings(op)[..c - 1] == PortSettings(op);
  }

  // ---------------------------------------------------------------------
  // Links
  // ---------------------------------------------------------------------

  /** The leg in the root namespace stays up through the rest of the list. */
  lemma {:induction false} RootLegIsUp(s: Host, op: HostOp, c: nat, u: Host)
    requires s.Valid() && op.NetnsLink? && op.link.NewVeth? && 1 < c <= |CreateCmds(op)|
    requires After(s, CreateCmds(op)[..c]) == Some(u)
    ensures Up(LinkKey(Root, op.link.rootLeg)) in u.facts
  {
    var v := OneLess(s, op, c);
    if c > 2 {
      RootLegIsUp(s, op, c - 1, v);
      LinkStages(s, op, c - 1, v);
      SparesRootLeg(s, op, c, v);
      StaysUp(v, CreateCmds(op)[c - 1], u, LinkKey(Root, op.link.rootLeg));
    } else {
      LinkCommand(op, c);
    }
  }

  predicate LeavesAlone(c: Cmd, k: LinkKey) {
    match c
    case Move(at, _) => at != k
    case Rename(at, _) => at != k
    case SetUp(_) => true
    case AddPort(_, _) => true
    case _ => false
  }

  /** The rest of the list leaves the root leg alone. */
  lemma SparesRootLeg(s: Host, op: HostOp, c: nat, v: Host)
    requires op.NetnsLink? && op.link.NewVeth? && 2 < c <= |CreateCmds(op)| && Staged(s, op, c - 1, v)
    ensures LeavesAlone(CreateCmds(op)[c - 1], LinkKey(Root, op.link.rootLeg))
  {
    LinkCommand(op, c);
  }

  lemma StaysUp(v: Host, c: Cmd, u: Host, k: LinkKey)
    requires LeavesAlone(c, k) && Exec(v, c) == Some(u) && Up(k) in v.facts
    ensures Up(k) in u.facts
  {
  }

  lemma LastIsUp(s: Host, op: HostOp, u: Host)
    requires op.NetnsLink? && After(s, CreateCmds(op)[..|CreateCmds(op)|]) == Some(u)
    ensures Up(LinkKey(In(op.ns), FinalName(op))) in u.facts
    ensures PlaceAfter(op, |CreateCmds(op)|) == LinkKey(In(op.ns), FinalName(op))
  {
    var v := OneLess(s, op, |CreateCmds(op)|);
    LinkCommand(op, |CreateCmds(op)|);
  }

  /** Every fact that is new is one the operation claims. */
  lemma NewFacts(s: Host, op: HostOp, u: Host, f: Fact)
    requires After(s, CreateCmds(op)[..|CreateCmds(op)|]) == Some(u) && f in u.facts && f !in s.facts
    ensures Claims(op, FactOf(f))
  {
    OnlyClaims(s, op, |CreateCmds(op)|, FactOf(f));
  }

  lemma LinkFacts(s: Host, op: HostOp, u: Host)
    requires s.Valid() && op.NetnsLink? && After(s, CreateCmds(op)[..|CreateCmds(op)|]) == Some(u)
    ensures var at := LinkKey(In(op.ns), FinalName(op));
            u.facts == s.facts + if op.link.NewVeth? then {Up(LinkKey(Root, op.link.rootLeg)), Up(at)} else {Up(at)}
  {
    var c := |CreateCmds(op)|;
    LinkStages(s, op, c, u);
    LastIsUp(s, op, u);
    if op.link.NewVeth? {
      RootLegIsUp(s, op, c, u);
    }
    forall f | f in u.facts && f !in s.facts
      ensures f == Up(LinkKey(In(op.ns), FinalName(op)))
              || (op.link.NewVeth? && f == Up(LinkKey(Root, op.link.rootLeg)))
    {
      NewFacts(s, op, u, f);
      LinkClaims(op, f);
    }
    forall f | f in s.facts ensures f in u.facts {
      assert f.at in s.links;
    }
  }

  lemma LinkBrings(s: Host, op: HostOp, u: Host)
    requires s.Valid() && op.NetnsLink? && After(s, CreateCmds(op)[..|CreateCmds(op)|]) == Some(u)
    ensures Brings(s, op, u)
  {
    LinkStages(s, op, |CreateCmds(op)|, u);
    LastIsUp(s, op, u);
    LinkFacts(s, op, u);
  }

  lemma MoveBrings(s: Host, op: HostOp, u: Host)
    requires s.Valid() && op.LinkMove? && After(s, CreateCmds(op)[..|CreateCmds(op)|]) == Some(u)
    ensures Brings(s, op, u)
  {
    var from, at := LinkKey(In(op.owner), op.lent), LinkKey(In(op.to), op.lent);
    GrownAfter(s, op, 2, u);
    var v := OneLess(s, op, 2);
    assert Up(at) in u.facts;
    forall f | f in u.facts && f.at == at ensures f == Up(at) {
      NewFacts(s, op, u, f);
      OtherClaims(op, f);
    }
    assert u.facts == OtherFacts(s.facts, {from}) + {Up(at)};
  }

  lemma OneCommandBrings(s: Host, op: HostOp, u: Host)
    requires op.FactOp? || op.Iptables? || op.IpRule? || op.TextFile?
    requires After(s, CreateCmds(op)) == Some(u)
    ensures Brings(s, op, u)
  {
    assert CreateCmds(op)[..0] == [];
    assert Exec(s, CreateCmds(op)[0]) == Some(u);
  }

  /** What creating brings about, for every operation. */
  lemma CreationBrings(s: Host, op: HostOp, u: Host)
    requires s.Valid() && Created(s, op, u)
    ensures Brings(s, op, u)
  {
    ReachedMeans(s, op, |CreateCmds(op)|, u);
    assert CreateCmds(op)[..|CreateCmds(op)|] == CreateCmds(op);
    match op
    case Netns(space, owned) =>
      if space.Some? && owned {
        SettingsBring(s, op, u);
      }
    case NetnsLink(_, _, _, _) => LinkBrings(s, op, u);
    case LinkMove(_, _, _) => MoveBrings(s, op, u);
    case OvsBridge(_, _, _) => SettingsBring(s, op, u);
    case OvsPort(_, _, _, _) => SettingsBring(s, op, u);
    case _ => OneCommandBrings(s, op, u);
  }

  // ---------------------------------------------------------------------
  // Whole queues
  // ---------------------------------------------------------------------

  /** A list of commands stops before its end only at a command that fails, for a
      reason of its own or because the host refuses it. */
  lemma {:induction false} StopsAtFailure(h: Host, cmds: seq<Cmd>, faults: set<Fault>, at: nat, from: nat)
    requires from <= |cmds|
    ensures var p := CreateOne(h, cmds, faults, at, from);
            && p.applied <= |cmds|
            && (p.applied < |cmds| ==> Fault(at, p.applied) in faults || Exec(p.host, cmds[p.applied]) == None)
    decreases |cmds| - from
  {
    if from < |cmds| && Fault(at, from) !in faults && Exec(h, cmds[from]).Some? {
      StopsAtFailure(Exec(h, cmds[from]).value, cmds, faults, at, from + 1);
    }
  }

  /** And a queue only there: creation goes on as long as nothing fails. */
  lemma {:induction false} QueueStopsAtFailure(h: Host, queue: seq<HostOp>, faults: set<Fault>, from: nat)
    requires from <= |queue|
    ensures var o := CreateQueue(h, queue, faults, from);
            && o.done <= |queue|
            && (o.done < |queue| ==>
                  && o.applied < |CreateCmds(queue[o.done])|
                  && (Fault(o.done, o.applied) in faults || Exec(o.host, CreateCmds(queue[o.done])[o.applied]) == None))
    decreases |queue| - from
  {
    if from < |queue| {
      StopsAtFailure(h, CreateCmds(queue[from]), faults, from, 0);
      var p := CreateOne(h, CreateCmds(queue[from]), faults, from, 0);
      if p.applied == |CreateCmds(queue[from])| {
        QueueStopsAtFailure(p.host, queue, faults, from + 1);
      }
    }
  }

  /** However far creation gets, every operation before that brought about what
      it declares, one after the other. */
  lemma QueueBrings(h: Host, queue: seq<HostOp>, faults: set<Fault>) returns (states: seq<Host>)
    requires h.Valid()
    ensures var o := CreateQueue(h, queue, faults, 0);
            && o.done <= |queue| && |states| == o.done + 1 && states[0] == h
            && (forall i | 0 <= i < o.done :: Brings(states[i], queue[i], states[i + 1]))
            && (o.done == |queue| ==> o.host == states[o.done])
  {
    states := CreateQueueStops(h, queue, faults, [h]);
    var o := CreateQueue(h, queue, faults, 0);
    StoppedMeans(h, queue, states, o);
    forall i | 0 <= i < o.done ensures Brings(states[i], queue[i], states[i + 1]) {
      TraceBrings(h, queue, states, i);
    }
  }

  lemma TraceBrings(h: Host, queue: seq<HostOp>, states: seq<Host>, i: nat)
    requires h.Valid() && IsTrace(h, queue, states) && i + 1 < |states|
    ensures Brings(states[i], queue[i], states[i + 1])
  {
    StatesAreValid(h, queue, states, i);
    CreationBrings(states[i], queue[i], states[i + 1]);
  }
}
