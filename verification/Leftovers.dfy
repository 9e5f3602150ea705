/** Deleting around links that stay behind. A vlan or dummy whose delete command
    looks for it elsewhere stays where creation left it, and the rest of the
    deletion goes on as if it were not there. */
module Leftovers {
  import opened Common
  import opened HostState
  import opened Primitives
  import opened Undo

  /** The links `left` can be left out of account: none is an end of a veth, and
      what hangs on one of them is gone when it is. */
  ghost predicate Aside(t: Host, left: set<LinkKey>) {
    && (forall k | k in left && k in t.links :: !t.links[k].Veth?)
    && (forall f | f in t.facts && f.at in left :: f.at in t.links)
  }

  /** The command neither looks for a link of `left` nor moves one to its place. */
  predicate PassesBy(c: Cmd, left: set<LinkKey>) {
    && Needs(c).Some?
    && (Needs(c).value.Link? ==> Needs(c).value.key !in left)
    && (c.Move? ==> LinkKey(In(c.ns), c.at.name) !in left)
  }

  lemma EndsPassBy(t: Host, at: LinkKey, left: set<LinkKey>)
    requires Aside(t, left) && at in t.links && at !in left
    ensures at in DropLinks(t, left).links && Ends(DropLinks(t, left), at) == Ends(t, at) && Ends(t, at) !! left
  {
  }

  lemma SpacePassesBy(t: Host, ns: string, left: set<LinkKey>)
    requires Aside(t, left)
    ensures LinksIn(DropLinks(t, left), ns) == LinksIn(t, ns) - left
    ensures forall k | k in left && k in t.links :: k in LinksIn(t, ns) <==> k.loc == In(ns)
  {
    forall k | k in t.links && k !in left ensures Ends(DropLinks(t, left), k) == Ends(t, k) && Ends(t, k) !! left {
      EndsPassBy(t, k, left);
    }
    forall k | k in t.links && k in left ensures Ends(t, k) == {k} {
    }
  }

  lemma DropTwice(t: Host, gone: set<LinkKey>, left: set<LinkKey>)
    ensures DropLinks(DropLinks(t, gone), left) == DropLinks(DropLinks(t, left), gone - left)
    ensures DropLinks(DropLinks(t, gone), left) == DropLinks(t, gone + left)
  {
    assert t.links - gone - left == t.links - left - (gone - left) == t.links - (gone + left);
  }

  lemma DelNetnsPassesBy(t: Host, ns: string, left: set<LinkKey>)
    requires Aside(t, left)
    ensures DropLinks(Try(t, DelNetns(ns)), left) == Try(DropLinks(t, left), DelNetns(ns))
    ensures Aside(Try(t, DelNetns(ns)), left)
  {
    SpacePassesBy(t, ns, left);
    DropTwice(t, LinksIn(t, ns), left);
  }

  lemma DelLinkPassesBy(t: Host, at: LinkKey, left: set<LinkKey>)
    requires Aside(t, left) && at !in left
    ensures DropLinks(Try(t, DelLink(at)), left) == Try(DropLinks(t, left), DelLink(at))
    ensures Aside(Try(t, DelLink(at)), left)
  {
    if at in t.links {
      EndsPassBy(t, at, left);
      DropTwice(t, Ends(t, at), left);
      assert Ends(t, at) - left == Ends(t, at);
    }
  }

  lemma MovePassesBy(t: Host, at: LinkKey, ns: string, left: set<LinkKey>)
    requires Aside(t, left) && at !in left && LinkKey(In(ns), at.name) !in left
    ensures DropLinks(Try(t, Move(at, ns)), left) == Try(DropLinks(t, left), Move(at, ns))
    ensures Aside(Try(t, Move(at, ns)), left)
  {
    var to := LinkKey(In(ns), at.name);
    if at in t.links && ns in t.spaces && to !in t.links {
      assert (t.links - {at})[to := t.links[at]] - left == (t.links - left - {at})[to := t.links[at]];
    }
  }

  lemma OthersPassBy(t: Host, c: Cmd, left: set<LinkKey>)
    requires Aside(t, left) && Needs(c).Some? && !c.DelNetns? && !c.DelLink? && !c.Move?
    ensures DropLinks(Try(t, c), left) == Try(DropLinks(t, left), c)
    ensures Aside(Try(t, c), left)
  {
  }

  lemma CommandPassesBy(t: Host, c: Cmd, left: set<LinkKey>)
    requires Aside(t, left) && PassesBy(c, left)
    ensures DropLinks(Try(t, c), left) == Try(DropLinks(t, left), c)
    ensures Aside(Try(t, c), left)
  {
    match c
    case DelNetns(ns) => DelNetnsPassesBy(t, ns, left);
    case DelLink(at) => DelLinkPassesBy(t, at, left);
    case Move(at, ns) => MovePassesBy(t, at, ns, left);
    case _ => OthersPassBy(t, c, left);
  }

  /** A link of `left` goes with its namespace only. */
  lemma CommandSweeps(t: Host, c: Cmd, left: set<LinkKey>, k: LinkKey)
    requires Aside(t, left) && PassesBy(c, left) && k in left
    ensures k in Try(t, c).links <==> k in t.links && !(c.DelNetns? && c.ns in t.spaces && k.loc == In(c.ns))
  {
    match c
    case DelNetns(ns) => SpacePassesBy(t, ns, left);
    case DelLink(at) => if at in t.links { EndsPassBy(t, at, left); }
    case _ =>
  }

  lemma {:induction false} CommandsPassBy(t: Host, cmds: seq<Cmd>, left: set<LinkKey>)
    requires Aside(t, left) && forall c | c in cmds :: PassesBy(c, left)
    ensures DropLinks(TryAll(t, cmds), left) == TryAll(DropLinks(t, left), cmds)
    ensures Aside(TryAll(t, cmds), left)
    ensures (forall c | c in cmds :: !c.DelNetns?) ==>
              forall k | k in left :: k in TryAll(t, cmds).links <==> k in t.links
    decreases cmds
  {
    if cmds != [] {
      CommandPassesBy(t, cmds[0], left);
      CommandsPassBy(Try(t, cmds[0]), cmds[1..], left);
      forall k | k in left && !cmds[0].DelNetns? ensures k in Try(t, cmds[0]).links <==> k in t.links {
        CommandSweeps(t, cmds[0], left, k);
      }
    }
  }

  /** Deleting `op` has nothing to do with the links `left`. */
  ghost predicate Spares(op: HostOp, left: set<LinkKey>) {
    && (forall k | k in left :: !Touches(op, Link(k)))
    && (op.LinkMove? ==> LinkKey(In(op.owner), op.lent) !in left)
  }

  /** Deleting `op` deletes the namespace the link is in. */
  predicate Sweeps(op: HostOp, k: LinkKey) {
    op.Netns? && op.owned && op.space.Some? && k.loc == In(op.space.value)
  }

  lemma SparedIsPassedBy(op: HostOp, left: set<LinkKey>)
    requires Spares(op, left)
    ensures forall c | c in DeleteCmds(op) :: PassesBy(c, left)
  {
    forall i | 0 <= i < |DeleteCmds(op)| ensures PassesBy(DeleteCmds(op)[i], left) {
      var c := DeleteCmds(op)[i];
      if Needs(c).value.Link? {
        assert Touches(op, Link(Needs(c).value.key));
      }
    }
  }

  /** Deleting `op` with the links `left` there, or as if they were not. */
  lemma DeletedPassesBy(t: Host, op: HostOp, left: set<LinkKey>)
    requires Aside(t, left) && Spares(op, left)
    ensures DropLinks(Deleted(t, op), left) == Deleted(DropLinks(t, left), op)
    ensures Aside(Deleted(t, op), left)
  {
    SparedIsPassedBy(op, left);
    CommandsPassBy(t, DeleteCmds(op), left);
    DeletedIs(t, op);
    DeletedIs(DropLinks(t, left), op);
  }

  lemma DeletedSweeps(t: Host, op: HostOp, left: set<LinkKey>, k: LinkKey)
    requires Aside(t, left) && Spares(op, left) && k in left
    requires op.Netns? && op.owned && op.space.Some? ==> op.space.value in t.spaces
    ensures k in Deleted(t, op).links <==> k in t.links && !Sweeps(op, k)
  {
    SparedIsPassedBy(op, left);
    CommandsPassBy(t, DeleteCmds(op), left);
    DeletedIs(t, op);
    if op.Netns? && op.owned && op.space.Some? {
      var c := DelNetns(op.space.value);
      CommandSweeps(t, c, left, k);
      assert TryAll(t, [c]) == Try(t, c);
    }
  }

  // ---------------------------------------------------------------------
  // One operation taken back
  // ---------------------------------------------------------------------

  /** What deleting `op` adds to the links left behind. */
  function LeftBy(op: HostOp, c: nat): set<LinkKey> {
    if Undone(op, c) then {} else {PlaceAfter(op, c)}
  }

  /** A link left behind is one its operation claims. */
  lemma LeftIsClaimed(op: HostOp, c: nat, k: LinkKey)
    requires c <= |CreateCmds(op)| && k in LeftBy(op, c)
    ensures Claims(op, Link(k))
    ensures k.loc == Root || (op.NetnsLink? && op.renameTo.Some? && k == LinkKey(In(op.ns), op.renameTo.value))
  {
    ClaimsMeans(op, Link(k));
    assert Adds(CreateCmds(op)[0], Link(LinkKey(Root, op.name)));
    if c > 1 {
      assert CreateCmds(op)[2] == Rename(LinkKey(In(op.ns), op.name), op.renameTo.value);
      assert Adds(CreateCmds(op)[2], Link(k));
    }
  }

  /** One operation taken back, whatever links stay behind: `u` is what its first
      `c` create commands made of `s`, and `t` is `u` with the links `left`. */
  lemma TakenBack(
    s: Host, op: HostOp, c: nat, u: Host, t: Host, left: set<LinkKey>, missing: iset<Fact>, lost: iset<Fact>)
    requires s.Valid() && Untouched(s, op) && Reached(s, op, c, u) && LentLoss(s, op, lost)
    requires Aside(t, left) && Spares(op, left)
    requires Similar(DropLinks(t, left), u, missing) && NoLoss(missing, s, lost)
    requires c == 0 ==> CreateCmds(op) == [] || DropLinks(t, left) == u
    ensures Aside(Deleted(t, op), left + LeftBy(op, c))
    ensures Similar(DropLinks(Deleted(t, op), left + LeftBy(op, c)), s, lost)
    ensures forall k | k in LeftBy(op, c) :: k in Deleted(t, op).links
  {
    var w := DropLinks(t, left);
    var t' := Deleted(t, op);
    DeletedPassesBy(t, op, left);
    if Undone(op, c) {
      DeletedIsInverse(s, op, c, u, w, missing, lost);
      assert left + {} == left;
    } else {
      NotUndoneStaysBehind(s, op, c, u, w, missing, lost);
      DropTwice(t', left, {PlaceAfter(op, c)});
      assert t'.links - left == w.links;
    }
  }

  /** A namespace that was made is there to delete. */
  lemma SpaceIsThere(s: Host, op: HostOp, c: nat, u: Host)
    requires s.Valid() && op.Netns? && op.owned && op.space.Some? && c > 0 && Reached(s, op, c, u)
    ensures op.space.value in u.spaces
  {
    ReachedMeans(s, op, c, u);
    GrownAfter(s, op, c, u);
  }
}
