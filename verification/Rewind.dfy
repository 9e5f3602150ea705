/** Creating a queue up to any point and deleting the whole queue restores the
    host, except for the vlans and dummies that are not found any more where
    their delete commands look. */
module Rewind {
  import opened Common
  import opened HostState
  import opened Primitives
  import opened Undo
  import opened Leftovers
  import opened Lifecycle

  /** The states between the operations of `queue` that were created. */
  ghost predicate IsTrace(h: Host, queue: seq<HostOp>, states: seq<Host>) {
    && 1 <= |states| <= |queue| + 1 && states[0] == h
    && (forall i | 0 < i < |states| :: Created(states[i - 1], queue[i - 1], states[i]))
  }

  /** The place a vlan or dummy gets a new name in. */
  predicate RenamedTo(op: HostOp, k: LinkKey) {
    op.NetnsLink? && !op.link.NewVeth? && op.renameTo.Some? && k == LinkKey(In(op.ns), op.renameTo.value)
  }

  /** What the operations of a queue look for when they are deleted is not there
      to begin with and is nobody else's; nor is the new name of a vlan or dummy;
      a lent link is one the queue makes. */
  ghost predicate Distinct(h: Host, queue: seq<HostOp>) {
    && (forall j | 0 <= j < |queue| :: Untouched(h, queue[j]))
    && (forall i, j, o | 0 <= i < |queue| && 0 <= j < |queue| && i != j && Touches(queue[j], o) :: !Claims(queue[i], o))
    && (forall i, j, k | 0 <= i < |queue| && 0 <= j < |queue| && i != j && RenamedTo(queue[j], k) ::
        !Claims(queue[i], Link(k)))
    && (forall j | 0 <= j < |queue| && queue[j].LinkMove? :: LinkKey(In(queue[j].owner), queue[j].lent) !in h.links)
  }

  /** The same by name: most lemmas only hand it on. */
  ghost predicate Apart(h: Host, queue: seq<HostOp>) {
    forall n: nat {:trigger Turns(n)} :: Turns(n) && n == |queue| ==> Distinct(h, queue)
  }

  lemma ApartMeans(h: Host, queue: seq<HostOp>)
    ensures Apart(h, queue) <==> Distinct(h, queue)
  {
    assert Turns(|queue|);
  }

  ghost predicate ClaimedBy(queue: seq<HostOp>, n: nat, o: Obj)
    requires n <= |queue|
  {
    exists i | 0 <= i < n :: Claims(queue[i], o)
  }

  ghost function Claimed(queue: seq<HostOp>, n: nat): iset<Fact>
    requires n <= |queue|
  {
    iset f | ClaimedBy(queue, n, FactOf(f))
  }

  lemma {:induction false} StatesAreValid(h: Host, queue: seq<HostOp>, states: seq<Host>, n: nat)
    requires h.Valid() && IsTrace(h, queue, states) && n < |states|
    ensures states[n].Valid()
  {
    if n > 0 {
      StatesAreValid(h, queue, states, n - 1);
      ReachedIsValid(states[n - 1], queue[n - 1], |CreateCmds(queue[n - 1])|, states[n]);
    }
  }

  /** Everything in a state of the run was there at the start or is claimed. */
  lemma {:induction false} StatesHold(h: Host, queue: seq<HostOp>, states: seq<Host>, n: nat, o: Obj)
    requires IsTrace(h, queue, states) && n < |states| && Has(states[n], o)
    ensures Has(h, o) || ClaimedBy(queue, n, o)
  {
    if n > 0 {
      ReachedHolds(states[n - 1], queue[n - 1], |CreateCmds(queue[n - 1])|, states[n], o);
      if Has(states[n - 1], o) {
        StatesHold(h, queue, states, n - 1, o);
      }
    }
  }

  /** When an operation starts, nothing it looks for on deletion is there. */
  lemma StartsUntouched(h: Host, queue: seq<HostOp>, states: seq<Host>, n: nat)
    requires Apart(h, queue) && IsTrace(h, queue, states) && n < |states| && n < |queue|
    ensures Untouched(states[n], queue[n])
  {
    ApartMeans(h, queue);
    forall o | Touches(queue[n], o) ensures !Has(states[n], o) {
      if Has(states[n], o) {
        StatesHold(h, queue, states, n, o);
      }
    }
  }

  /** What hangs on a link that is lent was put there by the queue. */
  lemma LentFactsAreClaimed(h: Host, queue: seq<HostOp>, states: seq<Host>, n: nat)
    requires h.Valid() && Apart(h, queue) && IsTrace(h, queue, states) && n < |states| && n < |queue|
    ensures LentLoss(states[n], queue[n], Claimed(queue, n))
  {
    ApartMeans(h, queue);
    forall f | queue[n].LinkMove? && f in states[n].facts && f.at == LinkKey(In(queue[n].owner), queue[n].lent)
      ensures f in Claimed(queue, n)
    {
      StatesHold(h, queue, states, n, FactOf(f));
    }
  }

  lemma LastClaimIsNew(h: Host, queue: seq<HostOp>, states: seq<Host>, n: nat, f: Fact)
    requires h.Valid() && IsTrace(h, queue, states) && 0 < n < |states| && f in states[n - 1].facts
    ensures !Claims(queue[n - 1], FactOf(f))
  {
    StatesAreValid(h, queue, states, n - 1);
    if Claims(queue[n - 1], FactOf(f)) {
      CreatedClaimsAreNew(states[n - 1], queue[n - 1], states[n], f);
    }
  }

  lemma OneClaimedBefore(queue: seq<HostOp>, n: nat, o: Obj)
    requires 0 < n <= |queue| && ClaimedBy(queue, n, o) && !Claims(queue[n - 1], o)
    ensures ClaimedBy(queue, n - 1, o)
  {
  }

  /** Of the facts claimed so far, those there before the last operation were
      claimed before it. */
  lemma ClaimedBefore(h: Host, queue: seq<HostOp>, states: seq<Host>, n: nat)
    requires h.Valid() && IsTrace(h, queue, states) && 0 < n < |states|
    ensures NoLoss(Claimed(queue, n), states[n - 1], Claimed(queue, n - 1))
  {
    forall f | f in Claimed(queue, n) && f in states[n - 1].facts ensures f in Claimed(queue, n - 1) {
      LastClaimIsNew(h, queue, states, n, f);
      OneClaimedBefore(queue, n, FactOf(f));
    }
  }

  /** `u` is where creation stopped: after the operations of the trace, and some
      commands of the next one. */
  ghost predicate StopsAt(h: Host, queue: seq<HostOp>, states: seq<Host>, o: Outcome) {
    && IsTrace(h, queue, states) && |states| == o.done + 1
    && if o.done == |queue| then o.applied == 0 && o.host == states[o.done]
       else Reached(states[o.done], queue[o.done], o.applied, o.host)
  }

  /** The same by name. */
  ghost predicate StoppedAt(h: Host, queue: seq<HostOp>, states: seq<Host>, o: Outcome) {
    && |states| == o.done + 1 && o.done <= |queue|
    && forall n: nat {:trigger Turns(n)} :: Turns(n) && n == o.done ==> StopsAt(h, queue, states, o)
  }

  lemma StoppedMeans(h: Host, queue: seq<HostOp>, states: seq<Host>, o: Outcome)
    ensures StoppedAt(h, queue, states, o) <==> StopsAt(h, queue, states, o)
  {
    assert Turns(o.done);
  }

  /** How many create commands of an operation applied. */
  function Applied(queue: seq<HostOp>, o: Outcome, i: nat): nat
    requires i < |queue|
  {
    if i < o.done then |CreateCmds(queue[i])| else if i == o.done then o.applied else 0
  }

  /** What is left by the parts from `n` on. */
  function UnionFrom(parts: seq<set<LinkKey>>, n: nat): set<LinkKey>
    requires n <= |parts|
    decreases |parts| - n
  {
    if n == |parts| then {} else UnionFrom(parts, n + 1) + parts[n]
  }

  lemma {:induction false} UnionHas(parts: seq<set<LinkKey>>, n: nat, i: nat, k: LinkKey)
    requires n <= i < |parts| && k in parts[i]
    ensures k in UnionFrom(parts, n)
    decreases |parts| - n
  {
    if n < i {
      UnionHas(parts, n + 1, i, k);
    }
  }

  lemma {:induction false} UnionSource(parts: seq<set<LinkKey>>, n: nat, k: LinkKey) returns (i: nat)
    requires n <= |parts| && k in UnionFrom(parts, n)
    ensures n <= i < |parts| && k in parts[i]
    decreases |parts| - n
  {
    if k in parts[n] {
      i := n;
    } else {
      i := UnionSource(parts, n + 1, k);
    }
  }

  /** The links that the deletion of each operation does not find. */
  function LeftByEach(queue: seq<HostOp>, o: Outcome): seq<set<LinkKey>> {
    seq(|queue|, i requires 0 <= i < |queue| => LeftBy(queue[i], Applied(queue, o, i)))
  }

  /** The links that deleting the operations from `n` on does not find. */
  function LeftFrom(queue: seq<HostOp>, o: Outcome, n: nat): set<LinkKey>
    requires n <= |queue|
  {
    UnionFrom(LeftByEach(queue, o), n)
  }

  lemma LeftFromHas(queue: seq<HostOp>, o: Outcome, n: nat, i: nat, k: LinkKey)
    requires n <= i < |queue| && k in LeftBy(queue[i], Applied(queue, o, i))
    ensures k in LeftFrom(queue, o, n)
  {
    UnionHas(LeftByEach(queue, o), n, i, k);
  }

  lemma LeftFromSource(h: Host, queue: seq<HostOp>, states: seq<Host>, o: Outcome, n: nat, k: LinkKey)
    returns (i: nat, c: nat)
    requires StoppedAt(h, queue, states, o) && n <= |queue| && k in LeftFrom(queue, o, n)
    ensures n <= i < |queue| && c == Applied(queue, o, i) <= |CreateCmds(queue[i])| && k in LeftBy(queue[i], c)
  {
    i := UnionSource(LeftByEach(queue, o), n, k);
    c := Applied(queue, o, i);
    AppliedFits(h, queue, states, o, i);
  }

  /** One of the operations `n` to `i` makes the namespace the link is in. */
  predicate Swept(queue: seq<HostOp>, n: nat, i: nat, k: LinkKey)
    requires i <= |queue|
  {
    exists j | n <= j < i :: Sweeps(queue[j], k)
  }

  /** Of the links that deletion does not find, those are there whose namespaces
      were not deleted. */
  ghost predicate StillThere(queue: seq<HostOp>, o: Outcome, n: nat, t: Host)
    requires n <= |queue|
  {
    forall i, k | n <= i < |queue| && k in LeftBy(queue[i], Applied(queue, o, i)) ::
      k in t.links <==> !Swept(queue, n, i, k)
  }

  /** `t` is the state creation had before operation `n`, and the links that
      deletion does not find. */
  ghost predicate BackAt(queue: seq<HostOp>, states: seq<Host>, o: Outcome, n: nat, t: Host)
    requires n < |states| && n <= |queue|
  {
    && Aside(t, LeftFrom(queue, o, n))
    && Similar(DropLinks(t, LeftFrom(queue, o, n)), states[n], Claimed(queue, n))
  }

  /** Deletion is back at operation `n`; by name. */
  ghost predicate Rewound(queue: seq<HostOp>, states: seq<Host>, o: Outcome, n: nat, t: Host)
    requires n < |states| && n <= |queue|
  {
    forall m: nat {:trigger Turns(m)} :: Turns(m) && m == n ==>
      BackAt(queue, states, o, n, t) && StillThere(queue, o, n, t)
  }

  lemma RewoundMeans(queue: seq<HostOp>, states: seq<Host>, o: Outcome, n: nat, t: Host)
    requires n < |states| && n <= |queue|
    ensures Rewound(queue, states, o, n, t) <==> BackAt(queue, states, o, n, t) && StillThere(queue, o, n, t)
  {
    assert Turns(n);
  }

  lemma AppliedFits(h: Host, queue: seq<HostOp>, states: seq<Host>, o: Outcome, i: nat)
    requires StoppedAt(h, queue, states, o) && i < |queue|
    ensures Applied(queue, o, i) <= |CreateCmds(queue[i])|
  {
    StoppedMeans(h, queue, states, o);
    if i == o.done {
      ReachedMeans(states[i], queue[i], o.applied, o.host);
    }
  }

  /** No other operation looks for a link that stays behind, nor makes it again. */
  lemma LeftIsNobodyElses(h: Host, queue: seq<HostOp>, i: nat, j: nat, c: nat, k: LinkKey)
    requires Apart(h, queue) && i < |queue| && j < |queue| && i != j
    requires c <= |CreateCmds(queue[i])| && k in LeftBy(queue[i], c)
    ensures !Touches(queue[j], Link(k)) && (k.loc.In? ==> !Claims(queue[j], Link(k)))
  {
    ApartMeans(h, queue);
    LeftIsClaimed(queue[i], c, k);
    assert k.loc.In? ==> RenamedTo(queue[i], k);
  }

  lemma LentWasThere(s: Host, op: HostOp, u: Host)
    requires s.Valid() && op.LinkMove? && Created(s, op, u)
    ensures LinkKey(In(op.owner), op.lent) in s.links
  {
    ReachedMeans(s, op, 2, u);
    GrownAfter(s, op, 2, u);
  }

  /** A link that was lent was made by an operation before. */
  lemma LentIsClaimed(h: Host, queue: seq<HostOp>, states: seq<Host>, n: nat)
    requires h.Valid() && Apart(h, queue) && IsTrace(h, queue, states) && n + 1 < |states| && queue[n].LinkMove?
    ensures ClaimedBy(queue, n, Link(LinkKey(In(queue[n].owner), queue[n].lent)))
  {
    StatesAreValid(h, queue, states, n);
    LentWasThere(states[n], queue[n], states[n + 1]);
    ApartMeans(h, queue);
    StatesHold(h, queue, states, n, Link(LinkKey(In(queue[n].owner), queue[n].lent)));
  }

  /** A link that stays behind is in nobody's way. */
  lemma LeftIsSpared(h: Host, queue: seq<HostOp>, states: seq<Host>, n: nat, i: nat, c: nat, k: LinkKey)
    requires h.Valid() && Apart(h, queue) && IsTrace(h, queue, states) && n + 1 < |states|
    requires n < i < |queue| && c <= |CreateCmds(queue[i])| && k in LeftBy(queue[i], c)
    ensures !Touches(queue[n], Link(k))
    ensures queue[n].LinkMove? ==> LinkKey(In(queue[n].owner), queue[n].lent) != k
  {
    LeftIsNobodyElses(h, queue, i, n, c, k);
    if queue[n].LinkMove? && LinkKey(In(queue[n].owner), queue[n].lent) == k {
      LentIsClaimed(h, queue, states, n);
      var j :| 0 <= j < n && Claims(queue[j], Link(k));
      LeftIsNobodyElses(h, queue, i, j, c, k);
    }
  }

  lemma OneLeftIsSpared(h: Host, queue: seq<HostOp>, states: seq<Host>, o: Outcome, n: nat, k: LinkKey)
    requires h.Valid() && Apart(h, queue) && StoppedAt(h, queue, states, o) && n < o.done
    requires k in LeftFrom(queue, o, n + 1)
    ensures !Touches(queue[n], Link(k))
    ensures queue[n].LinkMove? ==> LinkKey(In(queue[n].owner), queue[n].lent) != k
  {
    StoppedMeans(h, queue, states, o);
    var i, c := LeftFromSource(h, queue, states, o, n + 1, k);
    LeftIsSpared(h, queue, states, n, i, c, k);
  }

  lemma AllLeftAreSpared(h: Host, queue: seq<HostOp>, states: seq<Host>, o: Outcome, n: nat)
    requires h.Valid() && Apart(h, queue) && StoppedAt(h, queue, states, o) && n < o.done
    ensures Spares(queue[n], LeftFrom(queue, o, n + 1))
  {
    forall k | k in LeftFrom(queue, o, n + 1)
      ensures !Touches(queue[n], Link(k))
      ensures queue[n].LinkMove? ==> LinkKey(In(queue[n].owner), queue[n].lent) != k
    {
      OneLeftIsSpared(h, queue, states, o, n, k);
    }
  }

  /** One completed operation taken back: the state. */
  lemma BackByOne(h: Host, queue: seq<HostOp>, states: seq<Host>, o: Outcome, n: nat, t: Host)
    requires h.Valid() && Apart(h, queue) && StoppedAt(h, queue, states, o) && n < o.done
    requires BackAt(queue, states, o, n + 1, t)
    requires Spares(queue[n], LeftFrom(queue, o, n + 1))
    ensures BackAt(queue, states, o, n, Deleted(t, queue[n]))
    ensures forall k | k in LeftBy(queue[n], Applied(queue, o, n)) :: k in Deleted(t, queue[n]).links
  {
    StoppedMeans(h, queue, states, o);
    var op := queue[n];
    StatesAreValid(h, queue, states, n);
    StartsUntouched(h, queue, states, n);
    ClaimedBefore(h, queue, states, n + 1);
    LentFactsAreClaimed(h, queue, states, n);
    TakenBack(states[n], op, |CreateCmds(op)|, states[n + 1], t, LeftFrom(queue, o, n + 1),
      Claimed(queue, n + 1), Claimed(queue, n));
  }

  lemma SweptByOneMore(queue: seq<HostOp>, n: nat, i: nat, k: LinkKey)
    requires n < i <= |queue|
    ensures Swept(queue, n, i, k) <==> Sweeps(queue[n], k) || Swept(queue, n + 1, i, k)
  {
  }

  /** One completed operation taken back: a link that stayed behind before. */
  lemma StillThereByOne(h: Host, queue: seq<HostOp>, states: seq<Host>, n: nat, t: Host, left: set<LinkKey>,
    i: nat, k: LinkKey)
    requires h.Valid() && IsTrace(h, queue, states) && n + 1 < |states| && n < i <= |queue|
    requires Aside(t, left) && Spares(queue[n], left) && k in left && t.spaces == states[n + 1].spaces
    requires k in t.links <==> !Swept(queue, n + 1, i, k)
    ensures k in Deleted(t, queue[n]).links <==> !Swept(queue, n, i, k)
  {
    var op := queue[n];
    if op.Netns? && op.owned && op.space.Some? {
      StatesAreValid(h, queue, states, n);
      SpaceIsThere(states[n], op, |CreateCmds(op)|, states[n + 1]);
    }
    DeletedSweeps(t, op, left, k);
    SweptByOneMore(queue, n, i, k);
  }

  lemma AllStillThere(h: Host, queue: seq<HostOp>, states: seq<Host>, o: Outcome, n: nat, t: Host)
    requires h.Valid() && IsTrace(h, queue, states) && n + 1 < |states| && n < |queue|
    requires BackAt(queue, states, o, n + 1, t) && StillThere(queue, o, n + 1, t)
    requires Spares(queue[n], LeftFrom(queue, o, n + 1))
    requires forall k | k in LeftBy(queue[n], Applied(queue, o, n)) :: k in Deleted(t, queue[n]).links
    ensures StillThere(queue, o, n, Deleted(t, queue[n]))
  {
    forall i, k | n <= i < |queue| && k in LeftBy(queue[i], Applied(queue, o, i))
      ensures k in Deleted(t, queue[n]).links <==> !Swept(queue, n, i, k)
    {
      if i > n {
        LeftFromHas(queue, o, n + 1, i, k);
        StillThereByOne(h, queue, states, n, t, LeftFrom(queue, o, n + 1), i, k);
      }
    }
  }

  lemma RewindOne(h: Host, queue: seq<HostOp>, states: seq<Host>, o: Outcome, n: nat, t: Host)
    requires h.Valid() && Apart(h, queue) && StoppedAt(h, queue, states, o) && n < o.done
    requires Rewound(queue, states, o, n + 1, t)
    ensures Rewound(queue, states, o, n, Deleted(t, queue[n]))
  {
    StoppedMeans(h, queue, states, o);
    RewoundMeans(queue, states, o, n + 1, t);
    AllLeftAreSpared(h, queue, states, o, n);
    BackByOne(h, queue, states, o, n, t);
    AllStillThere(h, queue, states, o, n, t);
    RewoundMeans(queue, states, o, n, Deleted(t, queue[n]));
  }

  /** The completed operations taken back, last first. */
  lemma {:induction false} RewindCompleted(h: Host, queue: seq<HostOp>, states: seq<Host>, o: Outcome, n: nat, t: Host)
    requires h.Valid() && Apart(h, queue) && StoppedAt(h, queue, states, o) && n <= o.done
    requires Rewound(queue, states, o, n, t)
    ensures Rewound(queue, states, o, 0, DeleteQueue(t, queue[..n]))
  {
    if n > 0 {
      RewindOne(h, queue, states, o, n - 1, t);
      assert queue[..n][..n - 1] == queue[..n - 1];
      RewindCompleted(h, queue, states, o, n - 1, Deleted(t, queue[n - 1]));
    }
  }

  /** The operations that were never started: nothing to take back. */
  lemma {:induction false} SkipUnstarted(u: Host, queue: seq<HostOp>, n: nat, m: nat)
    requires u.Valid() && m <= n <= |queue|
    requires forall j | m <= j < n :: Untouched(u, queue[j])
    ensures DeleteQueue(u, queue[..n]) == DeleteQueue(u, queue[..m])
  {
    if m < n {
      DeletedUntouched(u, queue[n - 1]);
      assert queue[..n][..n - 1] == queue[..n - 1];
      SkipUnstarted(u, queue, n - 1, m);
    }
  }

  lemma UnstartedUntouched(h: Host, queue: seq<HostOp>, states: seq<Host>, o: Outcome, j: nat)
    requires Apart(h, queue) && StoppedAt(h, queue, states, o) && o.done < j < |queue|
    ensures Untouched(o.host, queue[j])
  {
    StoppedMeans(h, queue, states, o);
    ApartMeans(h, queue);
    forall x | Touches(queue[j], x) ensures !Has(o.host, x) {
      if Has(o.host, x) {
        ReachedHolds(states[o.done], queue[o.done], o.applied, o.host, x);
        if Has(states[o.done], x) {
          StatesHold(h, queue, states, o.done, x);
        }
      }
    }
  }

  /** Nothing is left behind by operations that were never started. */
  lemma {:induction false} NoneLeftByUnstarted(queue: seq<HostOp>, o: Outcome, n: nat)
    requires o.done < n <= |queue|
    ensures LeftFrom(queue, o, n) == {}
    decreases |queue| - n
  {
    if n < |queue| {
      NoneLeftByUnstarted(queue, o, n + 1);
    }
  }

  lemma DropNothing(h: Host)
    ensures DropLinks(h, {}) == h
  {
    assert h.links - {} == h.links;
    assert OtherFacts(h.facts, {}) == h.facts;
  }

  /** The interrupted operation taken back. */
  lemma RewindInterrupted(h: Host, queue: seq<HostOp>, states: seq<Host>, o: Outcome)
    requires h.Valid() && Apart(h, queue) && StoppedAt(h, queue, states, o) && o.done < |queue|
    ensures Rewound(queue, states, o, o.done, Deleted(o.host, queue[o.done]))
  {
    StoppedMeans(h, queue, states, o);
    var n := o.done;
    StatesAreValid(h, queue, states, n);
    StartsUntouched(h, queue, states, n);
    LentFactsAreClaimed(h, queue, states, n);
    NoneLeftByUnstarted(queue, o, n + 1);
    DropNothing(o.host);
    TakenBack(states[n], queue[n], o.applied, o.host, o.host, {}, iset{}, Claimed(queue, n));
    forall i | n < i < |queue| ensures LeftBy(queue[i], Applied(queue, o, i)) == {} {
    }
    RewoundMeans(queue, states, o, n, Deleted(o.host, queue[n]));
  }

  /** Rewind from any point. */
  lemma RewindFrom(h: Host, queue: seq<HostOp>, states: seq<Host>, o: Outcome)
    requires h.Valid() && Apart(h, queue) && StoppedAt(h, queue, states, o)
    ensures Rewound(queue, states, o, 0, DeleteQueue(o.host, queue))
  {
    StoppedMeans(h, queue, states, o);
    var n := o.done;
    assert queue[..|queue|] == queue;
    if n == |queue| {
      DropNothing(o.host);
      RewoundMeans(queue, states, o, n, o.host);
      RewindCompleted(h, queue, states, o, n, o.host);
    } else {
      ToInterrupted(h, queue, states, o);
      RewindInterrupted(h, queue, states, o);
      assert queue[..n + 1][..n] == queue[..n];
      RewindCompleted(h, queue, states, o, n, Deleted(o.host, queue[n]));
    }
  }

  lemma ToInterrupted(h: Host, queue: seq<HostOp>, states: seq<Host>, o: Outcome)
    requires h.Valid() && Apart(h, queue) && StoppedAt(h, queue, states, o) && o.done < |queue|
    ensures DeleteQueue(o.host, queue[..|queue|]) == DeleteQueue(o.host, queue[..o.done + 1])
  {
    StoppedMeans(h, queue, states, o);
    var n := o.done;
    StatesAreValid(h, queue, states, n);
    ReachedIsValid(states[n], queue[n], o.applied, o.host);
    forall j | n + 1 <= j < |queue| ensures Untouched(o.host, queue[j]) {
      UnstartedUntouched(h, queue, states, o, j);
    }
    SkipUnstarted(o.host, queue, |queue|, n + 1);
  }

  // ---------------------------------------------------------------------
  // Every run
  // ---------------------------------------------------------------------

  /** Where a list of commands stops is where some number of them applied. */
  lemma {:induction false} CreateOneStops(s: Host, h: Host, cmds: seq<Cmd>, faults: set<Fault>, at: nat, from: nat)
    requires from <= |cmds| && After(s, cmds[..from]) == Some(h)
    ensures var p := CreateOne(h, cmds, faults, at, from);
            from <= p.applied <= |cmds| && After(s, cmds[..p.applied]) == Some(p.host)
    decreases |cmds| - from
  {
    if from < |cmds| && Fault(at, from) !in faults && Exec(h, cmds[from]).Some? {
      assert cmds[..from + 1][..from] == cmds[..from];
      CreateOneStops(s, Exec(h, cmds[from]).value, cmds, faults, at, from + 1);
    }
  }

  lemma OperationStops(h: Host, op: HostOp, faults: set<Fault>, at: nat)
    ensures var p := CreateOne(h, CreateCmds(op), faults, at, 0);
            p.applied <= |CreateCmds(op)| && Reached(h, op, p.applied, p.host)
  {
    CreateOneStops(h, h, CreateCmds(op), faults, at, 0);
    var p := CreateOne(h, CreateCmds(op), faults, at, 0);
    ReachedMeans(h, op, p.applied, p.host);
  }

  lemma {:induction false} CreateQueueStops(h: Host, queue: seq<HostOp>, faults: set<Fault>, trace: seq<Host>)
      returns (states: seq<Host>)
    requires IsTrace(h, queue, trace)
    ensures var o := CreateQueue(trace[|trace| - 1], queue, faults, |trace| - 1);
            StoppedAt(h, queue, states, o)
    decreases |queue| - |trace|
  {
    var from := |trace| - 1;
    states := trace;
    if from == |queue| {
      StoppedMeans(h, queue, trace, Outcome(trace[from], from, 0));
    } else {
      var p, done := OneOperation(trace[from], queue, faults, from);
      if done {
        TraceGrows(h, queue, trace, p.host);
        states := CreateQueueStops(h, queue, faults, trace + [p.host]);
      } else {
        StopsHere(h, queue, trace, p);
      }
    }
  }

  /** The next operation: the queue goes on behind it, or stops in it. */
  lemma OneOperation(h: Host, queue: seq<HostOp>, faults: set<Fault>, from: nat) returns (p: Partial, done: bool)
    requires from < |queue|
    ensures Reached(h, queue[from], p.applied, p.host)
    ensures done ==> Created(h, queue[from], p.host)
    ensures CreateQueue(h, queue, faults, from) ==
            if done then CreateQueue(p.host, queue, faults, from + 1) else Outcome(p.host, from, p.applied)
  {
    OperationStops(h, queue[from], faults, from);
    p := CreateOne(h, CreateCmds(queue[from]), faults, from, 0);
    done := p.applied == |CreateCmds(queue[from])|;
  }

  lemma StopsHere(h: Host, queue: seq<HostOp>, trace: seq<Host>, p: Partial)
    requires IsTrace(h, queue, trace) && |trace| <= |queue|
    requires Reached(trace[|trace| - 1], queue[|trace| - 1], p.applied, p.host)
    ensures StoppedAt(h, queue, trace, Outcome(p.host, |trace| - 1, p.applied))
  {
    StoppedMeans(h, queue, trace, Outcome(p.host, |trace| - 1, p.applied));
  }

  lemma TraceGrows(h: Host, queue: seq<HostOp>, trace: seq<Host>, u: Host)
    requires IsTrace(h, queue, trace) && |trace| <= |queue|
    requires Created(trace[|trace| - 1], queue[|trace| - 1], u)
    ensures IsTrace(h, queue, trace + [u])
  {
  }

  /** Creation stopped between making a vlan or dummy and moving it. */
  predicate StoppedBeforeMove(queue: seq<HostOp>, o: Outcome) {
    o.done < |queue| && queue[o.done].NetnsLink? && !queue[o.done].link.NewVeth? && o.applied == 1
  }

  /** Operation `i` makes a vlan or dummy and got to rename it. */
  predicate GotRenamed(queue: seq<HostOp>, o: Outcome, i: nat) {
    && i < |queue| && queue[i].NetnsLink? && !queue[i].link.NewVeth? && queue[i].renameTo.Some?
    && (i < o.done || (i == o.done && o.applied >= 3))
  }

  /** Every vlan or dummy that got renamed is in a namespace that an operation
      before it made. */
  predicate RenamedInOwnNamespace(queue: seq<HostOp>, o: Outcome) {
    forall i | 0 <= i < |queue| && GotRenamed(queue, o, i) :: exists j | 0 <= j < i ::
        queue[j] == Netns(Some(queue[i].ns), true)
  }

  /** The links that stay behind when the whole queue is deleted. */
  ghost predicate StaysBehind(queue: seq<HostOp>, o: Outcome, k: LinkKey) {
    exists i | 0 <= i < |queue| :: k in LeftBy(queue[i], Applied(queue, o, i)) && !Swept(queue, 0, i, k)
  }

  /** What one operation leaves that its own deletion does not find. */
  lemma WhatIsLeft(queue: seq<HostOp>, o: Outcome, i: nat)
    requires i < |queue| && Applied(queue, o, i) <= |CreateCmds(queue[i])|
    ensures LeftBy(queue[i], Applied(queue, o, i)) ==
            if GotRenamed(queue, o, i) then {LinkKey(In(queue[i].ns), queue[i].renameTo.value)}
            else if i == o.done && StoppedBeforeMove(queue, o) then {LinkKey(Root, queue[i].name)}
            else {}
  {
  }

  lemma SweptMeans(queue: seq<HostOp>, i: nat, k: LinkKey)
    requires i <= |queue|
    ensures Swept(queue, 0, i, k) <==> k.loc.In? && exists j | 0 <= j < i :: queue[j] == Netns(Some(k.loc.ns), true)
  {
    forall j | 0 <= j < i ensures Sweeps(queue[j], k) <==> k.loc.In? && queue[j] == Netns(Some(k.loc.ns), true) {
    }
  }

  lemma NoneStaysBehind(queue: seq<HostOp>, o: Outcome)
    requires forall i | 0 <= i < |queue| :: Applied(queue, o, i) <= |CreateCmds(queue[i])|
    ensures (forall k :: !StaysBehind(queue, o, k)) <==>
            !StoppedBeforeMove(queue, o) && RenamedInOwnNamespace(queue, o)
  {
    forall i, k | 0 <= i < |queue| && k in LeftBy(queue[i], Applied(queue, o, i))
      ensures !StoppedBeforeMove(queue, o) && RenamedInOwnNamespace(queue, o) ==> Swept(queue, 0, i, k)
    {
      WhatIsLeft(queue, o, i);
      SweptMeans(queue, i, k);
    }
    if StoppedBeforeMove(queue, o) {
      WhatIsLeft(queue, o, o.done);
      assert StaysBehind(queue, o, LinkKey(Root, queue[o.done].name));
    }
    forall i | 0 <= i < |queue| && GotRenamed(queue, o, i)
      ensures StaysBehind(queue, o, LinkKey(In(queue[i].ns), queue[i].renameTo.value))
              || exists j | 0 <= j < i :: queue[j] == Netns(Some(queue[i].ns), true)
    {
      WhatIsLeft(queue, o, i);
      SweptMeans(queue, i, LinkKey(In(queue[i].ns), queue[i].renameTo.value));
    }
  }

  /** Where all but the links `left` is as before, they are all there is more. */
  lemma LeftIsWhatIsMore(h: Host, end: Host, left: set<LinkKey>, lost: iset<Fact>)
    requires Aside(end, left) && Similar(DropLinks(end, left), h, lost) && lost == iset{}
    ensures DropLinks(end, end.links.Keys - h.links.Keys) == h
    ensures forall k :: k in end.links && k !in h.links <==> k in left && k in end.links
  {
    var more := end.links.Keys - h.links.Keys;
    assert DropLinks(end, left).facts == h.facts;
    assert forall k :: k in h.links <==> k in end.links && k !in left;
    assert end.links - more == end.links - left;
    assert OtherFacts(end.facts, more) == OtherFacts(end.facts, left);
  }

  lemma LeftStaysBehind(queue: seq<HostOp>, o: Outcome, end: Host)
    requires StillThere(queue, o, 0, end)
    ensures forall k :: k in LeftFrom(queue, o, 0) && k in end.links <==> StaysBehind(queue, o, k)
  {
    forall k | k in LeftFrom(queue, o, 0) && k in end.links ensures StaysBehind(queue, o, k) {
      var i := UnionSource(LeftByEach(queue, o), 0, k);
    }
    forall k | StaysBehind(queue, o, k) ensures k in LeftFrom(queue, o, 0) && k in end.links {
      var i :| 0 <= i < |queue| && k in LeftBy(queue[i], Applied(queue, o, i)) && !Swept(queue, 0, i, k);
      LeftFromHas(queue, o, 0, i, k);
    }
  }

  /** Whatever commands fail and for whatever reason: deleting the whole queue
      restores the host but for the vlans and dummies that were not moved yet, or
      that were renamed in a namespace the queue does not make; these stay. */
  lemma WhatStaysBehind(h: Host, queue: seq<HostOp>, faults: set<Fault>)
    requires h.Valid() && Distinct(h, queue)
    ensures var o := CreateQueue(h, queue, faults, 0);
            var end := DeleteQueue(o.host, queue);
            && DropLinks(end, end.links.Keys - h.links.Keys) == h
            && forall k :: k in end.links && k !in h.links <==> StaysBehind(queue, o, k)
  {
    var states := CreateQueueStops(h, queue, faults, [h]);
    var o := CreateQueue(h, queue, faults, 0);
    var end := DeleteQueue(o.host, queue);
    ApartMeans(h, queue);
    RewoundToStart(h, queue, states, o, end);
  }

  lemma RewoundToStart(h: Host, queue: seq<HostOp>, states: seq<Host>, o: Outcome, end: Host)
    requires h.Valid() && Apart(h, queue) && StoppedAt(h, queue, states, o) && end == DeleteQueue(o.host, queue)
    ensures DropLinks(end, end.links.Keys - h.links.Keys) == h
    ensures forall k :: k in end.links && k !in h.links <==> StaysBehind(queue, o, k)
  {
    RewindFrom(h, queue, states, o);
    RewoundMeans(queue, states, o, 0, end);
    StoppedMeans(h, queue, states, o);
    LeftIsWhatIsMore(h, end, LeftFrom(queue, o, 0), Claimed(queue, 0));
    LeftStaysBehind(queue, o, end);
  }

  /** So it restores the host exactly, if and only if creation did not stop right
      before the move of a vlan or dummy and every one that got renamed is in a
      namespace of the queue's own. */
  lemma CreateThenDelete(h: Host, queue: seq<HostOp>, faults: set<Fault>)
    requires h.Valid() && Distinct(h, queue)
    ensures var o := CreateQueue(h, queue, faults, 0);
            DeleteQueue(o.host, queue) == h <==> !StoppedBeforeMove(queue, o) && RenamedInOwnNamespace(queue, o)
  {
    var states := CreateQueueStops(h, queue, faults, [h]);
    var o := CreateQueue(h, queue, faults, 0);
    var end := DeleteQueue(o.host, queue);
    WhatStaysBehind(h, queue, faults);
    forall i | 0 <= i < |queue| ensures Applied(queue, o, i) <= |CreateCmds(queue[i])| {
      AppliedFits(h, queue, states, o, i);
    }
    NoneStaysBehind(queue, o);
    if forall k :: !StaysBehind(queue, o, k) {
      assert end.links.Keys - h.links.Keys == {};
      DropNothing(end);
    }
  }

  function EmptyHost(spaces: map<string, seq<string>>): Host {
    Host(spaces, map[], map[], map[], map[], {}, map[], {})
  }

  /** A dummy made in `A` as `d0` and renamed `d1`. */
  const RENAMED_DUMMY: HostOp := NetnsLink("A", "d0", NewDummy, Some("d1"))

  lemma RenamedDummyCommands(op: HostOp)
    requires op == RENAMED_DUMMY
    ensures CreateCmds(op) == [AddDummy("d0"), Move(LinkKey(Root, "d0"), "A"), Rename(LinkKey(In("A"), "d0"), "d1"),
                               SetUp(LinkKey(In("A"), "d1"))]
    ensures DeleteCmds(op) == [DelLink(LinkKey(In("A"), "d0"))]
  {
  }

  lemma NextApplies(h: Host, cmds: seq<Cmd>, at: nat, from: nat, next: Host)
    requires from < |cmds| && Exec(h, cmds[from]) == Some(next)
    ensures CreateOne(h, cmds, {}, at, from) == CreateOne(next, cmds, {}, at, from + 1)
  {
  }

  /** The one link of a host goes to another place. */
  lemma MovesAlone(h: Host, at: LinkKey, to: LinkKey)
    requires h.facts == {}
    ensures var one := h.(links := map[at := Dummy]);
            && one.(links := (one.links - {at})[to := Dummy]) == h.(links := map[to := Dummy])
            && DropLinks(one, {at}).(links := (one.links - {at})[to := Dummy]) == h.(links := map[to := Dummy])
  {
  }

  lemma RenamedDummyIsMade(at: nat)
    ensures CreateOne(EmptyHost(map["A" := []]), CreateCmds(RENAMED_DUMMY), {}, at, 0).applied == 4
  {
    RenamedDummyCommands(RENAMED_DUMMY);
    var cmds := CreateCmds(RENAMED_DUMMY);
    var h := EmptyHost(map["A" := []]);
    var h1 := h.(links := map[LinkKey(Root, "d0") := Dummy]);
    NextApplies(h, cmds, at, 0, h1);
    var h2 := h.(links := map[LinkKey(In("A"), "d0") := Dummy]);
    MovesAlone(h, LinkKey(Root, "d0"), LinkKey(In("A"), "d0"));
    NextApplies(h1, cmds, at, 1, h2);
    MovedDummyIsMade(at, h2);
  }

  lemma MovedDummyIsMade(at: nat, h2: Host)
    requires h2 == EmptyHost(map["A" := []]).(links := map[LinkKey(In("A"), "d0") := Dummy])
    ensures CreateOne(h2, CreateCmds(RENAMED_DUMMY), {}, at, 2).applied == 4
  {
    RenamedDummyCommands(RENAMED_DUMMY);
    var cmds := CreateCmds(RENAMED_DUMMY);
    var h := EmptyHost(map["A" := []]);
    var h3 := h.(links := map[LinkKey(In("A"), "d1") := Dummy]);
    MovesAlone(h, LinkKey(In("A"), "d0"), LinkKey(In("A"), "d1"));
    NextApplies(h2, cmds, at, 2, h3);
    NextApplies(h3, cmds, at, 3, h3.(facts := h3.facts + {Up(LinkKey(In("A"), "d1"))}));
  }

  /** Nothing fails, and the host is not restored: a renamed dummy in a namespace
      that was there before. */
  lemma RenamedInBorrowedNamespace()
    ensures var h, queue := EmptyHost(map["A" := []]), [RENAMED_DUMMY];
            && h.Valid() && Distinct(h, queue)
            && var o := CreateQueue(h, queue, {}, 0);
               o.done == |queue| && DeleteQueue(o.host, queue) != h
  {
    var h, queue := EmptyHost(map["A" := []]), [RENAMED_DUMMY];
    RenamedDummyIsMade(0);
    RenamedDummyCommands(RENAMED_DUMMY);
    CreateThenDelete(h, queue, {});
    assert GotRenamed(queue, CreateQueue(h, queue, {}, 0), 0);
  }
}
