/** The protocol told from the steps that were taken: a response is the body its
    handler returned, the events before it are the bodies that were emitted, and
    a request gets every frame that names it. */
module PeerHistory {
  import opened Common
  import opened PeerProtocol
  import opened PeerRuns

  /** A body is emitted while the outbox is open, emitted past it, or returned. */
  datatype Way = Queued | Direct | Returned

  /** The body a step of side `byA` gives for request `id` that way, if any. */
  function Says(step: Step, way: Way, byA: bool, id: ReqId): seq<Payload> {
    if step.byA != byA then []
    else
      match step.act
      case Put(who, body) => if way == Queued && who == id then [body] else []
      case EmitDirect(who, body) => if way == Direct && who == id then [body] else []
      case Return(who, body) => if way == Returned && who == id then [body] else []
      case _ => []
  }

  /** All of them, in the order of the steps. */
  function Said(steps: seq<Step>, way: Way, byA: bool, id: ReqId): seq<Payload> {
    if steps == [] then [] else Says(steps[0], way, byA, id) + Said(steps[1..], way, byA, id)
  }

  // ---------------------------------------------------------------------
  // What a handler knows of it
  // ---------------------------------------------------------------------

  function HandlerOf(p: Peer, id: ReqId): Option<Handler> {
    if id in p.handlers then Some(p.handlers[id]) else None
  }

  function PutsOf(h: Option<Handler>): seq<Payload> {
    if h.Some? then h.value.puts else []
  }

  /** Nothing was returned yet. */
  predicate Fresh(h: Option<Handler>) {
    h.None? || h.value.phase.Running?
  }

  /** The body a handler answers with. */
  function Answering(h: Option<Handler>): Option<Payload> {
    if h.Some? && (h.value.phase.Draining? || h.value.phase.Responded?) then Some(h.value.phase.body) else None
  }

  /** `after` is `before` and what was returned in between. */
  ghost predicate Follows(before: Option<Handler>, returned: seq<Payload>, after: Option<Handler>) {
    if Fresh(before) then
      && |returned| <= 1
      && (Answering(after).Some? ==> returned == [Answering(after).value])
      && (Fresh(after) ==> returned == [])
    else
      returned == [] && !Fresh(after) && (Answering(after).Some? ==> Answering(before) == Answering(after))
  }

  lemma FollowsOn(x: Option<Handler>, first: seq<Payload>, y: Option<Handler>, rest: seq<Payload>, z: Option<Handler>)
    requires Follows(x, first, y) && Follows(y, rest, z)
    ensures Follows(x, first + rest, z)
  {
  }

  /** One action of `me` leaves the handlers of the other side alone, and what
      its own handler of `id` knows is what the action says. */
  lemma ActSays(me: Peer, peer: Peer, act: Action, byA: bool, id: ReqId)
    requires Served(peer, me, id) && Enabled(me, peer, act)
    ensures var (me', peer') := Act(me, peer, act);
            var h, h' := HandlerOf(me, id), HandlerOf(me', id);
            && peer'.handlers == peer.handlers
            && PutsOf(h') == PutsOf(h) + Says(Step(byA, act), Queued, byA, id)
            && Follows(h, Says(Step(byA, act), Returned, byA, id), h')
  {
    if act == Receive {
      StartsOnce(me, peer, id);
    } else {
      OtherSays(me, peer, act, byA, id);
    }
  }

  lemma OtherSays(me: Peer, peer: Peer, act: Action, byA: bool, id: ReqId)
    requires Enabled(me, peer, act) && act != Receive
    ensures var (me', peer') := Act(me, peer, act);
            var h, h' := HandlerOf(me, id), HandlerOf(me', id);
            && peer'.handlers == peer.handlers
            && PutsOf(h') == PutsOf(h) + Says(Step(byA, act), Queued, byA, id)
            && Follows(h, Says(Step(byA, act), Returned, byA, id), h')
  {
  }

  lemma StartsOnce(me: Peer, peer: Peer, id: ReqId)
    requires Served(peer, me, id) && Enabled(me, peer, Receive)
    ensures var me' := Act(me, peer, Receive).0;
            || HandlerOf(me', id) == HandlerOf(me, id)
            || (HandlerOf(me, id) == None && HandlerOf(me', id) == Some(Handler([], 0, 0, Running, false)))
  {
    ReadOneMore(me.inbox, me.read, id);
    AskedGrows(me.inbox, me.read + 1, id);
  }

  lemma StepSays(s: State, step: Step, byA: bool, id: ReqId)
    requires Served(s.a, s.b, id) && Served(s.b, s.a, id) && CanTake(s, step)
    ensures var h, h' := HandlerOf(Client(s, byA), id), HandlerOf(Client(Take(s, step), byA), id);
            && PutsOf(h') == PutsOf(h) + Says(step, Queued, byA, id)
            && Follows(h, Says(step, Returned, byA, id), h')
  {
    if step.byA {
      ActSays(s.a, s.b, step.act, true, id);
    } else {
      ActSays(s.b, s.a, step.act, false, id);
    }
  }

  lemma StepKeeps(s: State, step: Step, id: ReqId)
    requires Both(s, id) && CanTake(s, step)
    ensures Both(Take(s, step), id)
  {
    if step.byA {
      ActKeeps(s.a, s.b, step.act, id);
    } else {
      ActKeeps(s.b, s.a, step.act, id);
    }
  }

  lemma {:induction false} RunSays(s: State, steps: seq<Step>, byA: bool, id: ReqId)
    requires Both(s, id) && Runs(s, steps)
    ensures var h, h' := HandlerOf(Client(s, byA), id), HandlerOf(Client(After(s, steps), byA), id);
            && PutsOf(h') == PutsOf(h) + Said(steps, Queued, byA, id)
            && Follows(h, Said(steps, Returned, byA, id), h')
    decreases steps
  {
    if steps != [] {
      var next := Take(s, steps[0]);
      StepKeeps(s, steps[0], id);
      StepSays(s, steps[0], byA, id);
      RunSays(next, steps[1..], byA, id);
      var x, y := HandlerOf(Client(s, byA), id), HandlerOf(Client(next, byA), id);
      var z := HandlerOf(Client(After(s, steps), byA), id);
      FollowsOn(x, Says(steps[0], Returned, byA, id), y, Said(steps[1..], Returned, byA, id), z);
      AppendAssociates(PutsOf(x), Says(steps[0], Queued, byA, id), Said(steps[1..], Queued, byA, id));
    }
  }

  /** In every reachable state: what a handler put is what was emitted for its
      request while its outbox was open, and what it answers with is the one body
      that was returned. */
  lemma HandlerKnows(steps: seq<Step>, byA: bool, id: ReqId)
    requires Runs(START, steps)
    ensures var h := HandlerOf(Client(After(START, steps), byA), id);
            && PutsOf(h) == Said(steps, Queued, byA, id)
            && (Answering(h).Some? ==> Said(steps, Returned, byA, id) == [Answering(h).value])
  {
    RunSays(START, steps, byA, id);
  }

  // ---------------------------------------------------------------------
  // Responses
  // ---------------------------------------------------------------------

  /** Step `i` is the only one at which side `byA` returns from request `id`, and
      it returns `body`. */
  ghost predicate OnlyReturn(steps: seq<Step>, i: nat, byA: bool, id: ReqId, body: Payload) {
    && i < |steps| && steps[i] == Step(byA, Return(id, body))
    && forall j | 0 <= j < |steps| && j != i ::
         !(steps[j].byA == byA && steps[j].act.Return? && steps[j].act.id == id)
  }

  lemma {:induction false} NoneReturned(steps: seq<Step>, byA: bool, id: ReqId, j: nat)
    requires Said(steps, Returned, byA, id) == [] && j < |steps|
    ensures !(steps[j].byA == byA && steps[j].act.Return? && steps[j].act.id == id)
  {
    if j > 0 {
      NoneReturned(steps[1..], byA, id, j - 1);
    }
  }

  lemma {:induction false} OneReturned(steps: seq<Step>, byA: bool, id: ReqId, body: Payload) returns (i: nat)
    requires Said(steps, Returned, byA, id) == [body]
    ensures OnlyReturn(steps, i, byA, id, body)
  {
    if Says(steps[0], Returned, byA, id) == [] {
      i := OneReturned(steps[1..], byA, id, body);
      forall j | 0 < j < |steps| ensures steps[1..][j - 1] == steps[j] {
      }
      i := i + 1;
    } else {
      i := 0;
      assert Said(steps, Returned, byA, id)[0] == body;
      assert |Said(steps[1..], Returned, byA, id)| == 0;
      forall j | 0 < j < |steps| ensures !(steps[j].byA == byA && steps[j].act.Return? && steps[j].act.id == id) {
        NoneReturned(steps[1..], byA, id, j - 1);
      }
    }
  }

  lemma ResponseIsSent(client: Peer, server: Peer, id: ReqId, body: Payload)
    requires Served(client, server, id) && Resp(id, body) in client.inbox
    ensures id in server.handlers && server.handlers[id].phase == Responded(body)
  {
    AnswerHasResponse(client.inbox, id, body);
  }

  /** A response on its way back, or read, is what a handler returned: exactly one
      step of the other side returned from the request, and with this body. */
  lemma ResponseIsReturned(steps: seq<Step>, asA: bool, id: ReqId, body: Payload) returns (i: nat)
    requires Runs(START, steps) && Resp(id, body) in Client(After(START, steps), asA).inbox
    ensures OnlyReturn(steps, i, !asA, id, body)
  {
    var s := After(START, steps);
    Reachable(steps, asA, id);
    ResponseIsSent(Client(s, asA), Server(s, asA), id, body);
    HandlerKnows(steps, !asA, id);
    i := OneReturned(steps, !asA, id, body);
  }

  /** So is a response that was delivered; and the ordered answer it ends is the
      bodies emitted for the request before its outbox closed, all of them, in
      the order in which they were emitted. */
  lemma AnswerIsWhatWasSaid(steps: seq<Step>, asA: bool, id: ReqId, to: ReqId, body: Payload) returns (i: nat)
    requires Runs(START, steps)
    requires var client := Client(After(START, steps), asA);
             to in client.requests && Resp(id, body) in client.requests[to].delivered
    ensures id == to && OnlyReturn(steps, i, !asA, id, body)
    ensures Answer(Client(After(START, steps), asA).requests[id].delivered, id) ==
            Events(id, Said(steps, Queued, !asA, id)) + [Resp(id, body)]
  {
    ResponseIsComplete(steps, asA, id, to, body);
    HandlerKnows(steps, !asA, id);
    i := OneReturned(steps, !asA, id, body);
  }

  /** At any time: what came back so far is a beginning of what was emitted. */
  lemma EventsAreSaid(steps: seq<Step>, asA: bool, id: ReqId)
    requires Runs(START, steps)
    ensures var client := Client(After(START, steps), asA);
            || Answer(client.inbox, id) <= Events(id, Said(steps, Queued, !asA, id))
            || exists body :: Answer(client.inbox, id) == Events(id, Said(steps, Queued, !asA, id)) + [Resp(id, body)]
  {
    Reachable(steps, asA, id);
    HandlerKnows(steps, !asA, id);
    var s := After(START, steps);
    if id in Server(s, asA).handlers {
      OutboxOrder(steps, asA, id);
    }
  }

  // ---------------------------------------------------------------------
  // Events past the outbox, and delivery
  // ---------------------------------------------------------------------

  /** The bodies of the events for `id` that did not go through the outbox. */
  function Directs(frames: seq<Frame>, id: ReqId): seq<Payload> {
    if frames == [] then []
    else
      var last := frames[|frames| - 1];
      Directs(frames[..|frames| - 1], id) +
      if last.Event? && !last.queued && last.id == id then [last.body] else []
  }

  /** The frames of an answer: all that name `id`. */
  function Naming(frames: seq<Frame>, id: ReqId): seq<Frame> {
    if frames == [] then []
    else
      var last := frames[|frames| - 1];
      Naming(frames[..|frames| - 1], id) + if (last.Event? || last.Resp?) && last.id == id then [last] else []
  }

  lemma OneMoreFrame(frames: seq<Frame>, f: Frame, id: ReqId)
    ensures Directs(frames + [f], id) ==
            Directs(frames, id) + if f.Event? && !f.queued && f.id == id then [f.body] else []
    ensures Naming(frames + [f], id) == Naming(frames, id) + if (f.Event? || f.Resp?) && f.id == id then [f] else []
  {
    assert (frames + [f])[..|frames|] == frames;
  }

  /** The frame an action pushes to the other side. */
  function PushedBy(me: Peer, peer: Peer, act: Action): Option<Frame>
    requires Enabled(me, peer, act)
  {
    match act
    case SendRequest(id) => Some(Req(id))
    case EmitDirect(id, body) => Some(Event(id, body, false))
    case Drain(id) =>
      if Open(me, peer) then Some(Event(id, me.handlers[id].puts[me.handlers[id].taken], true)) else None
    case Respond(id) => if Open(me, peer) then Some(Resp(id, me.handlers[id].phase.body)) else None
    case Close => if peer.closed then None else Some(End)
    case _ => None
  }

  lemma ActPushes(me: Peer, peer: Peer, act: Action)
    requires Enabled(me, peer, act)
    ensures var (me', peer') := Act(me, peer, act);
            var f := PushedBy(me, peer, act);
            && peer'.inbox == (if f.Some? then peer.inbox + [f.value] else peer.inbox)
            && me'.inbox == if act == Close then me.inbox + [End] else me.inbox
  {
  }

  lemma PushSays(me: Peer, peer: Peer, act: Action, byA: bool, id: ReqId)
    requires Enabled(me, peer, act)
    ensures var f := PushedBy(me, peer, act);
            Says(Step(byA, act), Direct, byA, id) ==
            if f.Some? && f.value.Event? && !f.value.queued && f.value.id == id then [f.value.body] else []
  {
  }

  lemma ActSaysDirectly(me: Peer, peer: Peer, act: Action, byA: bool, id: ReqId)
    requires Enabled(me, peer, act)
    ensures var (me', peer') := Act(me, peer, act);
            && Directs(peer'.inbox, id) == Directs(peer.inbox, id) + Says(Step(byA, act), Direct, byA, id)
            && Directs(me'.inbox, id) == Directs(me.inbox, id)
  {
    ActPushes(me, peer, act);
    PushSays(me, peer, act, byA, id);
    var f := PushedBy(me, peer, act);
    if f.Some? {
      OneMoreFrame(peer.inbox, f.value, id);
    }
    OneMoreFrame(me.inbox, End, id);
  }

  lemma StepSaysDirectly(s: State, step: Step, asA: bool, id: ReqId)
    requires CanTake(s, step)
    ensures Directs(Client(Take(s, step), asA).inbox, id) ==
            Directs(Client(s, asA).inbox, id) + Says(step, Direct, !asA, id)
  {
    if step.byA {
      ActSaysDirectly(s.a, s.b, step.act, true, id);
    } else {
      ActSaysDirectly(s.b, s.a, step.act, false, id);
    }
  }

  lemma {:induction false} RunSaysDirectly(s: State, steps: seq<Step>, asA: bool, id: ReqId)
    requires Runs(s, steps)
    ensures Directs(Client(After(s, steps), asA).inbox, id) ==
            Directs(Client(s, asA).inbox, id) + Said(steps, Direct, !asA, id)
    decreases steps
  {
    if steps != [] {
      StepSaysDirectly(s, steps[0], asA, id);
      RunSaysDirectly(Take(s, steps[0]), steps[1..], asA, id);
      AppendAssociates(Directs(Client(s, asA).inbox, id), Says(steps[0], Direct, !asA, id),
        Said(steps[1..], Direct, !asA, id));
    }
  }

  /** What was emitted past the outbox arrives, all of it and in order. */
  lemma DirectsAreSaid(steps: seq<Step>, asA: bool, id: ReqId)
    requires Runs(START, steps)
    ensures Directs(Client(After(START, steps), asA).inbox, id) == Said(steps, Direct, !asA, id)
  {
    RunSaysDirectly(START, steps, asA, id);
  }

  /** A request of `client` against its inbox: no frame names it before it is
      asked, and while it is pending it got all that were read, in order. */
  ghost predicate GetsAll(client: Peer, server: Peer, id: ReqId) {
    && client.read <= |client.inbox|
    && (id !in server.handlers ==> Naming(client.inbox, id) == [])
    && (id in client.pending && id in client.requests ==>
          client.requests[id].delivered == Naming(client.inbox[..client.read], id))
  }

  lemma {:induction false} NamingGrows(frames: seq<Frame>, n: nat, id: ReqId)
    requires n <= |frames| && Naming(frames, id) == []
    ensures Naming(frames[..n], id) == []
  {
    if n < |frames| {
      NamingGrows(frames[..|frames| - 1], n, id);
      assert frames[..|frames| - 1][..n] == frames[..n];
    } else {
      assert frames[..n] == frames;
    }
  }

  /** The side that acts: its own requests. */
  lemma ActorGetsAll(me: Peer, peer: Peer, act: Action, id: ReqId)
    requires Conversation(me, peer, id) && GetsAll(me, peer, id) && Enabled(me, peer, act)
    ensures var (me', peer') := Act(me, peer, act); GetsAll(me', peer', id)
  {
    if act == Receive {
      ReaderGetsAll(me, peer, id);
    } else if act == SendRequest(id) {
      AskerGetsAll(me, peer, id);
    } else if act == Close {
      CloserGetsAll(me, peer, id);
    } else {
      OtherGetsAll(me, peer, act, id);
    }
  }

  lemma AskerGetsAll(me: Peer, peer: Peer, id: ReqId)
    requires Conversation(me, peer, id) && GetsAll(me, peer, id) && Enabled(me, peer, SendRequest(id))
    ensures var (me', peer') := Act(me, peer, SendRequest(id)); GetsAll(me', peer', id)
  {
    AskedGrows(peer.inbox, peer.read, id);
    assert id !in peer.handlers;
    NamingGrows(me.inbox, me.read, id);
  }

  lemma CloserGetsAll(me: Peer, peer: Peer, id: ReqId)
    requires GetsAll(me, peer, id) && Enabled(me, peer, Close)
    ensures var (me', peer') := Act(me, peer, Close); GetsAll(me', peer', id)
  {
    OneMoreFrame(me.inbox, End, id);
    assert (me.inbox + [End])[..me.read] == me.inbox[..me.read];
  }

  lemma SeeingCloseGetsAll(me: Peer, peer: Peer, id: ReqId)
    requires GetsAll(me, peer, id) && Enabled(me, peer, SeeClose)
    ensures var (me', peer') := Act(me, peer, SeeClose); GetsAll(me', peer', id)
  {
    if !me.closed {
      assert me.inbox[..me.read + 1] == me.inbox[..me.read] + [End];
      OneMoreFrame(me.inbox[..me.read], End, id);
    }
  }

  lemma OtherGetsAll(me: Peer, peer: Peer, act: Action, id: ReqId)
    requires GetsAll(me, peer, id) && Enabled(me, peer, act)
    requires act != Receive && act != SendRequest(id) && act != Close
    ensures var (me', peer') := Act(me, peer, act); GetsAll(me', peer', id)
  {
    if act == SeeClose {
      SeeingCloseGetsAll(me, peer, id);
    }
  }

  lemma ReaderGetsAll(me: Peer, peer: Peer, id: ReqId)
    requires GetsAll(me, peer, id) && Enabled(me, peer, Receive)
    ensures var (me', peer') := Act(me, peer, Receive); GetsAll(me', peer', id)
  {
    assert me.inbox[..me.read + 1] == me.inbox[..me.read] + [me.inbox[me.read]];
    OneMoreFrame(me.inbox[..me.read], me.inbox[me.read], id);
  }

  /** The other side: what it is pushed comes from a handler of its request. */
  lemma OtherSideGetsAll(me: Peer, peer: Peer, act: Action, id: ReqId)
    requires GetsAll(peer, me, id) && Enabled(me, peer, act)
    ensures var (me', peer') := Act(me, peer, act); GetsAll(peer', me', id)
  {
    ActPushes(me, peer, act);
    var f := PushedBy(me, peer, act);
    if f.Some? {
      OneMoreFrame(peer.inbox, f.value, id);
      assert (peer.inbox + [f.value])[..peer.read] == peer.inbox[..peer.read];
    }
  }

  lemma StepGetsAll(s: State, step: Step, asA: bool, id: ReqId)
    requires Both(s, id) && GetsAll(Client(s, asA), Server(s, asA), id) && CanTake(s, step)
    ensures GetsAll(Client(Take(s, step), asA), Server(Take(s, step), asA), id)
  {
    if step.byA == asA {
      ActorGetsAll(Client(s, asA), Server(s, asA), step.act, id);
    } else {
      OtherSideGetsAll(Server(s, asA), Client(s, asA), step.act, id);
    }
  }

  lemma {:induction false} RunGetsAll(s: State, steps: seq<Step>, asA: bool, id: ReqId)
    requires Both(s, id) && GetsAll(Client(s, asA), Server(s, asA), id) && Runs(s, steps)
    ensures GetsAll(Client(After(s, steps), asA), Server(After(s, steps), asA), id)
    decreases steps
  {
    if steps != [] {
      StepKeeps(s, steps[0], id);
      StepGetsAll(s, steps[0], asA, id);
      RunGetsAll(Take(s, steps[0]), steps[1..], asA, id);
    }
  }

  /** In every reachable state a pending request got every frame that names it
      and was read, and no other, in order: events of the outbox and events past
      it alike. */
  lemma PendingGetsAll(steps: seq<Step>, asA: bool, id: ReqId)
    requires Runs(START, steps) && id in Client(After(START, steps), asA).pending
    ensures var client := Client(After(START, steps), asA);
            && client.read <= |client.inbox| && id in client.requests
            && client.requests[id].delivered == Naming(client.inbox[..client.read], id)
  {
    Reachable(steps, asA, id);
    RunGetsAll(START, steps, asA, id);
  }
}
