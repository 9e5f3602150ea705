/** Two peers over one in-process connection (runtime/peer.py,
    runtime/forward.py, runtime/transport.py) as a transition system: every
    action is one atomic section between two awaits, and the two sides take
    actions in any order. */
module PeerProtocol {
  import opened Common

  type ReqId = nat

  type Payload = string

  /** A frame in an inbox. `queued` says that an event went through the outbox;
      the wire does not carry it. `End` is the marker `close()` leaves. */
  datatype Frame =
    | Req(id: ReqId)
    | Event(id: ReqId, body: Payload, queued: bool)
    | Resp(id: ReqId, body: Payload)
    | End

  /** Where the task of one handled request stands. `Draining` is between the
      handler's return and the response. */
  datatype Phase =
    | Running
    | Draining(body: Payload)
    | Responded(body: Payload)
    | Abandoned
    | Cancelled

  /** A handled request and its outbox: everything put while it was open, how
      much of it the outbox task took, and how much of that went out before the
      connection closed. `broken` says that the outbox task met a body it could
      not encode, which ended it. */
  datatype Handler = Handler(puts: seq<Payload>, taken: nat, sent: nat, phase: Phase, broken: bool) {
    predicate Live() {
      phase.Running? || phase.Draining?
    }
  }

  /** A `Request`: what was delivered for it, how often it failed, and whether
      its `ask` stopped waiting (the last is not in the program's object). */
  datatype Waiting = Waiting(delivered: seq<Frame>, failures: nat, givenUp: bool)

  datatype Reader = Reading | Stopping(sawClose: bool) | Stopped(sawClose: bool)

  /** One side. `inbox` is everything ever put into it, of which `read` frames
      were taken; `requests` and `handlers` keep what has ended. */
  datatype Peer = Peer(
    inbox: seq<Frame>,
    read: nat,
    closed: bool,
    requests: map<ReqId, Waiting>,
    pending: set<ReqId>,
    handlers: map<ReqId, Handler>,
    reader: Reader)

  const NEW_PEER := Peer([], 0, false, map[], {}, map[], Reading)

  datatype Action =
    | SendRequest(id: ReqId)
    | GiveUp(id: ReqId)                     // `ask` timed out or was cancelled
    | Receive
    | SeeClose                              // `recv` raised Closed
    | CancelReader                          // `run` itself was cancelled
    | Put(id: ReqId, body: Payload)         // `emit`, `log`, `report` while open
    | EmitDirect(id: ReqId, body: Payload)  // `emit` once the outbox is closed
    | Drain(id: ReqId)
    | Break(id: ReqId)                      // the next body in the outbox cannot be encoded
    | Return(id: ReqId, body: Payload)      // the body of the response, or of the ErrorRes
    | Respond(id: ReqId)
    | RaiseClosed(id: ReqId)                // the handler let a Closed out
    | RaiseBroken(id: ReqId)                // closing the outbox raised what ended its task
    | Close
    | CancelHandler(id: ReqId)              // by the ending reader, or the handler let a CancelledError of its own out
    | Finish

  /** `send` over this transport fails exactly when this is false. */
  predicate Open(me: Peer, peer: Peer) {
    !me.closed && !peer.closed
  }

  predicate IsLive(me: Peer, id: ReqId) {
    id in me.handlers && me.handlers[id].Live()
  }

  predicate Enabled(me: Peer, peer: Peer, act: Action) {
    match act
    case SendRequest(id) => id !in me.requests && Open(me, peer)
    case GiveUp(id) => id in me.pending && id in me.requests
    case Receive => me.reader == Reading && me.read < |me.inbox| && me.inbox[me.read] != End
    case SeeClose => me.reader == Reading && (me.closed || (me.read < |me.inbox| && me.inbox[me.read] == End))
    case CancelReader => me.reader == Reading
    case Put(id, body) => id in me.handlers && me.handlers[id].phase == Running
    case EmitDirect(id, body) => id in me.handlers && me.handlers[id].phase != Running && Open(me, peer)
    case Drain(id) => IsLive(me, id) && !me.handlers[id].broken && me.handlers[id].taken < |me.handlers[id].puts|
    case Break(id) => IsLive(me, id) && !me.handlers[id].broken && me.handlers[id].taken < |me.handlers[id].puts|
    case Return(id, body) => id in me.handlers && me.handlers[id].phase == Running
    case Respond(id) => id in me.handlers && me.handlers[id].phase.Draining?
        && me.handlers[id].taken == |me.handlers[id].puts|
    case RaiseClosed(id) => id in me.handlers && me.handlers[id].phase == Running
    case RaiseBroken(id) => id in me.handlers && me.handlers[id].phase.Draining? && me.handlers[id].broken
    case Close => !me.closed
    case CancelHandler(id) => IsLive(me, id)
    case Finish => me.reader.Stopping? && forall id | id in me.handlers :: !me.handlers[id].Live()
  }

  function Deliver(w: Waiting, f: Frame): Waiting {
    w.(delivered := w.delivered + [f])
  }

  /** `_receive`: a request starts a handler; anything else goes to the request
      it names, which a response ends; what names none is an event. */
  function Dispatch(me: Peer, f: Frame): Peer {
    match f
    case Req(id) => me.(handlers := me.handlers[id := Handler([], 0, 0, Running, false)])
    case End => me
    case _ =>
      if f.id in me.pending && f.id in me.requests then
        me.(requests := me.requests[f.id := Deliver(me.requests[f.id], f)],
            pending := if f.Resp? then me.pending - {f.id} else me.pending)
      else me
  }

  function SetPhase(me: Peer, id: ReqId, phase: Phase): Peer
    requires id in me.handlers
  {
    me.(handlers := me.handlers[id := me.handlers[id].(phase := phase)])
  }

  function Push(peer: Peer, f: Frame): Peer {
    peer.(inbox := peer.inbox + [f])
  }

  function Fail(w: Waiting): Waiting {
    w.(failures := w.failures + 1)
  }

  /** One action of `me`: both sides afterwards. */
  function Act(me: Peer, peer: Peer, act: Action): (Peer, Peer)
    requires Enabled(me, peer, act)
  {
    match act
    case SendRequest(id) =>
      (me.(requests := me.requests[id := Waiting([], 0, false)], pending := me.pending + {id}), Push(peer, Req(id)))
    case GiveUp(id) =>
      (me.(requests := me.requests[id := me.requests[id].(givenUp := true)], pending := me.pending - {id}), peer)
    case Receive => (Dispatch(me.(read := me.read + 1), me.inbox[me.read]), peer)
    case SeeClose =>
      var read := if me.closed then me.read else me.read + 1;
      (me.(closed := true, read := read, reader := Stopping(true)), peer)
    case CancelReader => (me.(reader := Stopping(false)), peer)
    case Put(id, body) =>
      (me.(handlers := me.handlers[id := me.handlers[id].(puts := me.handlers[id].puts + [body])]), peer)
    case EmitDirect(id, body) => (me, Push(peer, Event(id, body, false)))
    case Drain(id) =>
      var h := me.handlers[id];
      if Open(me, peer) then
        (me.(handlers := me.handlers[id := h.(taken := h.taken + 1, sent := h.sent + 1)]),
         Push(peer, Event(id, h.puts[h.taken], true)))
      else
        (me.(handlers := me.handlers[id := h.(taken := h.taken + 1)]), peer)
    case Return(id, body) => (SetPhase(me, id, Draining(body)), peer)
    case Respond(id) =>
      var body := me.handlers[id].phase.body;
      if Open(me, peer) then (SetPhase(me, id, Responded(body)), Push(peer, Resp(id, body)))
      else (SetPhase(me, id, Abandoned), peer)
    case RaiseClosed(id) => (SetPhase(me, id, Abandoned), peer)
    case Break(id) => (me.(handlers := me.handlers[id := me.handlers[id].(broken := true)]), peer)
    case RaiseBroken(id) => (SetPhase(me, id, Abandoned), peer)
    case Close => (Push(me, End).(closed := true), if peer.closed then peer else Push(peer, End))
    case CancelHandler(id) => (SetPhase(me, id, Cancelled), peer)
    case Finish =>
      (me.(requests := map id | id in me.requests ::
                         if id in me.pending then Fail(me.requests[id]) else me.requests[id],
           pending := {}, reader := Stopped(me.reader.sawClose)),
       peer)
  }

  // ---------------------------------------------------------------------
  // What an inbox says about one request
  // ---------------------------------------------------------------------

  /** The frame belongs to the ordered answer to `id`: a queued event or the
      response. */
  predicate Answers(f: Frame, id: ReqId) {
    (f.Event? && f.id == id && f.queued) || (f.Resp? && f.id == id)
  }

  /** The ordered answer to `id` among `frames`. */
  function Answer(frames: seq<Frame>, id: ReqId): seq<Frame> {
    if frames == [] then []
    else
      var rest := Answer(frames[..|frames| - 1], id);
      var last := frames[|frames| - 1];
      if Answers(last, id) then rest + [last] else rest
  }

  /** How often `id` is requested among `frames`. */
  function Asked(frames: seq<Frame>, id: ReqId): nat {
    if frames == [] then 0
    else Asked(frames[..|frames| - 1], id) + if frames[|frames| - 1] == Req(id) then 1 else 0
  }

  lemma OneMore(frames: seq<Frame>, f: Frame, id: ReqId)
    ensures Answer(frames + [f], id) == if Answers(f, id) then Answer(frames, id) + [f] else Answer(frames, id)
    ensures Asked(frames + [f], id) == Asked(frames, id) + if f == Req(id) then 1 else 0
  {
    assert (frames + [f])[..|frames|] == frames;
  }

  /** Queued events with these bodies. */
  function Events(id: ReqId, bodies: seq<Payload>): seq<Frame> {
    seq(|bodies|, i requires 0 <= i < |bodies| => Event(id, bodies[i], true))
  }

  /** What a handler has put on the wire, in order. */
  function Sent(id: ReqId, h: Handler): seq<Frame>
    requires h.sent <= |h.puts|
  {
    Events(id, h.puts[..h.sent]) + if h.phase.Responded? then [Resp(id, h.phase.body)] else []
  }

  // ---------------------------------------------------------------------
  // The invariant of one conversation
  // ---------------------------------------------------------------------

  /** A handler's outbox is drained in order and nothing is dropped while the
      connection is open; a response means everything went out. */
  ghost predicate OutboxOk(h: Handler, open: bool) {
    && h.sent <= h.taken <= |h.puts|
    && (h.broken ==> h.taken < |h.puts|)
    && (open ==> h.sent == h.taken)
    && (h.phase.Responded? ==> h.sent == |h.puts|)
  }

  /** The server side of request `id` of `client`: it is on the wire at most
      once, and what came back is what its one handler sent. */
  ghost predicate Served(client: Peer, server: Peer, id: ReqId) {
    && server.read <= |server.inbox|
    && Asked(server.inbox, id) == (if id in client.requests then 1 else 0)
    && Asked(server.inbox[..server.read], id) == (if id in server.handlers then 1 else 0)
    && (id !in server.handlers ==> Answer(client.inbox, id) == [])
    && (id in server.handlers ==>
          && OutboxOk(server.handlers[id], Open(client, server))
          && Answer(client.inbox, id) == Sent(id, server.handlers[id])
          && (server.reader.Stopped? ==> !server.handlers[id].Live()))
  }

  ghost predicate HasResponse(frames: seq<Frame>, id: ReqId) {
    exists b :: Resp(id, b) in frames
  }

  /** What was delivered for `id` names it. */
  ghost predicate Mine(frames: seq<Frame>, id: ReqId) {
    forall f | f in frames :: (f.Event? || f.Resp?) && f.id == id
  }

  /** A `Request` against what its side has read: while it is pending it got
      all of it and no response yet; it ends once, by the response, by one
      failure, or because its `ask` gave up. */
  ghost predicate WaitingOk(w: Waiting, id: ReqId, pending: bool, got: seq<Frame>) {
    && Mine(w.delivered, id)
    && Answer(w.delivered, id) <= Answer(got, id)
    && (pending ==>
          w.failures == 0 && !w.givenUp && Answer(w.delivered, id) == Answer(got, id) && !HasResponse(got, id))
    && (w.failures > 0 || w.givenUp ==> !HasResponse(w.delivered, id))
    && (!pending ==> HasResponse(w.delivered, id) || w.givenUp != (w.failures == 1))
    && w.failures <= 1
  }

  /** The client side of request `id`. */
  ghost predicate Awaited(client: Peer, id: ReqId) {
    && client.read <= |client.inbox|
    && (id in client.pending ==> id in client.requests)
    && (id in client.requests ==> WaitingOk(client.requests[id], id, id in client.pending, client.inbox[..client.read]))
    && (client.reader != Reading && client.reader.sawClose ==> client.closed)
    && (client.reader.Stopped? && client.reader.sawClose ==> id !in client.pending)
  }

  ghost predicate Conversation(client: Peer, server: Peer, id: ReqId) {
    Served(client, server, id) && Awaited(client, id)
  }

  // ---------------------------------------------------------------------
  // Every action keeps it
  // ---------------------------------------------------------------------

  lemma ReadOneMore(frames: seq<Frame>, n: nat, id: ReqId)
    requires n < |frames|
    ensures Answer(frames[..n + 1], id) == if Answers(frames[n], id) then Answer(frames[..n], id) + [frames[n]]
            else Answer(frames[..n], id)
    ensures Asked(frames[..n + 1], id) == Asked(frames[..n], id) + if frames[n] == Req(id) then 1 else 0
    ensures HasResponse(frames[..n + 1], id) <==>
            HasResponse(frames[..n], id) || (frames[n].Resp? && frames[n].id == id)
  {
    assert frames[..n + 1] == frames[..n] + [frames[n]];
    OneMore(frames[..n], frames[n], id);
  }

  lemma {:induction false} AskedGrows(frames: seq<Frame>, n: nat, id: ReqId)
    requires n <= |frames|
    ensures Asked(frames[..n], id) <= Asked(frames, id)
  {
    if n < |frames| {
      AskedGrows(frames[..|frames| - 1], n, id);
      assert frames[..|frames| - 1][..n] == frames[..n];
    } else {
      assert frames[..n] == frames;
    }
  }

  /** Pushing a frame leaves what was read alone. */
  lemma Pushing(p: Peer, f: Frame, id: ReqId)
    requires p.read <= |p.inbox|
    ensures Push(p, f).inbox[..p.read] == p.inbox[..p.read]
    ensures Answer(Push(p, f).inbox, id) == if Answers(f, id) then Answer(p.inbox, id) + [f] else Answer(p.inbox, id)
    ensures Asked(Push(p, f).inbox, id) == Asked(p.inbox, id) + if f == Req(id) then 1 else 0
  {
    OneMore(p.inbox, f, id);
  }

  lemma {:induction false} AnswerGrows(frames: seq<Frame>, n: nat, id: ReqId)
    requires n <= |frames|
    ensures Answer(frames[..n], id) <= Answer(frames, id)
  {
    if n < |frames| {
      AnswerGrows(frames[..|frames| - 1], n, id);
      assert frames[..|frames| - 1][..n] == frames[..n];
    } else {
      assert frames[..n] == frames;
    }
  }

  /** The ordered answer keeps every response and invents none. */
  lemma {:induction false} AnswerHasResponse(frames: seq<Frame>, id: ReqId, b: Payload)
    ensures Resp(id, b) in Answer(frames, id) <==> Resp(id, b) in frames
  {
    if frames != [] {
      AnswerHasResponse(frames[..|frames| - 1], id, b);
      assert frames == frames[..|frames| - 1] + [frames[|frames| - 1]];
    }
  }

  lemma NoAnswerNoResponse(frames: seq<Frame>, n: nat, id: ReqId)
    requires n <= |frames| && Answer(frames, id) == []
    ensures Answer(frames[..n], id) == [] && !HasResponse(frames[..n], id)
  {
    AnswerGrows(frames, n, id);
    forall b ensures Resp(id, b) !in frames[..n] {
      AnswerHasResponse(frames[..n], id, b);
    }
  }

  lemma SendRequestKeeps(me: Peer, peer: Peer, asked: ReqId, id: ReqId)
    requires Conversation(me, peer, id) && Conversation(peer, me, id) && Enabled(me, peer, SendRequest(asked))
    ensures var (me', peer') := Act(me, peer, SendRequest(asked));
            Conversation(me', peer', id) && Conversation(peer', me', id)
  {
    Pushing(peer, Req(asked), id);
    AskedGrows(peer.inbox, peer.read, id);
    if id == asked {
      NoAnswerNoResponse(me.inbox, me.read, id);
    }
  }

  /** Reading a request starts its one handler. */
  lemma ReceiveRequestKeeps(me: Peer, peer: Peer, id: ReqId)
    requires Conversation(me, peer, id) && Conversation(peer, me, id) && Enabled(me, peer, Receive)
    requires me.inbox[me.read].Req?
    ensures var (me', peer') := Act(me, peer, Receive); Conversation(me', peer', id) && Conversation(peer', me', id)
  {
    ReadOneMore(me.inbox, me.read, id);
    AskedGrows(me.inbox, me.read + 1, id);
  }

  lemma DeliveredResponse(w: Waiting, id: ReqId, got: seq<Frame>)
    requires Answer(w.delivered, id) == Answer(got, id)
    ensures HasResponse(w.delivered, id) <==> HasResponse(got, id)
  {
    forall b ensures Resp(id, b) in w.delivered <==> Resp(id, b) in got {
      AnswerHasResponse(w.delivered, id, b);
      AnswerHasResponse(got, id, b);
    }
  }

  /** A frame that is read for a pending request is delivered to it. */
  lemma DeliverKeeps(w: Waiting, id: ReqId, got: seq<Frame>, f: Frame)
    requires WaitingOk(w, id, true, got) && (f.Event? || f.Resp?) && f.id == id
    ensures WaitingOk(Deliver(w, f), id, !f.Resp?, got + [f])
  {
    OneMore(w.delivered, f, id);
    OneMore(got, f, id);
    DeliveredResponse(w, id, got);
    if f.Resp? {
      assert f == Resp(id, f.body) && f in Deliver(w, f).delivered;
    } else {
      DeliveredResponse(Deliver(w, f), id, got + [f]);
    }
  }

  /** Reading any other frame leaves a request as it is. */
  lemma ReadKeeps(w: Waiting, id: ReqId, pending: bool, got: seq<Frame>, f: Frame)
    requires WaitingOk(w, id, pending, got) && (pending ==> f.Req? || f.End? || f.id != id)
    ensures WaitingOk(w, id, pending, got + [f])
  {
    OneMore(got, f, id);
  }

  /** Reading anything but a request extends what its pending request got. */
  lemma ReceiveAnswerAwaited(me: Peer, peer: Peer, id: ReqId)
    requires Awaited(me, id) && Enabled(me, peer, Receive) && !me.inbox[me.read].Req?
    ensures Awaited(Act(me, peer, Receive).0, id)
  {
    var f := me.inbox[me.read];
    var got := me.inbox[..me.read];
    assert me.inbox[..me.read + 1] == got + [f];
    if id in me.requests {
      if id in me.pending && f.id == id {
        DeliverKeeps(me.requests[id], id, got, f);
      } else {
        ReadKeeps(me.requests[id], id, id in me.pending, got, f);
      }
    }
  }

  lemma ReceiveAnswerServed(me: Peer, peer: Peer, id: ReqId)
    requires Served(me, peer, id) && Served(peer, me, id) && Enabled(me, peer, Receive) && !me.inbox[me.read].Req?
    ensures var me' := Act(me, peer, Receive).0; Served(me', peer, id) && Served(peer, me', id)
  {
    ReadOneMore(me.inbox, me.read, id);
    var me' := Act(me, peer, Receive).0;
    assert me'.inbox == me.inbox && me'.handlers == me.handlers && me'.requests.Keys == me.requests.Keys;
  }

  /** The outbox task takes the next event; while the connection is open it
      goes out next. */
  lemma DrainServed(me: Peer, peer: Peer, id: ReqId)
    requires Served(peer, me, id) && Enabled(me, peer, Drain(id))
    ensures var (me', peer') := Act(me, peer, Drain(id)); Served(peer', me', id)
  {
    var h := me.handlers[id];
    OneMore(peer.inbox, Event(id, h.puts[h.taken], true), id);
    if Open(me, peer) {
      assert h.puts[..h.sent + 1] == h.puts[..h.sent] + [h.puts[h.sent]];
    }
  }

  lemma DrainOther(me: Peer, peer: Peer, who: ReqId, id: ReqId)
    requires Served(peer, me, id) && Enabled(me, peer, Drain(who)) && who != id
    ensures var (me', peer') := Act(me, peer, Drain(who)); Served(peer', me', id)
  {
    var h := me.handlers[who];
    OneMore(peer.inbox, Event(who, h.puts[h.taken], true), id);
  }

  lemma DrainKeeps(me: Peer, peer: Peer, who: ReqId, id: ReqId)
    requires Conversation(me, peer, id) && Conversation(peer, me, id) && Enabled(me, peer, Drain(who))
    ensures var (me', peer') := Act(me, peer, Drain(who)); Conversation(me', peer', id) && Conversation(peer', me', id)
  {
    var h := me.handlers[who];
    Pushing(peer, Event(who, h.puts[h.taken], true), id);
    if who == id {
      DrainServed(me, peer, id);
    } else {
      DrainOther(me, peer, who, id);
    }
  }

  /** The response goes out behind everything that was put. */
  lemma RespondServed(me: Peer, peer: Peer, id: ReqId)
    requires Served(peer, me, id) && Enabled(me, peer, Respond(id)) && Open(me, peer)
    ensures var (me', peer') := Act(me, peer, Respond(id)); Served(peer', me', id)
  {
    OneMore(peer.inbox, Resp(id, me.handlers[id].phase.body), id);
  }

  lemma RespondOther(me: Peer, peer: Peer, who: ReqId, id: ReqId)
    requires Served(peer, me, id) && Enabled(me, peer, Respond(who)) && Open(me, peer) && who != id
    ensures var (me', peer') := Act(me, peer, Respond(who)); Served(peer', me', id)
  {
    OneMore(peer.inbox, Resp(who, me.handlers[who].phase.body), id);
  }

  lemma RespondKeeps(me: Peer, peer: Peer, who: ReqId, id: ReqId)
    requires Conversation(me, peer, id) && Conversation(peer, me, id) && Enabled(me, peer, Respond(who))
             && Open(me, peer)
    ensures var (me', peer') := Act(me, peer, Respond(who));
            Conversation(me', peer', id) && Conversation(peer', me', id)
  {
    Pushing(peer, Resp(who, me.handlers[who].phase.body), id);
    if who == id {
      RespondServed(me, peer, id);
    } else {
      RespondOther(me, peer, who, id);
    }
  }

  lemma PutKeeps(me: Peer, peer: Peer, who: ReqId, body: Payload, id: ReqId)
    requires Conversation(me, peer, id) && Conversation(peer, me, id) && Enabled(me, peer, Put(who, body))
    ensures var (me', peer') := Act(me, peer, Put(who, body));
            Conversation(me', peer', id) && Conversation(peer', me', id)
  {
    var h := me.handlers[who];
    if who == id {
      assert (h.puts + [body])[..h.sent] == h.puts[..h.sent];
    }
  }

  lemma CloseKeeps(me: Peer, peer: Peer, id: ReqId)
    requires Conversation(me, peer, id) && Conversation(peer, me, id) && Enabled(me, peer, Close)
    ensures var (me', peer') := Act(me, peer, Close); Conversation(me', peer', id) && Conversation(peer', me', id)
  {
    Pushing(me, End, id);
    Pushing(peer, End, id);
  }

  lemma SeeCloseKeeps(me: Peer, peer: Peer, id: ReqId)
    requires Conversation(me, peer, id) && Conversation(peer, me, id) && Enabled(me, peer, SeeClose)
    ensures var (me', peer') := Act(me, peer, SeeClose); Conversation(me', peer', id) && Conversation(peer', me', id)
  {
    if !me.closed {
      ReadOneMore(me.inbox, me.read, id);
    }
  }

  /** The end of a handler's task without a response, and its return. */
  lemma PhaseKeeps(me: Peer, peer: Peer, who: ReqId, phase: Phase, id: ReqId)
    requires Conversation(me, peer, id) && Conversation(peer, me, id)
    requires IsLive(me, who) && !phase.Responded? && !phase.Running?
             && (phase.Draining? ==> me.handlers[who].phase.Running?)
    ensures var me' := SetPhase(me, who, phase); Conversation(me', peer, id) && Conversation(peer, me', id)
  {
  }

  lemma BreakKeeps(me: Peer, peer: Peer, who: ReqId, id: ReqId)
    requires Conversation(me, peer, id) && Conversation(peer, me, id) && Enabled(me, peer, Break(who))
    ensures var (me', peer') := Act(me, peer, Break(who)); Conversation(me', peer', id) && Conversation(peer', me', id)
  {
  }

  lemma GiveUpKeeps(me: Peer, peer: Peer, who: ReqId, id: ReqId)
    requires Conversation(me, peer, id) && Conversation(peer, me, id) && Enabled(me, peer, GiveUp(who))
    ensures var (me', peer') := Act(me, peer, GiveUp(who)); Conversation(me', peer', id) && Conversation(peer', me', id)
  {
    if id in me.pending {
      DeliveredResponse(me.requests[id], id, me.inbox[..me.read]);
    }
  }

  lemma FinishKeeps(me: Peer, peer: Peer, id: ReqId)
    requires Conversation(me, peer, id) && Conversation(peer, me, id) && Enabled(me, peer, Finish)
    ensures var (me', peer') := Act(me, peer, Finish); Conversation(me', peer', id) && Conversation(peer', me', id)
  {
    if id in me.pending {
      DeliveredResponse(me.requests[id], id, me.inbox[..me.read]);
    }
  }

  lemma EmitDirectKeeps(me: Peer, peer: Peer, who: ReqId, body: Payload, id: ReqId)
    requires Conversation(me, peer, id) && Conversation(peer, me, id) && Enabled(me, peer, EmitDirect(who, body))
    ensures var (me', peer') := Act(me, peer, EmitDirect(who, body));
            Conversation(me', peer', id) && Conversation(peer', me', id)
  {
    Pushing(peer, Event(who, body, false), id);
  }

  /** One action keeps every conversation of both directions. */
  lemma ActKeeps(me: Peer, peer: Peer, act: Action, id: ReqId)
    requires Conversation(me, peer, id) && Conversation(peer, me, id) && Enabled(me, peer, act)
    ensures var (me', peer') := Act(me, peer, act); Conversation(me', peer', id) && Conversation(peer', me', id)
  {
    match act
    case SendRequest(asked) => SendRequestKeeps(me, peer, asked, id);
    case GiveUp(who) => GiveUpKeeps(me, peer, who, id);
    case Receive =>
      if me.inbox[me.read].Req? {
        ReceiveRequestKeeps(me, peer, id);
      } else {
        ReceiveAnswerAwaited(me, peer, id);
        ReceiveAnswerServed(me, peer, id);
      }
    case SeeClose => SeeCloseKeeps(me, peer, id);
    case CancelReader =>
    case Put(who, body) => PutKeeps(me, peer, who, body, id);
    case EmitDirect(who, body) => EmitDirectKeeps(me, peer, who, body, id);
    case Drain(who) => DrainKeeps(me, peer, who, id);
    case Return(who, body) => PhaseKeeps(me, peer, who, Draining(body), id);
    case Respond(who) =>
      if Open(me, peer) {
        RespondKeeps(me, peer, who, id);
      } else {
        PhaseKeeps(me, peer, who, Abandoned, id);
      }
    case RaiseClosed(who) => PhaseKeeps(me, peer, who, Abandoned, id);
    case Break(who) => BreakKeeps(me, peer, who, id);
    case RaiseBroken(who) => PhaseKeeps(me, peer, who, Abandoned, id);
    case Close => CloseKeeps(me, peer, id);
    case CancelHandler(who) => PhaseKeeps(me, peer, who, Cancelled, id);
    case Finish => FinishKeeps(me, peer, id);
  }
}
