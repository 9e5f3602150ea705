/** The objects of the protocol as they are updated in place: the in-process
    connection (runtime/transport.py), the outbox (runtime/forward.py), the
    request handle and the peer (runtime/peer.py). Each method is one atomic
    section, and where it is an action of `PeerProtocol` its last `ensures` says
    so: whatever state of the transition system the objects stand for (`Is`),
    they stand for the state after the action afterwards. */
module PeerObjects {
  import opened Common
  import opened PeerProtocol

  /** One end of `mem_pair`: `inbox` is the queue its `recv` takes from. */
  class MemConnection {
    var inbox: seq<Frame>
    var closed: bool
    var other: MemConnection?

    constructor ()
      ensures inbox == [] && !closed && other == null
    {
      inbox, closed, other := [], false, null;
    }

    /** Neither end is closed. */
    predicate Connected()
      reads this, other
    {
      !closed && other != null && !other.closed
    }

    /** This end as `p` has it: what is left to read, and whether it knows that
        the connection is closed. */
    ghost predicate Is(p: Peer)
      reads this
    {
      p.read <= |p.inbox| && inbox == p.inbox[p.read..] && closed == p.closed
    }

    /** False where the program raises Closed. */
    method Send(f: Frame) returns (sent: bool)
      modifies other
      ensures sent <==> old(Connected())
      ensures sent ==>
                && other != null && other.inbox == old(other.inbox) + [f]
                && other.closed == old(other.closed) && other.other == old(other.other)
      ensures !sent ==> unchanged(this) && (other != null ==> unchanged(other))
      ensures other == old(other) && (other != this ==> unchanged(this))
      ensures sent ==> forall p: Peer | old(other.Is(p)) :: other.Is(Push(p, f))
    {
      if closed || other == null || other.closed {
        return false;
      }
      other.inbox := other.inbox + [f];
      return true;
    }

    /** Waiting for a frame is the precondition: the queue has one, or the
        connection is known to be closed. None where the program raises Closed. */
    method Recv() returns (res: Option<Frame>)
      requires closed || inbox != []
      modifies this
      ensures res.Some? <==> !old(closed) && old(inbox)[0] != End
      ensures res.Some? ==> res.value == old(inbox)[0] && inbox == old(inbox)[1..] && !closed
      ensures res.None? ==> closed
      ensures other == old(other)
      ensures res.Some? ==> forall me: Peer, peer: Peer | old(Is(me)) && me.reader == Reading ::
                Enabled(me, peer, Receive) && Is(Act(me, peer, Receive).0)
      ensures res.None? ==> forall me: Peer, peer: Peer | old(Is(me)) && me.reader == Reading ::
                Enabled(me, peer, SeeClose) && Is(Act(me, peer, SeeClose).0)
    {
      if closed {
        return None;
      }
      var f := inbox[0];
      inbox := inbox[1..];
      if f == End {
        closed := true;
        return None;
      }
      return Some(f);
    }

    /** Closing twice is closing once; both ends are told. */
    method Close()
      requires other != this
      modifies this, other
      ensures closed && other == old(other)
      ensures inbox == if old(closed) then old(inbox) else old(inbox) + [End]
      ensures other != null ==>
                && other.closed == old(other.closed) && other.other == old(other.other)
                && other.inbox == if old(closed) || old(other.closed) then old(other.inbox)
                    else old(other.inbox) + [End]
      ensures forall me: Peer, peer: Peer | old(Is(me)) && Enabled(me, peer, Action.Close) ::
              Is(Act(me, peer, Action.Close).0)
    {
      if closed {
        return;
      }
      closed := true;
      inbox := inbox + [End];
      if other != null && !other.closed {
        other.inbox := other.inbox + [End];
      }
    }
  }

  /** The bodies of a queue, behind them the mark that ends it. */
  function Queued(bodies: seq<Payload>, open: bool): seq<Option<Payload>> {
    seq(|bodies|, i requires 0 <= i < |bodies| => Some(bodies[i])) + if open then [] else [None]
  }

  lemma QueuedRest(bodies: seq<Payload>, open: bool)
    requires Queued(bodies, open) != []
    ensures Queued(bodies, open)[0] == if bodies == [] then None else Some(bodies[0])
    ensures Queued(bodies, open)[1..] == if bodies == [] then [] else Queued(bodies[1..], open)
  {
  }

  /** Why the outbox task is not running any more. */
  datatype Sender = Alive | Done | Dropped

  /** Everything put into an outbox while it is open goes out, in order, before
      it is closed. */
  class Outbox {
    const id: ReqId
    const conn: MemConnection
    var queue: seq<Option<Payload>>
    var open: bool
    var sender: Sender
    ghost var puts: seq<Payload>
    ghost var taken: nat

    constructor (id: ReqId, conn: MemConnection)
      ensures Valid() && this.id == id && this.conn == conn
      ensures open && sender == Alive && puts == [] && taken == 0
    {
      this.id, this.conn := id, conn;
      queue, open, sender, puts, taken := [], true, Alive, [], 0;
      new;
      ValidMeans();
    }

    /** The queue is what was put and not taken, in put order. */
    ghost predicate QueueOk()
      reads this
    {
      && taken <= |puts|
      && (sender.Alive? ==> queue == Queued(puts[taken..], open))
      && (sender.Done? ==> !open && taken == |puts| && queue == [])
      && (sender.Dropped? ==> !open)
    }

    /** The same by name: holders of outboxes need not look inside. */
    ghost predicate Valid()
      reads this
    {
      forall n: nat {:trigger Turns(n)} :: Turns(n) && n == taken ==> QueueOk()
    }

    lemma ValidMeans()
      ensures Valid() <==> QueueOk()
    {
      assert Turns(taken);
    }

    /** This outbox as `h` has it. */
    ghost predicate Is(h: Handler)
      reads this
    {
      && puts == h.puts && taken == h.taken && !h.broken
      && (h.Live() ==> !sender.Dropped? && (open <==> h.phase.Running?))
    }

    method Put(body: Payload) returns (ok: bool)
      requires Valid()
      modifies this
      ensures Valid()
      ensures ok == old(open) && open == old(open) && taken == old(taken)
      ensures puts == if ok then old(puts) + [body] else old(puts)
      ensures ok ==> forall me: Peer, peer: Peer |
                Enabled(me, peer, Action.Put(id, body)) && old(Is(me.handlers[id])) ::
                Is(Act(me, peer, Action.Put(id, body)).0.handlers[id])
    {
      ValidMeans();
      if !open {
        return false;
      }
      queue := queue + [Some(body)];
      puts := puts + [body];
      ValidMeans();
      return true;
    }

    /** One turn of the outbox task: the head of the queue goes out, unless the
        connection is closed; the mark ends the task. */
    method DrainOne()
      requires Valid() && sender.Alive? && queue != []
      modifies this, conn.other
      ensures Valid() && open == old(open) && puts == old(puts) && conn.other == old(conn.other)
      ensures old(taken) == |puts| ==> sender == Done && taken == old(taken) && !open
      ensures old(taken) < |puts| ==> sender == Alive && taken == old(taken) + 1
      ensures old(taken) < |puts| && old(conn.Connected()) ==>
                conn.other.inbox == old(conn.other.inbox) + [Event(id, puts[old(taken)], true)]
      ensures old(taken) == |puts| || !old(conn.Connected()) ==> conn.other != null ==>
              conn.other.inbox == old(conn.other.inbox)
      ensures conn.Connected() == old(conn.Connected())
      ensures forall me: Peer, peer: Peer |
                Enabled(me, peer, Drain(id)) && old(Is(me.handlers[id])) && Open(me, peer) == old(conn.Connected()) ::
                && Is(Act(me, peer, Drain(id)).0.handlers[id])
                && (conn.other != null && old(conn.other.Is(peer)) ==> conn.other.Is(Act(me, peer, Drain(id)).1))
    {
      ValidMeans();
      var head := queue[0];
      QueuedRest(puts[taken..], open);
      queue := queue[1..];
      match head
      case None =>
        sender := Done;
        ValidMeans();
      case Some(body) =>
        taken := taken + 1;
        ValidMeans();
        var sent := conn.Send(Event(id, body, true));
    }

    /** `close`: nothing more is taken, and what is queued goes out first. */
    method Close()
      requires Valid() && !sender.Dropped?
      modifies this, conn.other
      ensures Valid() && !open && sender == Done && puts == old(puts) && old(taken) <= taken == |puts|
      ensures conn.other == old(conn.other) && conn.Connected() == old(conn.Connected())
      ensures conn.Connected() ==> conn.other.inbox == old(conn.other.inbox) + Events(id, puts[old(taken)..])
    {
      ValidMeans();
      if open {
        open := false;
        queue := queue + [None];
      }
      ValidMeans();
      while !sender.Done?
        invariant Valid() && !open && !sender.Dropped? && puts == old(puts) && old(taken) <= taken <= |puts|
        invariant sender.Done? ==> taken == |puts|
        invariant sender.Alive? ==> queue != []
        invariant conn.other == old(conn.other) && conn.Connected() == old(conn.Connected())
        invariant conn.Connected() ==> conn.other.inbox == old(conn.other.inbox) + Events(id, puts[old(taken)..taken])
        decreases |puts| - taken, sender.Alive?
      {
        ghost var n := taken;
        ValidMeans();
        DrainOne();
        ValidMeans();
        assert n < |puts| ==> puts[old(taken)..n + 1] == puts[old(taken)..n] + [puts[n]];
      }
    }

    /** `abort`: what is queued is dropped. */
    method Abort()
      requires Valid()
      modifies this
      ensures Valid() && !open && puts == old(puts) && taken == old(taken) && !sender.Alive?
      ensures forall me: Peer, peer: Peer | Enabled(me, peer, CancelHandler(id)) && old(Is(me.handlers[id])) ::
                Is(Act(me, peer, CancelHandler(id)).0.handlers[id])
    {
      ValidMeans();
      open := false;
      if sender.Alive? {
        sender := Dropped;
      }
      ValidMeans();
    }
  }

  datatype Item = Message(frame: Frame) | Error(error: string) {
    /** A response or a failure: nothing follows it. */
    predicate Ends() {
      Error? || frame.Resp?
    }
  }

  /** Only the last item of a request's history ends it. */
  ghost predicate EndsLast(history: seq<Item>, done: bool) {
    && (forall i | 0 <= i < |history| :: history[i].Ends() ==> i == |history| - 1)
    && (done <==> history != [] && history[|history| - 1].Ends())
  }

  /** One more item at the end of a history that has not ended. */
  lemma QueueGrows(history: seq<Item>, queue: seq<Item>, item: Item)
    requires |queue| <= |history| && queue == history[|history| - |queue|..] && EndsLast(history, false)
    ensures var h, q := history + [item], queue + [item]; q == h[|h| - |q|..] && EndsLast(h, item.Ends())
  {
  }

  /** A request this side sent: everything delivered for it, then its response
      or its one failure. */
  class Request {
    const reqId: ReqId
    var queue: seq<Item>
    var final: Option<Frame>
    var done: bool
    ghost var history: seq<Item>

    constructor (reqId: ReqId)
      ensures Valid() && this.reqId == reqId && history == [] && queue == [] && !done
    {
      this.reqId := reqId;
      queue, final, done, history := [], None, false, [];
      new;
      ValidMeans();
    }

    /** The queue is what is left of the history; the history ends where the
        request is done, and `final` is the response it ends with. */
    ghost predicate QueueOk()
      reads this
    {
      && |queue| <= |history| && queue == history[|history| - |queue|..]
      && EndsLast(history, done)
      && final == if done && history[|history| - 1].Message? then Some(history[|history| - 1].frame) else None
    }

    /** The same by name: holders of requests need not look inside. */
    ghost predicate Valid()
      reads this
    {
      forall n: nat {:trigger Turns(n)} :: Turns(n) && n == |history| ==> QueueOk()
    }

    lemma ValidMeans()
      ensures Valid() <==> QueueOk()
    {
      assert Turns(|history|);
    }

    /** Only the peer calls it, and only while the request is pending. */
    method Deliver(f: Frame)
      requires Valid() && !done
      modifies this
      ensures Valid() && history == old(history) + [Message(f)] && queue == old(queue) + [Message(f)]
      ensures done <==> f.Resp?
    {
      ValidMeans();
      QueueGrows(history, queue, Message(f));
      queue := queue + [Message(f)];
      history := history + [Message(f)];
      if f.Resp? {
        final := Some(f);
        done := true;
      }
      ValidMeans();
    }

    /** A second failure, or one after the response, changes nothing. */
    method Fail(error: string)
      requires Valid()
      modifies this
      ensures Valid() && done
      ensures history == if old(done) then old(history) else old(history) + [Error(error)]
      ensures queue == if old(done) then old(queue) else old(queue) + [Error(error)]
    {
      ValidMeans();
      if !done {
        QueueGrows(history, queue, Error(error));
        queue := queue + [Error(error)];
        history := history + [Error(error)];
        done := true;
      }
      ValidMeans();
    }

    /** One turn of iterating. It has to wait only while the request is not done
        and nothing is queued; it yields the history in order, raises the
        failure, and stops behind the response. */
    method Next() returns (res: Result<Option<Frame>, string>)
      requires Valid() && (done || queue != [])
      modifies this`queue
      ensures Valid()
      ensures old(queue) == [] ==> res == Success(None) && queue == []
      ensures old(queue) != [] ==>
                && queue == old(queue)[1..]
                && (old(queue)[0].Message? ==> res == Success(Some(old(queue)[0].frame)))
                && (old(queue)[0].Error? ==> res == Failure(old(queue)[0].error))
    {
      ValidMeans();
      if queue == [] {
        return Success(None);
      }
      var item := queue[0];
      queue := queue[1..];
      ValidMeans();
      match item
      case Message(f) => return Success(Some(f));
      case Error(e) => return Failure(e);
    }

    /** Iterating a done request to its end, without waiting once: everything
        left of the history, the response last, or the failure raised. */
    method Rest() returns (frames: seq<Frame>, error: Option<string>)
      requires Valid() && done
      modifies this`queue
      ensures Valid() && queue == []
      ensures error.None? ==>
              old(queue) == Messages(frames)
              && (old(queue) != [] ==> final.Some? && frames[|frames| - 1] == final.value)
      ensures error.Some? ==>
              |old(queue)| == |frames| + 1 && old(queue)[..|frames|] == Messages(frames)
              && old(queue)[|frames|] == Error(error.value)
      ensures error.Some? ==> final.None?
    {
      ghost var all := queue;
      frames, error := [], None;
      while queue != []
        invariant Valid() && done && |frames| <= |all| && queue == all[|frames|..]
                  && all[..|frames|] == Messages(frames)
        invariant queue == [] && frames != [] ==> final == Some(frames[|frames| - 1])
        decreases |queue|
      {
        var item := queue[0];
        ValidMeans();
        assert item == history[|history| - |queue|];
        var res := Next();
        if res.Failure? {
          error := Some(res.error);
          assert queue == [] && item == all[|frames|];
          return;
        }
        MessagesOneMore(all, frames);
        frames := frames + [item.frame];
      }
    }

    /** `wait`, once done: the response, else the failure, which is the last
        thing queued; a failure already taken by an iteration is reported as
        "no response". */
    method Wait() returns (res: Result<Frame, string>)
      requires Valid() && done
      modifies this`queue
      ensures Valid()
      ensures final.Some? ==> res == Success(final.value) && queue == old(queue)
      ensures QueueOk()
      ensures final.None? ==>
              queue == [] && res == Failure(if old(queue) == [] then "no response" else history[|history| - 1].error)
    {
      ValidMeans();
      if final.Some? {
        return Success(final.value);
      }
      while queue != []
        invariant Valid() && QueueOk() && (queue == [] <==> old(queue) == [])
                  && (queue != [] ==> history[|history| - 1].Error?)
        decreases |queue|
      {
        var item := queue[0];
        queue := queue[1..];
        ValidMeans();
        if item.Error? {
          return Failure(item.error);
        }
      }
      return Failure("no response");
    }
  }

  /** One side: the requests it waits for and the outboxes of those it handles.
      `unclaimed` is what its event callback was given. */
  class LivePeer {
    const conn: MemConnection
    var pending: map<ReqId, Request>
    var handlers: map<ReqId, Outbox>
    var unclaimed: seq<Frame>

    constructor (conn: MemConnection)
      ensures Valid() && this.conn == conn && pending == map[] && handlers == map[] && unclaimed == []
    {
      this.conn := conn;
      pending, handlers, unclaimed := map[], map[], [];
    }

    /** A pending request is under its own id and not done. */
    ghost predicate PendingOk()
      reads `pending, pending.Values
    {
      forall id | id in pending :: pending[id].reqId == id && pending[id].Valid() && !pending[id].done
    }

    ghost predicate HandlersOk()
      reads `handlers, handlers.Values
    {
      forall id | id in handlers :: handlers[id].id == id && handlers[id].conn == conn && handlers[id].Valid()
    }

    ghost predicate Valid()
      reads this, pending.Values, handlers.Values
    {
      PendingOk() && HandlersOk()
    }

    /** This side as `me` has it: a request waits for what it got, an outbox
        stands where its handler does. */
    ghost predicate Is(me: Peer)
      reads `pending, `handlers, pending.Values, handlers.Values
    {
      IsWaiting(me.requests, me.pending) && IsHandling(me.handlers)
    }

    ghost predicate IsWaiting(requests: map<ReqId, Waiting>, waiting: set<ReqId>)
      reads `pending, pending.Values
    {
      && waiting == pending.Keys && waiting <= requests.Keys
      && forall id | id in pending ::
           pending[id].history == Messages(requests[id].delivered) && requests[id].failures == 0
    }

    ghost predicate IsHandling(handled: map<ReqId, Handler>)
      reads `handlers, handlers.Values
    {
      handled.Keys == handlers.Keys && forall id | id in handlers :: handlers[id].Is(handled[id])
    }

    /** The end of `ask`: nothing more is delivered to the request. */
    method Forget(id: ReqId)
      requires PendingOk()
      modifies this`pending
      ensures PendingOk() && pending == old(pending) - {id}
      ensures forall me: Peer, peer: Peer | old(Is(me)) && Enabled(me, peer, GiveUp(id)) ::
                Is(Act(me, peer, GiveUp(id)).0)
    {
      pending := pending - {id};
    }

    /** `request`: the handle is registered before the frame goes out, and taken
        back when it cannot go out. */
    method SendRequest(id: ReqId) returns (request: Request, sent: bool)
      requires PendingOk() && id !in pending
      modifies this`pending, conn.other
      ensures PendingOk()
      ensures sent <==> old(conn.Connected())
      ensures sent ==>
                && fresh(request) && pending == old(pending)[id := request] && request.history == []
                && conn.other != null && conn.other.inbox == old(conn.other.inbox) + [Req(id)]
      ensures !sent ==> pending == old(pending)
      ensures !sent && old(conn.other) != null ==> old(conn.other).inbox == old(conn.other.inbox)
      ensures sent ==> forall me: Peer, peer: Peer | old(Is(me)) && Enabled(me, peer, Action.SendRequest(id)) ::
                Is(Act(me, peer, Action.SendRequest(id)).0)
    {
      request := new Request(id);
      pending := pending[id := request];
      sent := conn.Send(Req(id));
      if !sent {
        pending := pending - {id};
      }
    }

    /** A request starts a handler, with an outbox of its own. */
    method StartHandler(id: ReqId)
      requires Valid() && id !in handlers
      modifies `handlers
      ensures Valid() && id in handlers && fresh(handlers[id]) && handlers[id].puts == []
              && handlers == old(handlers)[id := handlers[id]]
      ensures forall me: Peer | old(Is(me)) :: Is(Dispatch(me, Req(id)))
    {
      var outbox := new Outbox(id, conn);
      handlers := handlers[id := outbox];
    }

    /** The request that `f` names gets it; a response ends it. */
    method DeliverPending(f: Frame)
      requires PendingOk() && (f.Event? || f.Resp?) && f.id in pending
      modifies `pending, pending.Values
      ensures PendingOk()
      ensures pending == if f.Resp? then old(pending) - {f.id} else old(pending)
      ensures forall id | id in old(pending) ::
                old(pending)[id].history == old(pending[id].history) + if id == f.id then [Message(f)] else []
    {
      pending[f.id].Deliver(f);
      if f.Resp? {
        pending := pending - {f.id};
      }
    }

    /** An event or a response goes to the pending request it names, which a
        response ends; what names none goes to the event callback. */
    method TakeAnswer(f: Frame)
      requires Valid() && (f.Event? || f.Resp?)
      modifies `pending, `unclaimed, pending.Values
      ensures Valid() && handlers == old(handlers)
      ensures f.id in old(pending) ==>
                && unclaimed == old(unclaimed)
                && old(pending)[f.id].history == old(pending[f.id].history) + [Message(f)]
                && pending == if f.Resp? then old(pending) - {f.id} else old(pending)
      ensures f.id !in old(pending) ==> pending == old(pending) && unclaimed == old(unclaimed) + [f]
      ensures forall id | id in old(pending) && id != f.id :: old(pending)[id].history == old(pending[id].history)
      ensures forall me: Peer | old(Is(me)) :: Is(Dispatch(me, f))
    {
      if f.id in pending {
        DeliverPending(f);
      } else {
        unclaimed := unclaimed + [f];
      }
      forall me: Peer | old(Is(me)) ensures Is(Dispatch(me, f)) {
        AnswerDispatched(me, f);
      }
    }

    /** `_receive`: a request is handled, anything else is an answer. */
    method Receive(f: Frame)
      requires Valid() && f != End && (f.Req? ==> f.id !in handlers)
      modifies this, pending.Values
      ensures Valid()
      ensures f.Req? ==>
                && f.id in handlers && fresh(handlers[f.id]) && handlers[f.id].puts == []
                && handlers == old(handlers)[f.id := handlers[f.id]]
                && pending == old(pending) && unclaimed == old(unclaimed)
      ensures !f.Req? ==> handlers == old(handlers)
      ensures !f.Req? && f.id in old(pending) ==>
                && unclaimed == old(unclaimed)
                && old(pending)[f.id].history == old(pending[f.id].history) + [Message(f)]
                && pending == if f.Resp? then old(pending) - {f.id} else old(pending)
      ensures !f.Req? && f.id !in old(pending) ==> pending == old(pending) && unclaimed == old(unclaimed) + [f]
      ensures forall id | id in old(pending) && (f.Req? || id != f.id) ::
                old(pending)[id].history == old(pending[id].history)
      ensures forall me: Peer | old(Is(me)) :: Is(Dispatch(me, f))
    {
      if f.Req? {
        StartHandler(f.id);
      } else {
        TakeAnswer(f);
      }
    }

    /** The end of the reader loop, once the cancelled handlers have ended: their
        outboxes are dropped, and every pending request fails, once. */
    method Shutdown(error: string)
      requires Valid()
      modifies `pending, pending.Values, handlers.Values
      ensures pending == map[] && handlers == old(handlers)
      ensures forall id | id in handlers :: !handlers[id].sender.Alive?
      ensures forall id | id in old(pending) ::
                old(pending)[id].done && old(pending)[id].history == old(pending[id].history) + [Error(error)]
      ensures forall me: Peer, peer: Peer | old(Is(me)) && Enabled(me, peer, Finish) :: Is(Act(me, peer, Finish).0)
    {
      AbortAll();
      assert PendingOk();
      FailAll(error);
      pending := map[];
      forall me: Peer, peer: Peer | old(Is(me)) && Enabled(me, peer, Finish) ensures Is(Act(me, peer, Finish).0) {
        FinishIs(me, peer);
      }
    }

    method AbortAll()
      requires HandlersOk()
      modifies handlers.Values
      ensures HandlersOk()
      ensures forall id | id in handlers :: !handlers[id].sender.Alive?
      ensures forall id | id in handlers ::
                handlers[id].puts == old(handlers[id].puts) && handlers[id].taken == old(handlers[id].taken)
      ensures forall handled | old(IsHandling(handled)) && NoneLive(handled) :: IsHandling(handled)
    {
      var todo := handlers.Keys;
      while todo != {}
        invariant HandlersOk() && todo <= handlers.Keys
        invariant forall id | id in handlers && id !in todo :: !handlers[id].sender.Alive?
        invariant forall id | id in handlers ::
                    handlers[id].puts == old(handlers[id].puts) && handlers[id].taken == old(handlers[id].taken)
        decreases todo
      {
        var id :| id in todo;
        handlers[id].Abort();
        todo := todo - {id};
      }
    }

    method FailAll(error: string)
      requires PendingOk()
      modifies pending.Values
      ensures forall id | id in pending ::
              pending[id].done && pending[id].history == old(pending[id].history) + [Error(error)]
    {
      var todo := pending.Keys;
      while todo != {}
        invariant todo <= pending.Keys
        invariant forall id | id in pending :: pending[id].reqId == id
        invariant forall id | id in todo :: unchanged(pending[id])
        invariant forall id | id in pending && id !in todo ::
                    pending[id].done && pending[id].history == old(pending[id].history) + [Error(error)]
        decreases todo
      {
        var id :| id in todo;
        label before:
        pending[id].Fail(error);
        assert forall other | other in pending && other != id ::
            pending[other] != pending[id] && unchanged@before(pending[other]);
        todo := todo - {id};
      }
    }
  }

  /** What `Dispatch` makes of an event or a response. */
  lemma AnswerDispatched(me: Peer, f: Frame)
    requires f.Event? || f.Resp?
    ensures var d := Dispatch(me, f);
            && d.handlers == me.handlers && d.requests.Keys == me.requests.Keys
            && d.pending == (if f.Resp? && f.id in me.requests then me.pending - {f.id} else me.pending)
            && forall id | id in me.requests ::
                 && d.requests[id].failures == me.requests[id].failures
                 && Messages(d.requests[id].delivered) ==
                      Messages(me.requests[id].delivered)
                      + if id == f.id && f.id in me.pending then [Message(f)] else []
  {
    if f.id in me.requests {
      MessagesAppend(me.requests[f.id].delivered, f);
    }
  }

  lemma MessagesAppend(frames: seq<Frame>, f: Frame)
    ensures Messages(frames + [f]) == Messages(frames) + [Message(f)]
  {
  }

  lemma FinishIs(me: Peer, peer: Peer)
    requires Enabled(me, peer, Finish)
    ensures var d := Act(me, peer, Finish).0; d.pending == {} && d.handlers == me.handlers && NoneLive(d.handlers)
  {
  }

  ghost predicate NoneLive(handled: map<ReqId, Handler>) {
    forall id | id in handled :: !handled[id].Live()
  }

  function Messages(frames: seq<Frame>): seq<Item> {
    seq(|frames|, i requires 0 <= i < |frames| => Message(frames[i]))
  }

  lemma MessagesOneMore(all: seq<Item>, frames: seq<Frame>)
    requires |frames| < |all| && all[..|frames|] == Messages(frames) && all[|frames|].Message?
    ensures all[..|frames| + 1] == Messages(frames + [all[|frames|].frame])
  {
    assert all[..|frames| + 1] == all[..|frames|] + [all[|frames|]];
  }
}
