/** What the protocol of PeerProtocol keeps over whole runs, whatever the two
    sides do and in whatever order. */
module PeerRuns {
  import opened Common
  import opened PeerProtocol

  datatype State = State(a: Peer, b: Peer)

  datatype Step = Step(byA: bool, act: Action)

  const START := State(NEW_PEER, NEW_PEER)

  predicate CanTake(s: State, step: Step) {
    if step.byA then Enabled(s.a, s.b, step.act) else Enabled(s.b, s.a, step.act)
  }

  function Take(s: State, step: Step): State
    requires CanTake(s, step)
  {
    if step.byA then
      var (a, b) := Act(s.a, s.b, step.act);
      State(a, b)
    else
      var (b, a) := Act(s.b, s.a, step.act);
      State(a, b)
  }

  /** `steps` is a run from `s`. */
  predicate Runs(s: State, steps: seq<Step>)
    decreases steps
  {
    steps == [] || (CanTake(s, steps[0]) && Runs(Take(s, steps[0]), steps[1..]))
  }

  function After(s: State, steps: seq<Step>): State
    requires Runs(s, steps)
    decreases steps
  {
    if steps == [] then s else After(Take(s, steps[0]), steps[1..])
  }

  /** The two sides seen from the one that asked. */
  function Client(s: State, asA: bool): Peer {
    if asA then s.a else s.b
  }

  function Server(s: State, asA: bool): Peer {
    Client(s, !asA)
  }

  ghost predicate Both(s: State, id: ReqId) {
    Conversation(s.a, s.b, id) && Conversation(s.b, s.a, id)
  }

  lemma {:induction false} RunKeeps(s: State, steps: seq<Step>, id: ReqId)
    requires Both(s, id) && Runs(s, steps)
    ensures Both(After(s, steps), id)
    decreases steps
  {
    if steps != [] {
      if steps[0].byA {
        ActKeeps(s.a, s.b, steps[0].act, id);
      } else {
        ActKeeps(s.b, s.a, steps[0].act, id);
      }
      RunKeeps(Take(s, steps[0]), steps[1..], id);
    }
  }

  /** The invariant holds in every reachable state, for every request. */
  lemma Reachable(steps: seq<Step>, asA: bool, id: ReqId)
    requires Runs(START, steps)
    ensures var s := After(START, steps); Conversation(Client(s, asA), Server(s, asA), id)
  {
    RunKeeps(START, steps, id);
  }

  // ---------------------------------------------------------------------
  // Conservation
  // ---------------------------------------------------------------------

  function Responses(frames: seq<Frame>, id: ReqId): nat {
    if frames == [] then 0
    else Responses(frames[..|frames| - 1], id) + if frames[|frames| - 1].Resp? && frames[|frames| - 1].id == id
        then 1 else 0
  }

  lemma {:induction false} CountsAdd(x: seq<Frame>, y: seq<Frame>, id: ReqId)
    ensures Asked(x + y, id) == Asked(x, id) + Asked(y, id)
    ensures Responses(x + y, id) == Responses(x, id) + Responses(y, id)
  {
    if y == [] {
      assert x + y == x;
    } else {
      CountsAdd(x, y[..|y| - 1], id);
      assert (x + y)[..|x + y| - 1] == x + y[..|y| - 1];
    }
  }

  lemma {:induction false} AnswerKeepsResponses(frames: seq<Frame>, id: ReqId)
    ensures Responses(Answer(frames, id), id) == Responses(frames, id)
  {
    if frames != [] {
      AnswerKeepsResponses(frames[..|frames| - 1], id);
      CountsAdd(Answer(frames[..|frames| - 1], id), [frames[|frames| - 1]], id);
    }
  }

  lemma {:induction false} ResponsesSeen(frames: seq<Frame>, id: ReqId)
    ensures Responses(frames, id) > 0 <==> HasResponse(frames, id)
  {
    if frames != [] {
      var last := frames[|frames| - 1];
      ResponsesSeen(frames[..|frames| - 1], id);
      assert frames == frames[..|frames| - 1] + [last];
      if last.Resp? && last.id == id {
        assert Resp(id, last.body) in frames;
      }
    }
  }

  /** One response was sent if the handler responded, none otherwise. */
  lemma ResponsesSent(client: Peer, server: Peer, id: ReqId)
    requires Conversation(client, server, id)
    ensures Responses(client.inbox, id) == if id in server.handlers && server.handlers[id].phase.Responded? then 1
            else 0
  {
    AnswerKeepsResponses(client.inbox, id);
    if id in server.handlers {
      SentResponses(id, server.handlers[id]);
    }
  }

  lemma SentResponses(id: ReqId, h: Handler)
    requires h.sent <= |h.puts|
    ensures Responses(Sent(id, h), id) == if h.phase.Responded? then 1 else 0
  {
    var events := Events(id, h.puts[..h.sent]);
    var last := if h.phase.Responded? then [Resp(id, h.phase.body)] else [];
    ResponsesSeen(events, id);
    CountsAdd(events, last, id);
    assert h.phase.Responded? ==> last[..|last| - 1] == [];
  }

  /** The handler of `id` ended without a response: it let a Closed or a
      CancelledError out, its outbox was broken, it was cancelled when its side's
      reader ended, or the connection closed before it could respond. */
  predicate Lost(server: Peer, id: ReqId) {
    id in server.handlers && (server.handlers[id].phase.Abandoned? || server.handlers[id].phase.Cancelled?)
  }

  /** How many places hold a request: on the wire out, in a live handler, as a
      response on the wire back. */
  function Places(client: Peer, server: Peer, id: ReqId): nat
    requires client.read <= |client.inbox| && server.read <= |server.inbox|
  {
    Asked(server.inbox[server.read..], id)
    + (if IsLive(server, id) then 1 else 0)
    + Responses(client.inbox[client.read..], id)
  }

  lemma PlacesOfPending(client: Peer, server: Peer, id: ReqId)
    requires Conversation(client, server, id) && id in client.pending
    ensures Places(client, server, id) == if Lost(server, id) then 0 else 1
  {
    assert server.inbox == server.inbox[..server.read] + server.inbox[server.read..];
    CountsAdd(server.inbox[..server.read], server.inbox[server.read..], id);
    assert client.inbox == client.inbox[..client.read] + client.inbox[client.read..];
    CountsAdd(client.inbox[..client.read], client.inbox[client.read..], id);
    ResponsesSent(client, server, id);
    ResponsesSeen(client.inbox[..client.read], id);
  }

  /** Conservation: in every reachable state a pending request is in exactly one
      place, unless its handler ended without a response; then it is in none. */
  lemma PendingIsInOnePlace(steps: seq<Step>, asA: bool, id: ReqId)
    requires Runs(START, steps)
    requires id in Client(After(START, steps), asA).pending
    ensures var s := After(START, steps);
            var client, server := Client(s, asA), Server(s, asA);
            && client.read <= |client.inbox| && server.read <= |server.inbox|
            && Places(client, server, id) == if Lost(server, id) then 0 else 1
  {
    Reachable(steps, asA, id);
    var s := After(START, steps);
    PlacesOfPending(Client(s, asA), Server(s, asA), id);
  }

  // ---------------------------------------------------------------------
  // The answer
  // ---------------------------------------------------------------------

  /** Outbox order: what was sent for a request, then what is still queued, is
      what was put, in put order; a response is sent last, once, when nothing is
      queued; and a handler that ended without one sent a beginning. */
  lemma OutboxOrder(steps: seq<Step>, asA: bool, id: ReqId)
    requires Runs(START, steps) && id in Server(After(START, steps), asA).handlers
    ensures var s := After(START, steps);
            var client, server := Client(s, asA), Server(s, asA);
            var h := server.handlers[id];
            && h.taken <= |h.puts|
            && (Open(client, server) && !h.phase.Responded? ==>
                  Answer(client.inbox, id) + Events(id, h.puts[h.taken..]) == Events(id, h.puts))
            && (h.phase.Responded? ==> Answer(client.inbox, id) == Events(id, h.puts) + [Resp(id, h.phase.body)])
            && (!h.phase.Responded? ==> Answer(client.inbox, id) <= Events(id, h.puts))
  {
    Reachable(steps, asA, id);
    var s := After(START, steps);
    var h := Server(s, asA).handlers[id];
    if h.phase.Responded? {
      assert h.puts[..h.sent] == h.puts;
    }
  }

  /** A response delivered to a request is the one its own handler returned, and
      what was delivered before it is everything that handler put, in order. */
  lemma ResponseIsComplete(steps: seq<Step>, asA: bool, id: ReqId, to: ReqId, body: Payload)
    requires Runs(START, steps)
    requires var client := Client(After(START, steps), asA);
             to in client.requests && Resp(id, body) in client.requests[to].delivered
    ensures id == to
    ensures var s := After(START, steps);
            var client, server := Client(s, asA), Server(s, asA);
            && id in server.handlers && server.handlers[id].phase == Responded(body)
            && Answer(client.requests[id].delivered, id) == Events(id, server.handlers[id].puts) + [Resp(id, body)]
  {
    Reachable(steps, asA, to);
    var s := After(START, steps);
    var client, server := Client(s, asA), Server(s, asA);
    var w := client.requests[id];
    AnswerHasResponse(w.delivered, id, body);
    AnswerGrows(client.inbox, client.read, id);
    var got := Answer(w.delivered, id);
    assert got <= Answer(client.inbox, id);
    assert Resp(id, body) in Answer(client.inbox, id);
    var h := server.handlers[id];
    assert h.puts[..h.sent] == h.puts;
    var k :| 0 <= k < |got| && got[k] == Resp(id, body);
    assert Answer(client.inbox, id)[k] == Resp(id, body);
    assert k == |h.puts|;
  }

  // ---------------------------------------------------------------------
  // Ends
  // ---------------------------------------------------------------------

  /** A request nobody waits for any more is never touched again. */
  lemma ActIsSilent(me: Peer, peer: Peer, act: Action, id: ReqId)
    requires Enabled(me, peer, act)
    ensures var (me', peer') := Act(me, peer, act);
            && (id in me.requests && id !in me.pending ==>
                id in me'.requests && id !in me'.pending && me'.requests[id] == me.requests[id])
            && peer'.requests == peer.requests && peer'.pending == peer.pending
  {
  }

  /** After its `ask` timed out, after its response and after its failure, a
      request gets nothing more: not over any run. */
  lemma {:induction false} EndedIsSilent(s: State, steps: seq<Step>, asA: bool, id: ReqId)
    requires Runs(s, steps) && id in Client(s, asA).requests && id !in Client(s, asA).pending
    ensures var client := Client(After(s, steps), asA);
            id in client.requests && id !in client.pending && client.requests[id] == Client(s, asA).requests[id]
    decreases steps
  {
    if steps != [] {
      if steps[0].byA {
        ActIsSilent(s.a, s.b, steps[0].act, id);
      } else {
        ActIsSilent(s.b, s.a, steps[0].act, id);
      }
      EndedIsSilent(Take(s, steps[0]), steps[1..], asA, id);
    }
  }

  /** Every request ends at most once: while it is pending nothing ended it, and
      afterwards exactly one of these did: its response, its one failure, its
      `ask` giving up. */
  lemma EndsOnce(steps: seq<Step>, asA: bool, id: ReqId)
    requires Runs(START, steps) && id in Client(After(START, steps), asA).requests
    ensures var client := Client(After(START, steps), asA);
            var w := client.requests[id];
            && w.failures <= 1
            && (id in client.pending <==> !HasResponse(w.delivered, id) && w.failures == 0 && !w.givenUp)
            && (HasResponse(w.delivered, id) ==> w.failures == 0 && !w.givenUp)
            && (w.failures == 1 ==> !w.givenUp)
  {
    Reachable(steps, asA, id);
    var client := Client(After(START, steps), asA);
    if id in client.pending {
      DeliveredResponse(client.requests[id], id, client.inbox[..client.read]);
    }
  }

  /** Shutdown: when the reader loop has ended every handler has, every request
      that was pending failed, once, and no other was touched. */
  lemma FinishFailsPending(steps: seq<Step>, byA: bool, id: ReqId)
    requires Runs(START, steps) && CanTake(After(START, steps), Step(byA, Finish))
    ensures var before := Client(After(START, steps), byA);
            var after := Client(Take(After(START, steps), Step(byA, Finish)), byA);
            && after.pending == {}
            && (forall id | id in after.handlers :: !after.handlers[id].Live())
            && (id in before.requests ==>
                  && id in after.requests
                  && after.requests[id].delivered == before.requests[id].delivered
                  && (id in before.pending ==> before.requests[id].failures == 0 && after.requests[id].failures == 1)
                  && (id !in before.pending ==> after.requests[id] == before.requests[id]))
  {
    Reachable(steps, byA, id);
  }

  /** A reader that ended because the connection closed leaves nothing pending,
      and nothing becomes pending later; no handler is alive. */
  lemma ClosedReaderLeavesNothing(steps: seq<Step>, asA: bool, id: ReqId)
    requires Runs(START, steps)
    ensures var s := After(START, steps);
            && (Client(s, asA).reader == Stopped(true) ==> id !in Client(s, asA).pending)
            && (Server(s, asA).reader.Stopped? ==> !IsLive(Server(s, asA), id))
  {
    Reachable(steps, asA, id);
  }

  // ---------------------------------------------------------------------
  // Lost answers
  // ---------------------------------------------------------------------

  lemma ActKeepsLost(me: Peer, peer: Peer, act: Action, id: ReqId)
    requires Conversation(me, peer, id) && Conversation(peer, me, id) && Enabled(me, peer, act)
    ensures var (me', peer') := Act(me, peer, act);
            && (Lost(me, id) ==> Lost(me', id)) && (Lost(peer, id) ==> Lost(peer', id))
  {
    if act == Receive {
      ReceiveKeepsHandler(me, peer, id);
    }
  }

  /** Reading starts no second handler of a request. */
  lemma ReceiveKeepsHandler(me: Peer, peer: Peer, id: ReqId)
    requires Served(peer, me, id) && Enabled(me, peer, Receive)
    ensures var me' := Act(me, peer, Receive).0;
            id in me.handlers ==> id in me'.handlers && me'.handlers[id] == me.handlers[id]
    ensures var me' := Act(me, peer, Receive).0;
            id !in me.handlers && id in me'.handlers ==> me'.handlers[id].phase == Running
  {
    ReadOneMore(me.inbox, me.read, id);
    AskedGrows(me.inbox, me.read + 1, id);
  }

  /** A request whose handler ended without a response is never answered. */
  lemma {:induction false} LostStaysLost(s: State, steps: seq<Step>, asA: bool, id: ReqId)
    requires Both(s, id) && Runs(s, steps) && Lost(Server(s, asA), id)
    ensures Lost(Server(After(s, steps), asA), id)
    ensures !HasResponse(Client(After(s, steps), asA).inbox, id)
    decreases steps
  {
    if steps == [] {
      var client, server := Client(s, asA), Server(s, asA);
      forall b ensures Resp(id, b) !in client.inbox {
        AnswerHasResponse(client.inbox, id, b);
      }
    } else {
      if steps[0].byA {
        ActKeeps(s.a, s.b, steps[0].act, id);
        ActKeepsLost(s.a, s.b, steps[0].act, id);
      } else {
        ActKeeps(s.b, s.a, steps[0].act, id);
        ActKeepsLost(s.b, s.a, steps[0].act, id);
      }
      LostStaysLost(Take(s, steps[0]), steps[1..], asA, id);
    }
  }

  /** The three things a handler can do that lose the answer: let a Closed out, or
      a CancelledError, or return after it emitted a body that cannot be encoded. */
  predicate Loses(byA: bool, step: Step, id: ReqId) {
    || step == Step(byA, RaiseClosed(id))
    || step == Step(byA, CancelHandler(id))
    || step == Step(byA, RaiseBroken(id))
  }

  lemma ActLosesIff(me: Peer, peer: Peer, act: Action, id: ReqId)
    requires Conversation(me, peer, id) && Conversation(peer, me, id) && Enabled(me, peer, act)
    requires var (me', peer') := Act(me, peer, act); Open(me', peer')
    ensures var (me', peer') := Act(me, peer, act);
            && Open(me, peer)
            && (Lost(me', id) <==>
                  Lost(me, id) || act == RaiseClosed(id) || act == CancelHandler(id) || act == RaiseBroken(id))
            && (Lost(peer', id) <==> Lost(peer, id))
  {
    if act == Receive {
      ReceiveKeepsHandler(me, peer, id);
    }
  }

  lemma {:induction false} RunLosesIff(s: State, steps: seq<Step>, asA: bool, id: ReqId)
    requires Both(s, id) && Runs(s, steps) && Open(After(s, steps).a, After(s, steps).b)
    ensures Open(s.a, s.b)
    ensures Lost(Server(After(s, steps), asA), id)
       <==> Lost(Server(s, asA), id) || exists i | 0 <= i < |steps| :: Loses(!asA, steps[i], id)
    decreases steps
  {
    if steps != [] {
      var next := Take(s, steps[0]);
      if steps[0].byA {
        ActKeeps(s.a, s.b, steps[0].act, id);
      } else {
        ActKeeps(s.b, s.a, steps[0].act, id);
      }
      RunLosesIff(next, steps[1..], asA, id);
      if steps[0].byA {
        ActLosesIff(s.a, s.b, steps[0].act, id);
      } else {
        ActLosesIff(s.b, s.a, steps[0].act, id);
      }
      FirstOrRest(steps, !asA, id);
    }
  }

  lemma FirstOrRest(steps: seq<Step>, byA: bool, id: ReqId)
    requires steps != []
    ensures (exists i | 0 <= i < |steps| :: Loses(byA, steps[i], id))
       <==> Loses(byA, steps[0], id) || exists i | 0 <= i < |steps[1..]| :: Loses(byA, steps[1..][i], id)
  {
    forall i | 0 <= i < |steps[1..]| ensures steps[1..][i] == steps[i + 1] {
    }
    if i :| 1 <= i < |steps| && Loses(byA, steps[i], id) {
      assert steps[1..][i - 1] == steps[i];
    }
    if i :| 0 <= i < |steps[1..]| && Loses(byA, steps[1..][i], id) {
      assert Loses(byA, steps[i + 1], id);
    }
  }

  /** The exact condition: in every reachable state with nothing closed, a
      pending request is in exactly one place, unless its handler let a Closed
      or a CancelledError out, or returned after emitting a body that cannot be
      encoded; then it is in none, and stays unanswered. */
  lemma PendingIsSomewhereIff(steps: seq<Step>, asA: bool, id: ReqId)
    requires Runs(START, steps)
    requires var s := After(START, steps); Open(s.a, s.b) && id in Client(s, asA).pending
    ensures var s := After(START, steps);
            var client, server := Client(s, asA), Server(s, asA);
            && client.read <= |client.inbox| && server.read <= |server.inbox|
            && Places(client, server, id) == if exists i | 0 <= i < |steps| :: Loses(!asA, steps[i], id) then 0 else 1
  {
    PendingIsInOnePlace(steps, asA, id);
    RunLosesIff(START, steps, asA, id);
  }

  /** A handler whose outbox met a body it could not encode never answers, though
      it may still be at work. */
  lemma {:induction false} BrokenNeverAnswers(s: State, steps: seq<Step>, asA: bool, id: ReqId)
    requires Both(s, id) && Runs(s, steps)
    requires id in Server(s, asA).handlers && Server(s, asA).handlers[id].broken
    ensures var server := Server(After(s, steps), asA); id in server.handlers && server.handlers[id].broken
    ensures !HasResponse(Client(After(s, steps), asA).inbox, id)
    decreases steps
  {
    if steps == [] {
      ResponsesSent(Client(s, asA), Server(s, asA), id);
      ResponsesSeen(Client(s, asA).inbox, id);
    } else {
      var next := Take(s, steps[0]);
      if steps[0].byA {
        ActKeeps(s.a, s.b, steps[0].act, id);
        ActKeepsBroken(s.a, s.b, steps[0].act, id);
      } else {
        ActKeeps(s.b, s.a, steps[0].act, id);
        ActKeepsBroken(s.b, s.a, steps[0].act, id);
      }
      BrokenNeverAnswers(next, steps[1..], asA, id);
    }
  }

  lemma ActKeepsBroken(me: Peer, peer: Peer, act: Action, id: ReqId)
    requires Conversation(me, peer, id) && Conversation(peer, me, id) && Enabled(me, peer, act)
    ensures var (me', peer') := Act(me, peer, act);
            && (id in me.handlers && me.handlers[id].broken ==> id in me'.handlers && me'.handlers[id].broken)
            && (id in peer.handlers && peer.handlers[id].broken ==> id in peer'.handlers && peer'.handlers[id].broken)
  {
    if act == Receive {
      ReceiveKeepsHandler(me, peer, id);
    }
  }

  /** "Always answered" is false of the code with nothing closed: a handler that
      lets a Closed of some other connection out is taken for one whose own
      connection closed, and its request is pending for good. */
  lemma ForeignClosedLosesTheAnswer() returns (steps: seq<Step>)
    ensures Runs(START, steps)
    ensures var s := After(START, steps);
            Open(s.a, s.b) && 0 in s.a.pending && Lost(s.b, 0) && s.a.reader == s.b.reader == Reading
  {
    var s0 := START;
    var s1 := Take(s0, Step(true, SendRequest(0)));
    assert s1.b.inbox == [Req(0)];
    var s2 := Take(s1, Step(false, Receive));
    var s3 := Take(s2, Step(false, RaiseClosed(0)));
    assert Runs(s3, []);
    assert Runs(s2, [Step(false, RaiseClosed(0))]);
    assert Runs(s1, [Step(false, Receive), Step(false, RaiseClosed(0))]);
    steps := [Step(true, SendRequest(0)), Step(false, Receive), Step(false, RaiseClosed(0))];
    assert steps[1..] == [Step(false, Receive), Step(false, RaiseClosed(0))];
  }

  /** Nor is a request whose handler emits a body that cannot be encoded. */
  lemma BrokenLosesTheAnswer(body: Payload) returns (steps: seq<Step>)
    ensures Runs(START, steps)
    ensures var s := After(START, steps);
            Open(s.a, s.b) && 0 in s.a.pending && Lost(s.b, 0) && s.a.reader == s.b.reader == Reading
  {
    var s1 := Take(START, Step(true, SendRequest(0)));
    assert s1.b.inbox == [Req(0)];
    var s2 := Take(s1, Step(false, Receive));
    var s3 := Take(s2, Step(false, Put(0, body)));
    var s4 := Take(s3, Step(false, Break(0)));
    var s5 := Take(s4, Step(false, Return(0, body)));
    var s6 := Take(s5, Step(false, RaiseBroken(0)));
    steps := [];
    steps := OneEarlier(s5, Step(false, RaiseBroken(0)), steps);
    steps := OneEarlier(s4, Step(false, Return(0, body)), steps);
    steps := OneEarlier(s3, Step(false, Break(0)), steps);
    steps := OneEarlier(s2, Step(false, Put(0, body)), steps);
    steps := OneEarlier(s1, Step(false, Receive), steps);
    steps := OneEarlier(START, Step(true, SendRequest(0)), steps);
  }

  /** A run with a step before it. */
  lemma OneEarlier(s: State, step: Step, steps: seq<Step>) returns (all: seq<Step>)
    requires CanTake(s, step) && Runs(Take(s, step), steps)
    ensures Runs(s, all) && After(s, all) == After(Take(s, step), steps)
  {
    all := [step] + steps;
    assert all[1..] == steps;
  }
}
