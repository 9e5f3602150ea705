/** What the two peers can still do: a pending request can be answered unless its
    handler lost the answer, and every side can be shut down. */
module PeerProgress {
  import opened Common
  import opened PeerProtocol
  import opened PeerRuns
  import opened PeerHistory

  // ---------------------------------------------------------------------
  // Runs one after the other
  // ---------------------------------------------------------------------

  /** `steps` lead from `s` to `t`, by name (see `Turns`). */
  ghost predicate Leads(s: State, steps: seq<Step>, t: State) {
    forall n: nat {:trigger Turns(n)} :: Turns(n) && n == |steps| ==> Runs(s, steps) && After(s, steps) == t
  }

  lemma LeadsMeans(s: State, steps: seq<Step>, t: State)
    ensures Leads(s, steps, t) <==> Runs(s, steps) && After(s, steps) == t
  {
    assert Turns(|steps|);
  }

  lemma LeadsFirst(s: State, steps: seq<Step>, t: State) returns (next: State)
    requires Leads(s, steps, t) && steps != []
    ensures Leads(s, [steps[0]], next) && Leads(next, steps[1..], t)
  {
    LeadsMeans(s, steps, t);
    next := Take(s, steps[0]);
    LeadsMeans(next, steps[1..], t);
    LeadsByOne(s, steps[0], next);
  }

  lemma LeadsByOne(s: State, step: Step, next: State)
    ensures Leads(s, [step], next) <==> CanTake(s, step) && Take(s, step) == next
  {
    LeadsMeans(s, [step], next);
    assert [step][1..] == [];
  }

  lemma LeadsBefore(s: State, step: Step, next: State, steps: seq<Step>, t: State)
    requires Leads(s, [step], next) && Leads(next, steps, t)
    ensures Leads(s, [step] + steps, t)
  {
    LeadsByOne(s, step, next);
    LeadsMeans(next, steps, t);
    LeadsMeans(s, [step] + steps, t);
    assert ([step] + steps)[1..] == steps;
  }

  lemma LeadsNowhere(s: State, t: State)
    requires Leads(s, [], t)
    ensures s == t
  {
    LeadsMeans(s, [], t);
  }

  lemma {:induction false} LeadsOn(s: State, first: seq<Step>, t: State, more: seq<Step>, u: State)
    requires Leads(s, first, t) && Leads(t, more, u)
    ensures Leads(s, first + more, u)
    decreases |first|
  {
    if first == [] {
      LeadsNowhere(s, t);
      assert first + more == more;
    } else {
      var next := LeadsFirst(s, first, t);
      LeadsOn(next, first[1..], t, more, u);
      LeadsBefore(s, first[0], next, first[1..] + more, u);
      assert first + more == [first[0]] + (first[1..] + more);
    }
  }

  lemma RunsAppend(s: State, first: seq<Step>, more: seq<Step>)
    requires Runs(s, first) && Runs(After(s, first), more)
    ensures Runs(s, first + more) && After(s, first + more) == After(After(s, first), more)
  {
    var t := After(s, first);
    var u := After(t, more);
    LeadsMeans(s, first, t);
    LeadsMeans(t, more, u);
    LeadsOn(s, first, t, more, u);
    LeadsMeans(s, first + more, u);
  }

  /** One step of one side, seen from that side. */
  lemma StepOf(s: State, byA: bool, act: Action, id: ReqId) returns (steps: seq<Step>)
    requires Both(s, id) && Enabled(Client(s, byA), Server(s, byA), act)
    ensures Runs(s, steps)
    ensures var t := After(s, steps);
            Both(t, id) && (Client(t, byA), Server(t, byA)) == Act(Client(s, byA), Server(s, byA), act)
  {
    steps := OneEarlier(s, Step(byA, act), []);
    StepKeeps(s, Step(byA, act), id);
  }

  // ---------------------------------------------------------------------
  // The connection shows no end before it is closed
  // ---------------------------------------------------------------------

  ghost predicate NoEnd(s: State) {
    Open(s.a, s.b) ==> End !in s.a.inbox && End !in s.b.inbox
  }

  lemma StepKeepsNoEnd(s: State, step: Step)
    requires NoEnd(s) && CanTake(s, step)
    ensures NoEnd(Take(s, step))
  {
    if step.byA {
      ActPushes(s.a, s.b, step.act);
    } else {
      ActPushes(s.b, s.a, step.act);
    }
  }

  lemma {:induction false} RunKeepsNoEnd(s: State, steps: seq<Step>)
    requires NoEnd(s) && Runs(s, steps)
    ensures NoEnd(After(s, steps))
    decreases steps
  {
    if steps != [] {
      StepKeepsNoEnd(s, steps[0]);
      RunKeepsNoEnd(Take(s, steps[0]), steps[1..]);
    }
  }

  // ---------------------------------------------------------------------
  // One side reads all it has
  // ---------------------------------------------------------------------

  const NEW_HANDLER := Handler([], 0, 0, Running, false)

  /** What reading leaves as it is, for request `id`. */
  ghost predicate OnlyRead(me: Peer, me': Peer, id: ReqId) {
    && me'.inbox == me.inbox && me'.reader == me.reader && me'.closed == me.closed
    && (HandlerOf(me', id) == HandlerOf(me, id)
        || (HandlerOf(me, id) == None && HandlerOf(me', id) == Some(NEW_HANDLER)))
    && (id in me.requests ==>
          id in me'.requests && me'.requests[id].failures == me.requests[id].failures
          && me'.requests[id].givenUp == me.requests[id].givenUp)
  }

  lemma ReceivesOnly(me: Peer, peer: Peer, id: ReqId)
    requires Conversation(peer, me, id) && Enabled(me, peer, Receive)
    ensures var (me', peer') := Act(me, peer, Receive);
            peer' == peer && OnlyRead(me, me', id) && me'.read == me.read + 1
  {
    StartsOnce(me, peer, id);
  }

  lemma ReadOne(s: State, byA: bool, id: ReqId) returns (steps: seq<Step>)
    requires Both(s, id) && Client(s, byA).reader == Reading && End !in Client(s, byA).inbox
    requires Client(s, byA).read < |Client(s, byA).inbox|
    ensures Runs(s, steps)
    ensures var t := After(s, steps);
            && Both(t, id) && Server(t, byA) == Server(s, byA) && OnlyRead(Client(s, byA), Client(t, byA), id)
            && Client(t, byA).read == Client(s, byA).read + 1
  {
    var me := Client(s, byA);
    assert me.inbox[me.read] in me.inbox;
    ReceivesOnly(me, Server(s, byA), id);
    steps := StepOf(s, byA, Receive, id);
  }

  lemma {:induction false} ReadAll(s: State, byA: bool, id: ReqId) returns (steps: seq<Step>)
    requires Both(s, id) && Client(s, byA).reader == Reading && End !in Client(s, byA).inbox
    ensures Runs(s, steps)
    ensures var t := After(s, steps);
            && Both(t, id) && Server(t, byA) == Server(s, byA) && OnlyRead(Client(s, byA), Client(t, byA), id)
            && Client(t, byA).read == |Client(t, byA).inbox|
    decreases |Client(s, byA).inbox| - Client(s, byA).read
  {
    if Client(s, byA).read == |Client(s, byA).inbox| {
      steps := [];
    } else {
      var first := ReadOne(s, byA, id);
      var rest := ReadAll(After(s, first), byA, id);
      RunsAppend(s, first, rest);
      steps := first + rest;
    }
  }

  // ---------------------------------------------------------------------
  // A handler finishes
  // ---------------------------------------------------------------------

  /** The handler of `id` is at work or has answered, and its outbox works. */
  predicate CanAnswer(server: Peer, id: ReqId) {
    id in server.handlers && !Lost(server, id) && !server.handlers[id].broken
  }

  /** What a handler's work leaves as it is: its own side's reader, and the other
      side but for its inbox. */
  ghost predicate OnlyHandled(server: Peer, client: Peer, server': Peer, client': Peer) {
    && server'.reader == server.reader && server'.closed == server.closed
    && client'.(inbox := client.inbox) == client && (End in client'.inbox <==> End in client.inbox)
  }

  lemma {:induction false} DrainAll(s: State, byA: bool, id: ReqId) returns (steps: seq<Step>)
    requires Both(s, id) && Open(s.a, s.b) && CanAnswer(Client(s, byA), id)
    requires Client(s, byA).handlers[id].phase.Draining?
    ensures Runs(s, steps)
    ensures var t := After(s, steps);
            && Both(t, id) && OnlyHandled(Client(s, byA), Server(s, byA), Client(t, byA), Server(t, byA))
            && CanAnswer(Client(t, byA), id)
            && Client(t, byA).handlers[id].phase == Client(s, byA).handlers[id].phase
            && Client(t, byA).handlers[id].taken == |Client(t, byA).handlers[id].puts|
    decreases |Client(s, byA).handlers[id].puts| - Client(s, byA).handlers[id].taken
  {
    if Client(s, byA).handlers[id].taken == |Client(s, byA).handlers[id].puts| {
      steps := [];
    } else {
      var first := StepOf(s, byA, Drain(id), id);
      var rest := DrainAll(After(s, first), byA, id);
      RunsAppend(s, first, rest);
      steps := first + rest;
    }
  }

  lemma OnlyHandledTwice(server: Peer, client: Peer, server1: Peer, client1: Peer, server2: Peer, client2: Peer)
    requires OnlyHandled(server, client, server1, client1) && OnlyHandled(server1, client1, server2, client2)
    ensures OnlyHandled(server, client, server2, client2)
  {
  }

  lemma RespondOne(s: State, byA: bool, id: ReqId) returns (steps: seq<Step>)
    requires Both(s, id) && Open(s.a, s.b) && Enabled(Client(s, byA), Server(s, byA), Respond(id))
    ensures Runs(s, steps)
    ensures var t := After(s, steps);
            && Both(t, id) && OnlyHandled(Client(s, byA), Server(s, byA), Client(t, byA), Server(t, byA))
            && id in Client(t, byA).handlers
            && Client(t, byA).handlers[id].phase == Responded(Client(s, byA).handlers[id].phase.body)
  {
    steps := StepOf(s, byA, Respond(id), id);
  }

  lemma Answered(s: State, byA: bool, id: ReqId) returns (steps: seq<Step>)
    requires Both(s, id) && Open(s.a, s.b) && CanAnswer(Client(s, byA), id)
    requires Client(s, byA).handlers[id].phase.Draining?
    ensures Runs(s, steps)
    ensures var t := After(s, steps);
            && Both(t, id) && OnlyHandled(Client(s, byA), Server(s, byA), Client(t, byA), Server(t, byA))
            && id in Client(t, byA).handlers
            && Client(t, byA).handlers[id].phase == Responded(Client(s, byA).handlers[id].phase.body)
  {
    var first := DrainAll(s, byA, id);
    var s1 := After(s, first);
    var last := RespondOne(s1, byA, id);
    var s2 := After(s1, last);
    OnlyHandledTwice(Client(s, byA), Server(s, byA), Client(s1, byA), Server(s1, byA), Client(s2, byA),
        Server(s2, byA));
    RunsAppend(s, first, last);
    steps := first + last;
  }

  /** Once it runs, a handler can answer with any body. */
  lemma HandlerAnswers(s: State, byA: bool, id: ReqId, body: Payload) returns (steps: seq<Step>)
    requires Both(s, id) && Open(s.a, s.b) && CanAnswer(Client(s, byA), id)
    ensures Runs(s, steps)
    ensures var t := After(s, steps);
            var phase := Client(s, byA).handlers[id].phase;
            && Both(t, id) && OnlyHandled(Client(s, byA), Server(s, byA), Client(t, byA), Server(t, byA))
            && id in Client(t, byA).handlers
            && Client(t, byA).handlers[id].phase == Responded(if phase.Running? then body else phase.body)
  {
    var phase := Client(s, byA).handlers[id].phase;
    if phase.Responded? {
      steps := [];
    } else if phase.Draining? {
      steps := Answered(s, byA, id);
    } else {
      var first := StepOf(s, byA, Return(id, body), id);
      var rest := Answered(After(s, first), byA, id);
      RunsAppend(s, first, rest);
      steps := first + rest;
    }
  }

  // ---------------------------------------------------------------------
  // A pending request can be answered
  // ---------------------------------------------------------------------

  lemma AskedIsHandled(client: Peer, server: Peer, id: ReqId)
    requires Conversation(client, server, id) && id in client.requests && server.read == |server.inbox|
    ensures id in server.handlers
  {
    assert server.inbox[..server.read] == server.inbox;
  }

  /** What a client that read all knows of an answered request. */
  lemma ReadResponse(client: Peer, server: Peer, id: ReqId)
    requires Conversation(client, server, id) && id in client.requests && client.read == |client.inbox|
    requires id in server.handlers && server.handlers[id].phase.Responded?
    requires client.requests[id].failures == 0 && !client.requests[id].givenUp
    ensures HasResponse(client.requests[id].delivered, id)
  {
    var body := server.handlers[id].phase.body;
    assert client.inbox[..client.read] == client.inbox;
    assert Resp(id, body) in Sent(id, server.handlers[id]);
    AnswerHasResponse(client.inbox, id, body);
  }

  /** The server reads all, its handler finishes, the client reads all. */
  lemma AnswerFrom(s: State, asA: bool, id: ReqId, body: Payload) returns (steps: seq<Step>)
    requires Both(s, id) && NoEnd(s) && Open(s.a, s.b) && s.a.reader == s.b.reader == Reading
    requires id in Client(s, asA).pending
    requires id in Server(s, asA).handlers ==> CanAnswer(Server(s, asA), id)
    ensures Runs(s, steps)
    ensures var t := After(s, steps);
            var client, server := Client(t, asA), Server(t, asA);
            && id in client.requests && HasResponse(client.requests[id].delivered, id)
            && id in server.handlers && server.handlers[id].phase.Responded?
            && (Fresh(HandlerOf(Server(s, asA), id)) ==> server.handlers[id].phase.body == body)
  {
    var x := ReadAll(s, !asA, id);
    var s1 := After(s, x);
    AskedIsHandled(Client(s1, asA), Server(s1, asA), id);
    var y := HandlerAnswers(s1, !asA, id, body);
    var s2 := After(s1, y);
    var z := ReadAll(s2, asA, id);
    ReadResponse(Client(After(s2, z), asA), Server(After(s2, z), asA), id);
    RunsAppend(s1, y, z);
    RunsAppend(s, x, y + z);
    steps := x + (y + z);
  }

  /** With nothing closed and both sides reading, a pending request whose handler
      did not lose the answer can still be answered, with any body if its handler
      has not returned one. */
  lemma PendingCanBeAnswered(steps: seq<Step>, asA: bool, id: ReqId, body: Payload) returns (more: seq<Step>)
    requires Runs(START, steps)
    requires var s := After(START, steps);
             && Open(s.a, s.b) && s.a.reader == s.b.reader == Reading && id in Client(s, asA).pending
             && !Lost(Server(s, asA), id) && !IsBroken(Server(s, asA), id)
    ensures Runs(START, steps + more)
    ensures var client := Client(After(START, steps + more), asA);
            && id in client.requests && HasResponse(client.requests[id].delivered, id)
            && (Said(steps, Returned, !asA, id) == [] ==> Resp(id, body) in client.requests[id].delivered)
  {
    var s := After(START, steps);
    RunKeeps(START, steps, id);
    RunKeepsNoEnd(START, steps);
    more := AnswerFrom(s, asA, id, body);
    RunsAppend(START, steps, more);
    var t := After(START, steps + more);
    var b :| Resp(id, b) in Client(t, asA).requests[id].delivered;
    ResponseIsComplete(steps + more, asA, id, id, b);
    HandlerKnows(steps, !asA, id);
  }

  predicate IsBroken(server: Peer, id: ReqId) {
    id in server.handlers && server.handlers[id].broken
  }

  lemma ActBreaksIff(me: Peer, peer: Peer, act: Action, id: ReqId)
    requires Served(peer, me, id) && Enabled(me, peer, act)
    ensures var (me', peer') := Act(me, peer, act);
            && (IsBroken(me', id) <==> IsBroken(me, id) || act == Break(id))
            && (IsBroken(peer', id) <==> IsBroken(peer, id))
  {
    if act == Receive {
      StartsOnce(me, peer, id);
    }
  }

  lemma StepBreaksIff(s: State, step: Step, byA: bool, id: ReqId)
    requires Both(s, id) && CanTake(s, step)
    ensures IsBroken(Client(Take(s, step), byA), id) <==> IsBroken(Client(s, byA), id) || step == Step(byA, Break(id))
  {
    if step.byA {
      ActBreaksIff(s.a, s.b, step.act, id);
    } else {
      ActBreaksIff(s.b, s.a, step.act, id);
    }
  }

  lemma {:induction false} RunBreaksIff(s: State, steps: seq<Step>, byA: bool, id: ReqId)
    requires Both(s, id) && Runs(s, steps)
    ensures IsBroken(Client(After(s, steps), byA), id)
       <==> IsBroken(Client(s, byA), id) || Step(byA, Break(id)) in steps
    decreases steps
  {
    if steps != [] {
      StepKeeps(s, steps[0], id);
      StepBreaksIff(s, steps[0], byA, id);
      RunBreaksIff(Take(s, steps[0]), steps[1..], byA, id);
    }
  }

  /** So it can be answered exactly when its handler neither lost the answer nor
      has a broken outbox. */
  lemma AnswerableIff(steps: seq<Step>, asA: bool, id: ReqId)
    requires Runs(START, steps)
    requires var s := After(START, steps);
             Open(s.a, s.b) && s.a.reader == s.b.reader == Reading && id in Client(s, asA).pending
    ensures Answerable(After(START, steps), asA, id)
       <==> forall i | 0 <= i < |steps| :: !Loses(!asA, steps[i], id) && steps[i] != Step(!asA, Break(id))
  {
    RunKeeps(START, steps, id);
    RunLosesIff(START, steps, asA, id);
    RunBreaksIff(START, steps, !asA, id);
    RunKeepsNoEnd(START, steps);
    AnswerableFrom(After(START, steps), asA, id);
  }

  lemma AnswerableFrom(s: State, asA: bool, id: ReqId)
    requires Both(s, id) && NoEnd(s) && Open(s.a, s.b) && s.a.reader == s.b.reader == Reading
    requires id in Client(s, asA).pending
    ensures Answerable(s, asA, id) <==> !Lost(Server(s, asA), id) && !IsBroken(Server(s, asA), id)
  {
    if !Lost(Server(s, asA), id) && !IsBroken(Server(s, asA), id) {
      var more := AnswerFrom(s, asA, id, "");
      assert IsAnswered(s, more, asA, id);
    } else {
      forall more ensures !IsAnswered(s, more, asA, id) {
        NotAnswered(s, more, asA, id);
      }
    }
  }

  ghost predicate IsAnswered(s: State, more: seq<Step>, asA: bool, id: ReqId) {
    && Runs(s, more)
    && var client := Client(After(s, more), asA);
       id in client.requests && HasResponse(client.requests[id].delivered, id)
  }

  /** Some continuation delivers a response. */
  ghost predicate Answerable(s: State, asA: bool, id: ReqId) {
    exists more :: IsAnswered(s, more, asA, id)
  }

  lemma NotAnswered(s: State, more: seq<Step>, asA: bool, id: ReqId)
    requires Both(s, id)
    requires Lost(Server(s, asA), id) || IsBroken(Server(s, asA), id)
    ensures !IsAnswered(s, more, asA, id)
  {
    if Runs(s, more) {
      RunKeeps(s, more, id);
      if Lost(Server(s, asA), id) {
        LostStaysLost(s, more, asA, id);
      } else {
        BrokenNeverAnswers(s, more, asA, id);
      }
      if id in Client(After(s, more), asA).requests {
        NoneDelivered(Client(After(s, more), asA), Server(After(s, more), asA), id);
      }
    }
  }

  lemma NoneDelivered(client: Peer, server: Peer, id: ReqId)
    requires Conversation(client, server, id) && !HasResponse(client.inbox, id) && id in client.requests
    ensures !HasResponse(client.requests[id].delivered, id)
  {
    var delivered := client.requests[id].delivered;
    AnswerGrows(client.inbox, client.read, id);
    forall b ensures Resp(id, b) !in delivered {
      AnswerHasResponse(delivered, id, b);
      AnswerHasResponse(client.inbox, id, b);
      assert Answer(delivered, id) <= Answer(client.inbox, id);
    }
  }

  // ---------------------------------------------------------------------
  // Every side can be shut down
  // ---------------------------------------------------------------------

  function LiveOnes(p: Peer): set<ReqId> {
    set id | id in p.handlers && p.handlers[id].Live()
  }

  /** Its handlers are cancelled one after the other. */
  lemma {:induction false} CancelAll(s: State, byA: bool, id: ReqId) returns (steps: seq<Step>)
    requires Both(s, id)
    ensures Runs(s, steps)
    ensures var t := After(s, steps);
            && Both(t, id) && Client(t, byA).reader == Client(s, byA).reader && LiveOnes(Client(t, byA)) == {}
    decreases LiveOnes(Client(s, byA))
  {
    if LiveOnes(Client(s, byA)) == {} {
      steps := [];
    } else {
      var who :| who in LiveOnes(Client(s, byA));
      var first := StepOf(s, byA, CancelHandler(who), id);
      assert LiveOnes(Client(After(s, first), byA)) == LiveOnes(Client(s, byA)) - {who};
      var rest := CancelAll(After(s, first), byA, id);
      RunsAppend(s, first, rest);
      steps := first + rest;
    }
  }

  lemma FinishFrom(s: State, byA: bool, id: ReqId) returns (steps: seq<Step>)
    requires Both(s, id) && Client(s, byA).reader.Stopping?
    ensures Runs(s, steps)
    ensures IsDown(Client(After(s, steps), byA), Client(s, byA).reader.sawClose)
  {
    var first := CancelAll(s, byA, id);
    var t := After(s, first);
    NoneLive(Client(t, byA));
    var last := StepOf(t, byA, Finish, id);
    RunsAppend(s, first, last);
    steps := first + last;
  }

  lemma NoneLive(p: Peer)
    requires LiveOnes(p) == {}
    ensures forall id | id in p.handlers :: !p.handlers[id].Live()
  {
    forall id | id in p.handlers ensures !p.handlers[id].Live() {
      assert id !in LiveOnes(p);
    }
  }

  /** The reader ended, nothing is pending and no handler is at work. */
  ghost predicate IsDown(me: Peer, sawClose: bool) {
    me.reader == Stopped(sawClose) && me.pending == {} && forall id | id in me.handlers :: !me.handlers[id].Live()
  }

  /** The reader starts to end: it sees the close of its own side, or is cancelled. */
  lemma StopFrom(s: State, byA: bool, cancelled: bool, id: ReqId) returns (steps: seq<Step>)
    requires Both(s, id) && Client(s, byA).reader == Reading
    ensures Runs(s, steps) && Both(After(s, steps), id) && Client(After(s, steps), byA).reader == Stopping(!cancelled)
  {
    if cancelled {
      steps := StepOf(s, byA, CancelReader, id);
    } else if Client(s, byA).closed {
      steps := StepOf(s, byA, SeeClose, id);
    } else {
      var x := StepOf(s, byA, Close, id);
      var y := StepOf(After(s, x), byA, SeeClose, id);
      RunsAppend(s, x, y);
      steps := x + y;
    }
  }

  lemma ShutDownFrom(s: State, byA: bool, cancelled: bool, id: ReqId) returns (steps: seq<Step>)
    requires Both(s, id) && Client(s, byA).reader == Reading
    ensures Runs(s, steps) && IsDown(Client(After(s, steps), byA), !cancelled)
  {
    var x := StopFrom(s, byA, cancelled, id);
    var y := FinishFrom(After(s, x), byA, id);
    RunsAppend(s, x, y);
    steps := x + y;
  }

  /** A side that reads can close, or its reader can be cancelled; the reader then
      ends with nothing pending and no handler at work, whatever the other side
      does. */
  lemma CanShutDown(steps: seq<Step>, byA: bool, cancelled: bool)
    requires Runs(START, steps) && Client(After(START, steps), byA).reader == Reading
    ensures exists more :: LeadsDown(steps + more, byA, !cancelled)
  {
    RunKeeps(START, steps, 0);
    var more := ShutDownFrom(After(START, steps), byA, cancelled, 0);
    RunsAppend(START, steps, more);
    assert LeadsDown(steps + more, byA, !cancelled);
  }

  ghost predicate LeadsDown(steps: seq<Step>, byA: bool, sawClose: bool) {
    Runs(START, steps) && IsDown(Client(After(START, steps), byA), sawClose)
  }

  /** Whoever asked can stop waiting at any time; the request has then ended. */
  lemma CanGiveUp(steps: seq<Step>, asA: bool, id: ReqId) returns (more: seq<Step>)
    requires Runs(START, steps) && id in Client(After(START, steps), asA).pending
    ensures Runs(START, steps + more)
    ensures var before, after := Client(After(START, steps), asA), Client(After(START, steps + more), asA);
            && id !in after.pending && id in before.requests && id in after.requests
            && after.requests[id] == before.requests[id].(givenUp := true)
  {
    RunKeeps(START, steps, id);
    more := StepOf(After(START, steps), asA, GiveUp(id), id);
    RunsAppend(START, steps, more);
  }

  /** A handler that returned can still reach the other side while nothing is
      closed, past its outbox. */
  lemma CanEmitLate(steps: seq<Step>, byA: bool, id: ReqId, body: Payload) returns (more: seq<Step>)
    requires Runs(START, steps)
    requires var s := After(START, steps);
             Open(s.a, s.b) && id in Client(s, byA).handlers && !Fresh(HandlerOf(Client(s, byA), id))
    ensures Runs(START, steps + more)
    ensures var before, after := Server(After(START, steps), byA), Server(After(START, steps + more), byA);
            Directs(after.inbox, id) == Directs(before.inbox, id) + [body]
  {
    var s := After(START, steps);
    RunKeeps(START, steps, id);
    OneMoreFrame(Server(s, byA).inbox, Event(id, body, false), id);
    more := StepOf(s, byA, EmitDirect(id, body), id);
    RunsAppend(START, steps, more);
  }
}
