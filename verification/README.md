# A verified model of the network generator and its deployer

The repository declares a network (routers, routing domains, kernel routers) in
TypeScript, computes from it an intermediate representation, and deploys that
with a Python runtime: a lifecycle engine that creates and deletes what is on a
host, units of work that carry operations between processes, a request/response
protocol between peers, and generated schemas shared by both languages. This
project models the parts in which those pieces have to agree with one another and
proves what they promise together:

* **Routing** (`src/ir.ts`, `deployer/ir_common.py`, `src/define.ts`): the nested
  loops that compute routes, the merge by id, one next hop per prefix. Whatever
  the deployed tables are, no packet loops, and routes stay in their domain.
* **The peer protocol** (`runtime/peer.py`, `runtime/forward.py`,
  `runtime/transport.py`): a transition system over all interleavings of two
  sides, and the objects as they are updated in place. Requests are conserved,
  answers are complete, in order and what the handler said, shutdown leaves
  nothing waiting, and when a request can still be answered is stated exactly.
* **The lifecycle** (`deployer/lifecycle.py`, `deployer/primitives_*.py`): the
  state of a host under the deployer's commands. What creation brings about is
  stated exactly, and wherever it stops, what is left after deleting.
* **Units of work** (`fabric/plan.py`, `fabric/units.py`, `fabric/services/`):
  cutting a plan into units, serializing its steps, resolving run-time references
  and running unit by unit change nothing.
* **Schemas and text** (`runtime/message.py`, `protocol/hydrate.py`,
  `src/protocol.ts`, `deployer/ir_to_python.py`): two decoders of one schema
  agree, messages round-trip, schema compression loses nothing, embedded literals
  read back.
* **Dependencies** (`deployer/jobtree.py`): waiters fire once, and chains of them
  reach one least fixpoint whatever the order of events.

Modules are named after these parts, one per file. Where the program is a nest of
loops or an object with methods, so is the model: methods with invariants proved
against a specification function, classes whose methods say what the new state
is. What the program promises is then proved about the specifications.

## Model

| member | source | states |
|---|---|---|
| RouteSynthesis.ComputeRoutes | src/ir.ts:1380-1525 | The anchor and explicit loops push exactly the specified nodes in order, or stop at the first whose next hop has the wrong family (and only then); which nodes these are is said by the RouteContents rows. |
| RouteSynthesis.AnchorAddressIsFirst | src/ir.ts:1305-1318 | The next hop is the first address of the right family on the first endpoint, in order, that is not the anchor's own, shares a segment with the learner and has one; none is found only if no endpoint is so. |
| RouteSynthesis.ComputeInterconnectRoutes | src/ir.ts:1560-1597 | The nested loops over ordered pairs of participants push exactly the specified nodes, in order. |
| RouteSynthesis.MergeRoutes | src/ir.ts:1847-1852 | Both loops of writes by id give the map in which the last writer of each id wins. |
| RouteSynthesis.MergeOverrides | src/ir.ts:1839-1852 | A domain route overrides an interconnect route on exactly the ids it has. |
| RouteContents.AnchorNodesAre | src/ir.ts:1400-1467 | An anchor node is pushed only for an endpoint's declared route in one of its domains: to the router itself by the route's `via`, to another participant that does not declare the destination by the anchor's first facing address; with the route's security groups and the domain's metric, else 400. |
| RouteContents.AnchorNodesAreAll | src/ir.ts:1400-1467 | And for every such reason. |
| RouteContents.ExplicitNodesAre | src/ir.ts:1487-1520 | An explicit node is pushed only for a domain's own route that is no default, to a participant that neither declares nor is connected to it, by the first facing address of the first other participant that is connected; its metric is the route's, else the domain's, else 400. |
| RouteContents.ExplicitNodesAreAll | src/ir.ts:1487-1520 | And for every such reason. |
| RouteContents.InterconnectNodesAre | src/ir.ts:1560-1597 | An interconnect node is pushed only from a participant on a shared segment, for the network of an address on another of its endpoints, by its address there of that family. |
| RouteContents.InterconnectNodesAreAll | src/ir.ts:1560-1597 | And for every such reason. |
| RouteContents.DefaultIs | src/ir.ts:1053-1056 | What is skipped as a default is exactly the prefix that contains every address of its family. |
| RouteContents.ThrowsIff | src/ir.ts:1329-1354 | Computing routes throws if and only if some endpoint in a domain declares a route via an address of the other family. |
| RouteContents.KeptNode | src/ir.ts:1847-1852 | Under each id the merge keeps an explicit node if there is one, else an anchor node, else an interconnect node. |
| RouteContents.ExplicitRouteWins | src/ir.ts:1487-1520 | Where a domain gives a destination one route, a participant for which there is a reason has a merged node for it, with that route's metric. |
| RouteContents.LastAnchorWins | src/ir.ts:1400-1467 | Among anchor nodes of one id the one kept is of the last router, in order, that gives one. |
| Network.ShareSegmentIff | src/ir.ts:1305-1318 | Routers share a segment exactly when some segment has OVN endpoints of both; those of kernel endpoints do not count. |
| Isolation.RoutesStayInTheirDomain | src/ir.ts:1375-1525 | Every merged route is the router's own declaration, or points at another participant of the same domain on a shared segment that is connected to the prefix, or declares it while the learner does not. |
| Isolation.PeersLearnSubnets | src/ir.ts:1548-1597 | Completeness: a participant gets a route to every subnet of the remaining endpoints of a participant it shares a segment with, per family. |
| Isolation.ReachabilityIsMutual | src/ir.ts:1548-1597 | Between two participants on a segment, each gets the route to the other's remaining subnets. |
| Isolation.ParticipantsLearnAnchors | src/ir.ts:1435-1463 | An anchor's destination, with or without `via`, reaches every sharing participant that does not declare it. |
| Forwarding.HopDecreases | src/ir.ts:1380-1597 | Every computed hop decreases the pair (prefix bits left to match, connected before declaring before other). |
| Forwarding.NoRouterTwice | src/ir.ts:1380-1597 | Loop freedom: over all deployed tables, packets and walks, no router is visited twice. |
| Forwarding.EveryPacketEnds | src/ir.ts:1380-1597 | Every packet ends after finitely many hops at a router connected to a covering network, at one that declares a covering prefix, or is dropped by the first router. |
| Forwarding.WalksAgree | deployer/ir_common.py:531-566 | A packet has one way: two walks from one router never part. |
| Forwarding.EmissionDeploys | deployer/ir_common.py:531-566 | The tables that emission installs, in whatever order the nodes come, hold merged nodes only and leave out no prefix of them: the theorems of this part are about them. |
| Forwarding.NotDropped | src/ir.ts:1380-1597 | Routes that exist are used: a packet from a router with a merged node for it is dropped nowhere. |
| Forwarding.PeersReachSubnets | src/ir.ts:1560-1597 | A packet from a participant to a subnet of another on a shared segment ends at a connected or a declaring router. |
| Forwarding.ParticipantsReachAnchors | src/ir.ts:1435-1463 | The same for a destination an anchor declares. |
| Forwarding.HopStaysInDomain | src/ir.ts:1375-1378 | Both ends of a computed hop participate in one domain and share a segment. |
| Confinement.ConfinedIff | src/ir.ts:1375-1597 | A domain keeps its packets if and only if every table entry of its participants that some packet follows leads to a participant. |
| Confinement.WalkStaysInDomain | src/ir.ts:1375-1378 | Hence, where no router is in two domains, no walk leaves a domain of its first router. |
| TwoDomains.PacketLeavesItsDomain | src/ir.ts:1375-1378 | Otherwise it can: a network, the tables emission installs for it, and a packet from a router of one domain alone that arrives at a router that is not in it. |
| TwoDomains.MergedAre | src/ir.ts:1380-1597 | All the merged nodes of that network. |
| RouteTable.EmitRouterRoutes | deployer/ir_common.py:531-566 | Refuses exactly when some prefix has two next hops at its lowest metric; else installs one lowest-metric route for each prefix and no other. |
| RouteTable.SortByKey | deployer/ir_common.py:547 | The in-place sort of a group: a permutation ordered by metric, then the text of the next hop, and stable. |
| RouteTable.TableIgnoresOrder | deployer/ir_common.py:542-556 | What is installed depends on which nodes there are, not on their order. |
| RouteTable.DistinctMetricsNeverRefuse | deployer/ir_common.py:549-555 | With distinct domain metrics, no router's merged routes are refused. |
| RouteTable.NetworkBuilder.DeclareRoutingDomain | src/define.ts:539-559 | A second domain of one name is refused and changes nothing; else the domain has the name, the routes, and the metric given or the next one, no other domain changes, and the next metric is one more than the larger. |
| RouteTable.DeclarationIsKept | src/define.ts:539-559 | After any declarations the domain of a name is the first declared: its routes, its metric, or the one that was next when it came. |
| RouteTable.NextMetricExceedsAll | src/define.ts:549-551 | After any declarations the next automatic metric exceeds every metric handed out. |
| RouteTable.AutomaticMetricsNeverRefuse | src/define.ts:332-334 | A network whose domains take automatic metrics is never refused at deployment. |
| BackRoutes.RewriteKeepsDestinations | src/router-endpoints.ts:374-393 | The OVN side keeps every destination, in order, with the namespace's address of its family; fails exactly when one is missing. |
| BackRoutes.TransitPeer | src/ir.ts:227-244 | The first router, in order, with an OVN endpoint on the transit segment; none exactly when there is none. |
| BackRoutes.KernelRouterBackRoutes | src/ir.ts:271-312 | The loop mirrors exactly the nodes the specification mirrors, in order, for the first transit peer. |
| BackRoutes.SurvivorPointsHome | src/ir.ts:1450-1454 | In each domain of the namespace, the one merged node for a prefix declared on its endpoint alone is the declaration and points at the namespace. |
| BackRoutes.NeverMirroredBack | src/ir.ts:271-312 | Hence that prefix is never mirrored back into the namespace: no ping-pong on the transit link. |
| BackRoutes.MirroredShape | src/ir.ts:287-311 | What is mirrored is a prefix of the peer's own nodes in the namespace's domains, by the OVN address of its family, and not one the right side applies. |
| BackRoutes.MirroredIff | src/ir.ts:287-311 | And exactly this is mirrored: each node of the peer in a domain of the namespace that does not point at the namespace and is not applied on its right side, by the first OVN address of its family. |
| BackRoutes.PairedFaces | src/router-endpoints.ts:374-393 | The endpoint and namespace that are built face each other: segment, addresses and domains agree. |
| PeerProtocol.ActKeeps | runtime/peer.py:161-273 | Each of the sixteen atomic actions of either side keeps the conversation invariant of every request in both directions. |
| PeerRuns.Reachable | runtime/peer.py:199-273 | The invariant holds in every reachable state. |
| PeerRuns.PendingIsInOnePlace | runtime/peer.py:165-179 | Conservation: a pending request is in exactly one of the wire out, a live handler, the wire back; in none exactly if its handler ended without a response. |
| PeerRuns.PendingIsSomewhereIff | runtime/peer.py:247-273 | With nothing closed, it is in none if and only if in that run its handler let a Closed or a CancelledError out, or returned after it emitted a body that cannot be encoded. |
| PeerRuns.LostStaysLost | runtime/peer.py:257-262 | A request whose handler ended without a response is never answered, over any continuation. |
| PeerRuns.BrokenNeverAnswers | runtime/forward.py:51-54 | Once an outbox met a body it cannot encode, no continuation answers its request. |
| PeerRuns.ForeignClosedLosesTheAnswer | runtime/peer.py:260-262 | A concrete run with nothing closed after which a request is pending for good. |
| PeerRuns.BrokenLosesTheAnswer | runtime/peer.py:254-269 | Another one: the emitted body cannot be encoded, and closing the outbox raises twice. |
| PeerRuns.OutboxOrder | runtime/forward.py:23-54 | What was sent, then what is queued, is what was put, in order; a response comes last, after all of it, once. |
| PeerRuns.ResponseIsComplete | runtime/peer.py:254-256 | A delivered response is its own request's, its handler responded with that body, and everything that handler put was delivered before it, in order. |
| PeerRuns.EndsOnce | runtime/peer.py:132-141 | A request ends by exactly one of its response, one failure, its `ask` giving up. |
| PeerRuns.EndedIsSilent | runtime/peer.py:186-189 | After it ended, nothing is delivered to it over any run. |
| PeerRuns.FinishFailsPending | runtime/peer.py:208-216 | The end of the reader fails every pending request once, touches no other, and leaves no live handler. |
| PeerRuns.ClosedReaderLeavesNothing | runtime/peer.py:199-216 | After a reader ended on Closed nothing is or becomes pending, and no handler is alive. |
| PeerHistory.ResponseIsReturned | runtime/peer.py:254-256 | Told on the steps: if a response arrived with a body, the other side took one step that returns from that request, and it returned that body. |
| PeerHistory.AnswerIsWhatWasSaid | runtime/peer.py:247-269 | What was delivered for an answered request is the bodies emitted for it before its outbox closed, in the order of those steps, and the one body returned. |
| PeerHistory.EventsAreSaid | runtime/forward.py:31-54 | In every reachable state, the ordered answer on the wire is a beginning of those bodies, or all of them and one response. |
| PeerHistory.DirectsAreSaid | runtime/peer.py:59-62 | What was emitted past the outbox arrives, all of it, in the order of the steps. |
| PeerHistory.PendingGetsAll | runtime/peer.py:232-245 | A pending request was delivered every frame read that names it, in order. |
| PeerProgress.PendingCanBeAnswered | runtime/peer.py:247-269 | With nothing closed and both sides reading, a pending request whose handler did not lose the answer can still be answered, with any body if none was returned yet. |
| PeerProgress.AnswerableIff | runtime/peer.py:247-269 | So some continuation answers it if and only if the run so far has none of the four steps that lose an answer. |
| PeerProgress.CanShutDown | runtime/peer.py:199-216 | From every reachable state a side that reads can end, by closing or by being cancelled, without the other side: nothing pending, no handler at work. |
| PeerProgress.CanGiveUp | runtime/peer.py:181-189 | Whoever asked can stop waiting in every reachable state, and the request has then ended. |
| PeerProgress.CanEmitLate | runtime/peer.py:59-62 | A handler that returned can still reach the other side past its outbox while nothing is closed. |
| PeerObjects.MemConnection.Send | runtime/transport.py:80-83 | Raises exactly when either end is closed or there is no other end; else appends one frame there and changes nothing else. |
| PeerObjects.MemConnection.Recv | runtime/transport.py:85-92 | The head of the queue, or Closed; either way it is the action Receive or SeeClose of the transition system. |
| PeerObjects.MemConnection.Close | runtime/transport.py:94-100 | Idempotent; leaves one end mark on each side; it is the action Close. |
| PeerObjects.Outbox.Put | runtime/forward.py:31-37 | Taken exactly while open, behind all before it; it is the action Put. |
| PeerObjects.Outbox.DrainOne | runtime/forward.py:51-54 | One turn of the outbox task sends the head or ends; it is the action Drain on both sides. |
| PeerObjects.Outbox.Close | runtime/forward.py:39-44 | Sends everything still queued, in order, before it returns. |
| PeerObjects.Request.Fail | runtime/peer.py:138-141 | A failure after the end changes nothing; before it, it is the one last item. |
| PeerObjects.Request.Rest | runtime/peer.py:114-119 | Iterating a done request never waits, yields all that is left in order, ends with the response or raises the failure. |
| PeerObjects.Request.Wait | runtime/peer.py:121-130 | The response without taking anything from the queue, or the failure, or "no response" once that was taken. |
| PeerObjects.LivePeer.SendRequest | runtime/peer.py:165-179 | Registered before it is sent, taken back when it cannot be; it is the action SendRequest. |
| PeerObjects.LivePeer.Receive | runtime/peer.py:218-245 | A request gets a new handler, an answer its pending request, the rest the event callback; it is `Dispatch` of the transition system. |
| PeerObjects.LivePeer.Shutdown | runtime/peer.py:208-216 | Drops every outbox, fails every pending request once; it is the action Finish. |
| Primitives.LinkCommands | deployer/primitives_net.py:461-600 | The create and delete lists of a namespace link, built up branch by branch. |
| Undo.UndoIsInverse | deployer/lifecycle.py:176-188 | For every operation and every number of create commands that applied, but for the interruptions of the next row: the delete list gives the state back, without the facts a moved link lost. |
| Undo.NotUndoneStaysBehind | deployer/primitives_net.py:570-594 | The converse, for a vlan or dummy before its move or after its rename: its deletion changes nothing, and the link is all that stays. |
| Leftovers.TakenBack | deployer/lifecycle.py:183-188 | The same for every operation with any links left behind by others present: they neither disturb it nor are disturbed. |
| Effects.CreationBrings | deployer/primitives_ovs.py:25-117 | Creating any of the nine kinds of operation brings about what it names in full and nothing else: a port with bridge, tag, then trunks; a bridge with datapath and fail mode; a link at its final name and place and up, its other leg up and on its bridge; a lent link moved and up; a namespace with loopback and forwarding; one fact, rule, policy or file. |
| Effects.QueueBrings | deployer/lifecycle.py:780-797 | However far creation gets, every operation before that brought about what it names, one after the other; with the last one that is where the host is. |
| Effects.QueueStopsAtFailure | deployer/lifecycle.py:780-797 | A creation that stops short does so at a command that the host refuses or that fails for its own reason. |
| Lifecycle.LifecycleController.Create | deployer/lifecycle.py:176-180 | Applies commands up to the first that fails, for its own reason or because the host refuses. |
| Lifecycle.LifecycleController.Delete | deployer/lifecycle.py:183-188 | Runs every delete command, each failure passed over. |
| Lifecycle.LifecycleController.Execute | deployer/lifecycle.py:780-797 | Creates forward and aborts at the first failure; deletes reversed, best effort. |
| Rewind.WhatStaysBehind | deployer/lifecycle.py:709-714 | Create any queue under any failures and delete all of it: the host is as before, plus exactly the vlans and dummies not moved yet or renamed in a namespace the queue did not make. |
| Rewind.CreateThenDelete | deployer/lifecycle.py:780-797 | So it is restored if and only if creation did not stop right before the move of a vlan or dummy and each that got renamed is in a namespace an earlier operation of the queue made. |
| Rewind.RenamedInBorrowedNamespace | deployer/primitives_net.py:586-591 | A queue that is created without any failure and not restored. |
| Steps.FieldsRoundTrip | fabric/units.py:52-68 | Node fields survive serialization if and only if no object in them has a literal "$ref" key. |
| Steps.StepRoundTrip | fabric/units.py:206-220 | Every kind of operation comes back as it went in (on the given host) if and only if its node fields survive. |
| Steps.StepSaysTheSame | fabric/units.py:80-196 | A step holds what its operation holds under the same names, commands and arguments in order; what is false or zero is left out. |
| Steps.LiteralRefIsLost | fabric/units.py:59-60 | A concrete field that does not come back. |
| Steps.ResolvingCommutes | deployer/lifecycle.py:105-125 | An operation with its references filled in can be serialized if and only if the store has a string for each reference in an argument list; and then filling in commutes with serializing. |
| Steps.ResolveAfterLoading | deployer/lifecycle.py:786-787 | For every store: what runs is the same whether references are filled in before the operation is serialized or after it is loaded. |
| Steps.ResolveAnywhere | deployer/lifecycle.py:786-787 | Filling them in in the step gives the same too, if and only if no value filled into a field has a literal "$ref" key. |
| Variables.RunCapture | deployer/lifecycle.py:429-454 | A capture stores its first answer, under its key if it has one; with no answer an optional one stores null and another fails; the unit is restarted between attempts. |
| Variables.LookupFinds | deployer/lifecycle.py:105-112 | A reference finds what its capture was answered, and null for another name, another key, or a key of a plain value; no capture touches another. |
| Plans.CuttingKeepsOrder | fabric/plan.py:96-120 | The units' steps, one unit after the other, are the declared operations in order. |
| Plans.RefsPointBack | fabric/plan.py:129-147 | In an accepted plan every reference names a capture declared earlier in the scope, or the capture it is an argument of. |
| Variables.VariablesMeanTheirValues | fabric/plan.py:185-209 | Filled in when declared and resolved when run, an operation is the declared one with, for each variable, the text last assigned to it, else the value last captured under its name. |
| Variables.FillsIff | fabric/plan.py:189-196 | It is refused for its variables if and only if it mentions one that no declaration before it assigned or captured. |
| Variables.CaptureIs | fabric/plan.py:129-147 | A capture's step is plain, or retried thirty times with `ovn-controller` restarted and the value under CHASSIS_ID. |
| Variables.LinkIs | fabric/plan.py:148-150 | A container's link names the text written or assigned and the process id that was captured. |
| Variables.UnitHoldsItsSteps | fabric/plan.py:96-120 | The steps declared after a unit is opened, up to the next, are the steps of that unit; it has the name, kind and key it was opened with; the units before stay as they are. |
| Plans.TakenByNewest | fabric/plan.py:107-120 | Only the newest unit takes operations; the scope itself and an older unit refuse with their own errors. |
| Plans.PlanEmitter.Add | fabric/plan.py:107-120 | An operation becomes the last step of its unit, or the emitter is unchanged and the error is the first that applies. |
| Plans.PlanEmitter.CaptureValue | fabric/plan.py:129-147 | The variable is set before the step is added, and stays set when that is refused. |
| UnitRuns.ApplyUnits | fabric/services/apply.py:160-210 | The apply loop hands the store of each unit to the next and reports of each whether it was done, failed or skipped. |
| UnitRuns.SkippedIff | fabric/services/apply.py:64-87 | Over any scopes and failures: a unit is skipped if and only if an earlier one ran, failed, and is of the scope "configure", "cluster" or none, or of the same scope. |
| UnitRuns.KeptUnitsRunInOrder | fabric/services/apply.py:160-210 | World and store are those of the units that were not skipped, run in order; each is done or failed as its steps are. |
| UnitRuns.StepsRunInOrder | deployer/lifecycle.py:780-797 | A unit's steps run in order, each resolved from the store the one before left, up to the first that fails. |
| UnitRuns.UnitsRunAsOne | fabric/services/apply.py:160-210 | In one scope, running unit by unit with the store handed on and blocked units skipped does to world and store what one controller over all steps does, failures included. |
| UnitRuns.SuccessfulUnitsRunAsOne | fabric/services/apply.py:64-82 | Over any scopes, if the one controller succeeds, no unit fails or is skipped and the result is the same. |
| UnitRuns.UnitsDeleteAsOne | fabric/services/unit.py:149-159 | Deleting the reversed units one by one is deleting the reversed queue. |
| UnitRuns.PlanRunsAsDeclared | fabric/plan.py:222-258 | A scope's plan run unit by unit does what its serialized steps do in one run. |
| UnitRuns.PlanRunsItsOperations | fabric/services/unit.py:149-159 | Composed with the round trip: it does what one controller does with the declared operations themselves. |
| UnitRuns.PlanDeletesItsOperations | fabric/services/unit.py:149-159 | The same for deletion: the plan's units reversed delete the declared operations, last first. |
| UnitRuns.EveryOperationIsDeleted | deployer/lifecycle.py:709-714 | Every one of them, last first, each resolved from the one store. |
| Messages.ValueRoundTrip | runtime/message.py:216-296 | Every value of an unambiguous schema type decodes from its own dump. |
| Messages.DumpIsNormal | runtime/message.py:216-296 | Decoding, dumping and decoding again changes nothing. |
| DecodeKeeps.DecodingKeeps | runtime/message.py:216-296 | What is decoded, dumped again, is the value decoded, but for null optional fields and ints that became floats of the same value. |
| Schemas.JsonKeyIff | runtime/message.py:210-213 | A field stands for another JSON key exactly when it is a keyword with an underscore behind it. |
| Messages.AcceptedIff | runtime/message.py:123-154 | A collection is accepted exactly when it has one message header, one body, and the two make a message. |
| Envelopes.HeaderDecodesIff | runtime/message.py:123-155 | Told on the JSON: a header part decodes if and only if it has the string id, kind, source, a number time, optional strings reqId and parentReqId, and no other key. |
| Envelopes.OneBodyVerdict | runtime/message.py:123-155 | For a collection with one body: accepted with what both decode to, or refused with the first of unknown body, missing header, bad header, missing request id, bad body. |
| Envelopes.RequestNeedsReqId | runtime/message.py:152-153 | Where header and body decode, the message is accepted if and only if its role is an event or the header part has a "reqId" that is not null; else the refusal is the missing request id. |
| Envelopes.BadPartRefused | runtime/message.py:128-130 | The first item that is no part refuses the collection as that. |
| Envelopes.DuplicateRefused | runtime/message.py:131-135 | The first part whose kind came before refuses it as that. |
| Envelopes.NoBodyRefused | runtime/message.py:138-142 | So does a collection without a body, |
| Envelopes.TwoBodiesRefused | runtime/message.py:138-142 | and one with two. |
| Messages.PartsInAnyOrder | runtime/message.py:123-154 | The order of parts, and header parts unknown here, make no difference. |
| Messages.MessageRoundTrip | runtime/message.py:157-171 | Every message of registered classes whose header names a request, where its role needs that, is received as it was sent. |
| Messages.ReceivedIsNormal | runtime/message.py:123-171 | Every accepted message can be sent on and is received the same. |
| Hydration.BuildObject | protocol/hydrate.py:137-160 | The loop over a dataclass's fields: all of them decoded, or refused; no unknown key. |
| Hydration.HydratedIsDecoded | protocol/hydrate.py:163-213 | What hydration accepts, message decoding accepts with the same result, up to int-to-float. |
| Hydration.DecodersAgree | protocol/hydrate.py:91-213 | For schemas with no enum beside a list or object in a union, both accept the same values. |
| Hydration.RefusedIff | protocol/hydrate.py:91-134 | For all unambiguous schemas: hydration refuses what decoding takes if and only if a list or object inside meets a union of several members with an enum. |
| Hydration.EnumBesideListRaises | protocol/hydrate.py:107-108 | Such a schema and value. |
| DecodeKeeps.HydrationKeeps | protocol/hydrate.py:137-213 | Hydration keeps every value as it is, numbers included, but for null optional fields. |
| CanonicalText.ReadOnce | src/protocol.ts:719-731 | Unique readability: a canonical text followed by anything that may follow one is the text of one value. |
| CanonicalText.SameTextIff | src/protocol.ts:719-731 | Two values have the same canonical text if and only if they are the same JSON value up to key order. |
| SchemaRefs.CompressionPreserves | src/protocol.ts:744-779 | Following every reference of the result ends and gives back the shapes passed in. |
| SchemaRefs.NoCopySurvives | src/protocol.ts:744-779 | No nested copy of a named shape is left anywhere. |
| SchemaRefs.CopyBecomesRef | src/protocol.ts:757-768 | Every outermost nested copy is replaced, in its place, by the object whose one key "$ref" is "#/$defs/" and the name. |
| SchemaRefs.ThrowsIff | src/protocol.ts:757-765 | It throws exactly when an outermost nested copy has two names. |
| SchemaWalk.NamesByShape | src/protocol.ts:747-751 | The loop groups the names under the text of their shape, in declaration order. |
| SchemaWalk.WalkAgrees | src/protocol.ts:752-773 | Recognising shapes by canonical text walks as recognising them by value. |
| SchemaWalk.RefNamedShapes | src/protocol.ts:744-779 | The function as written gives what compression on values gives, and throws when that does. |
| SchemaWalk.ResultExpandsBack | src/protocol.ts:744-779 | Composed: expanding its output gives its input back, up to key order. |
| PyString.OnePass | deployer/ir_to_python.py:307 | The two replacements are one pass that escapes backslashes and triples of quotes. |
| PyString.LiteralReadsBack | deployer/ir_to_python.py:305-314 | The literal, in any program text, is closed by its own last delimiter and reads back as the text, plus a newline if that ended in a quote. |
| PyString.FileReads | deployer/ir_to_python.py:305-314 | From a source file it is refused exactly if the text has a null character; else it reads back with its line ends made newlines. |
| PyString.FileReadsBackIff | deployer/ir_to_python.py:305-314 | So it reads back verbatim if and only if the text has neither a carriage return nor a null character. |
| PyString.ReturnIsLost | deployer/ir_to_python.py:305-314 | A text that comes back changed. |
| PyString.NullIsRefused | deployer/ir_to_python.py:305-314 | A text that makes the file unreadable. |
| PyString.SameFile | deployer/lifecycle.py:140-141 | The added newline is the one the file is written with anyway. |
| DepWaiting.DepWaiter.WaitFor | deployer/jobtree.py:42-64 | The new state, and that it acts exactly when it turns fired. |
| DepWaiting.FiredIff | deployer/jobtree.py:42-64 | A waiter has fired exactly when the events so far, at least one, reported all its dependencies. |
| DepWaiting.FiredIffMet | deployer/jobtree.py:20-64 | Told on the dictionaries: it has fired exactly when there was an event and each dependency was met by one. |
| DepWaiting.MeetsIff | deployer/jobtree.py:20-61 | An event reports a dependency if and only if it carries the same one, or is of the event kind for it and names the same thing; the package of an apt dependency is its `package`, else its `name`. |
| DepWaiting.ActsOnCompletion | deployer/jobtree.py:42-64 | It acts on exactly the first event that completes its set, so once. |
| DepWaiting.DeliveryCompletes | deployer/ir_to_python.py:1098-1112 | In a chain of waiters whose firing is an event, every delivery extends to a complete one, which has as many events as came from outside and waiters fired. |
| DepWaiting.FiredIsLeast | deployer/ir_to_python.py:1098-1112 | Once all is delivered, the waiters that fired are the least fixpoint of the rules. |
| DepWaiting.LeastIsReached | deployer/ir_to_python.py:1098-1112 | So with any event from outside, every delivery can reach that fixpoint. |
| DepWaiting.OrderDoesNotMatter | deployer/ir_to_python.py:1098-1112 | Two complete deliveries fire the same waiters. |

## Findings

Properties the code suggests that turned out false, each with an input and the
exact condition under which it holds.

| property | input | exact condition |
|---|---|---|
| "Every request is answered while nothing closes" (runtime/peer.py:254-269). `_handle` takes any Closed or CancelledError for one of its own connection, also where the handler awaited another connection or another task; and a body that cannot be encoded ends the outbox task, which `_handle` then awaits twice. | PeerRuns.ForeignClosedLosesTheAnswer, PeerRuns.BrokenLosesTheAnswer | PeerRuns.PendingIsSomewhereIff, PeerProgress.AnswerableIff |
| "Deleting the queue restores the host" (deployer/primitives_net.py:532-594). The delete command of a vlan or dummy names `self.name` in its namespace: not where the link is before its move, nor what it is called after a rename. | Rewind.RenamedInBorrowedNamespace | Rewind.CreateThenDelete; what stays is Rewind.WhatStaysBehind |
| "Both decoders accept the same values" (protocol/hydrate.py:107-108). Membership of a list or object in a set of enum values raises TypeError, which ends the choice of a union member. | Hydration.EnumBesideListRaises | Hydration.RefusedIff |
| "Serialized operations come back" (fabric/units.py:59-68). An object with a literal "$ref" key comes back as a reference. | Steps.LiteralRefIsLost | Steps.StepRoundTrip, Steps.FieldsRoundTrip |
| "Verbatim" embedding (deployer/ir_to_python.py:305-314). Reading a source file turns carriage returns into newlines and refuses null characters. | PyString.ReturnIsLost, PyString.NullIsRefused | PyString.FileReadsBackIff |
| "A packet stays in its domain" (not claimed by the program; each route does, src/ir.ts:1375-1378). A router in two domains can have a longer match in the other one. | TwoDomains.PacketLeavesItsDomain | Confinement.ConfinedIff |

## Left out

Routing:

- Declared destinations: `Network.Definition.WellFormed` asks that a declared destination is a network address; the program keeps host bits, and two texts for one prefix would then be two prefixes.
- RouteTable.SortByKey: how an address is printed is a parameter.
- RouteTable.AutomaticMetricsNeverRefuse: metrics are reals; floating-point rounding is not modelled.
- Sub-routers of tunnel endpoints, gateway chassis, services, DNS, NAT and the contents of security groups.
- How the kernel resolves `via` addresses, and packets from outside the declared network.

Peer protocol:

- PeerProtocol.ActKeeps: frames that do not decode (the ProtocolError branch of `_receive`, runtime/peer.py:219-230) are no actions; they fail a pending request or are answered with an error without a handler.
- PeerRuns.Reachable: request ids are fresh on both sides; bodies that are emitted are of event kinds and bodies returned of response kinds (one that cannot be encoded at all is the action Break); the event callback is one step with the read.
- PeerObjects.Outbox.DrainOne: the object takes bodies that can be encoded.
- PeerRuns.ClosedReaderLeavesNothing: after a cancelled reader loop requests can still be sent, and wait for ever.
- Timeouts are the step `GiveUp`, possible at any time; the unix transport, frame sizes and logging are not modelled.

Lifecycle:

- Rewind.CreateThenDelete: `Distinct` asks that the names an operation looks for on deletion, and the new name of a vlan or dummy, belong to one operation and are not on the host before; a lent link is one the queue makes.
- Primitives.LinkCommands: physical links, which are neither made nor moved, only renamed and set up, and the `mac` of a veth leg.
- Sysctl, WireGuard, dhclient, docker, systemd units and the removal of empty directories have deletions that do not undo, by design.
- A vlan goes with its own deletion only, not with its parent; a bridge has no internal interface; routes with one table, destination and device are one; a link that is up is not renamed.
- The temporary file behind a written file, dry runs, retries, time limits and the raw graph.

Units:

- Steps.ResolvingCommutes: a reference in a field has a string name and a string key or none (`TypedFields`), which is what a reference is made of; the same for Steps.ResolveAnywhere.
- UnitRuns.PlanRunsItsOperations: `WrittenSo` asks that a declaration refers to run-time values by variable, as the emitter's callers write them, not by a reference object or a literal "$ref" key; the same for Plans.RefsPointBack.
- UnitRuns.SuccessfulUnitsRunAsOne: over several scopes a run in which a unit fails is meant to differ from one controller, which stops; UnitRuns.SkippedIff and UnitRuns.KeptUnitsRunInOrder say what it does.
- Values of a plan are strings; shell and helper declarations, which the emitter refuses, and two units of one name.

Schemas and text:

- Messages.MessageRoundTrip: `WellFormed` and `Unambiguous` are asked of the schemas: distinct field keys, and union members told apart by their shape; the same for Hydration.RefusedIff and the other theorems about values.
- Messages.ValueRoundTrip: hints of type `Any`, classes that contain themselves, and the text of JSON (numbers that do not fit a float, NaN) are not modelled.
- Hydration.DecodersAgree: the table of node kinds and error texts are not modelled.
- CanonicalText.SameTextIff: characters are Unicode scalar values, so lone surrogates, which JSON.stringify escapes, do not occur; a number is the text JSON gives it.
- SchemaRefs.CompressionPreserves: the shapes passed in are fully inlined, that is, have no `$ref` of their own.
- PyString.LiteralReadsBack: octal, hexadecimal and named escapes do not occur in what is printed and are not read.

Dependencies:

- DepWaiting.DepWaiter.WaitFor: the reminder after a time limit and an action that raises are not modelled.
