# AnonNetCore, modelled and proved in Dafny

AnonNetCore is the core of a peer-to-peer network. This project models the five parts of it whose correctness is a
matter of whole runs rather than of single calls, and proves what they promise:

- **Reliable sessions** (`Reliable`, `ReliableSystem`, `SessionManager`, `SessionRuns`,
  `SessionHistory`): numbering, buffering, draining,
  acknowledging, resending and giving up, first as one receiver, then as a sender and a receiver joined by a network that
  loses, repeats and reorders, then as the session manager that holds many sessions.
- **Route construction by random walk** (`Crypto`, `RouteTable`, `RouteWalk`, `RouteNetwork`, `RouteBudget`,
  `RoutePaths`, `RouteRows`, `RouteWave`, `RouteFailing`, `RouteSucceeding`, `RouteAgreement`, `RouteChecks`,
  `RouteHandshake`): many nodes, many routes at once, walks that come back to nodes they left, path ids
  that change at every hop, messages that travel the chain both ways, and the handshake under an active attacker.
- **DHT records** (`DhtRecords`, `DrtMerge`, `DhtUnion`, `DhtMerge`, `DhtSignatures`, `DhtValidation`, `ProofOfWork`, `Closest`,
  `Ordering`): what is signed and worked for, merging with an order that puts the expiry first, the maintenance rounds that fold fragments into one validated row per key, the
  proof of work, and which nodes are responsible for a key.
- **UDP fragments** (`UdpFrames`, `UdpReassembly`, `UdpMixing`): the binary header, reassembly over whole runs, and exactly
  when two payloads come out as a third.
- **Range downloads** (`Downloads`): the client's state machine, the range server, and the two together.

Run `dafny verify dfyconfig.toml` to verify everything.

## Reading the model

Code that changes fields step by step is a class whose methods are proved equal to functions on the fields' values
(`ReliableSessionState`, `SessionManager`, `RouteService`, `DhtStore`, `UdpReassembler`, `ContentTransferService`); loops in
the source are loops here. A database table is a sequence of rows in order of their ids, and a query for one row is
"the newest valid match". A protocol is a step relation, and a run is a sequence of states joined by steps; theorems about
runs hold at every point of every run.

Clock readings, random draws (uuid4, `os.urandom`, `random.choice`), what the DHT answers, and the answers of SHA-512 and
ML-DSA are parameters. In `RouteAgreement` cryptography is a term algebra: a sealed payload opens with its secret only, and
signatures of honest nodes exist only if they were made. In the DHT modules the hash, the signature check and the
proof-of-work test are arbitrary functions that do not depend on the clock. Times are integers, except in
`UdpReassembly` and for round trips, which are reals. Hashes are naturals below 2^512.

## What turned out not to hold

- Walks end within their budget exactly when every node's configured fallback round trip is at least one millisecond
  (`RouteWalk.WalksEndExactlyWhen`). They can go on for ever exactly when two different nodes are below that
  (`RouteWalk.EndlessExactlyWhen`): the two then pass ROUTE_CREATE back and forth (`RouteWalk.BounceWanders`).
- The two translations of a route that has reached its final node invert each other from end to end exactly while the row
  of the last hop is valid (`RouteWave.TranslationsMeetExactlyWhen`), which it is while the endpoint's row is
  (`RouteWave.ValidEndpointTranslates`). Every live route with a hop whose handshake is at its beginning can come to the
  point where they do not (`RouteFailing.LiveRouteCanFail`), and from the empty network some run does
  (`RouteFailing.TranslationsNeedNotMeet`).
- An acknowledged message need not be delivered: it is exactly if every lower number has arrived
  (`ReliableSystem.AckedIsDeliveredExactlyWhen`), so nothing after a number that has not arrived is. From every reachable
  state some continuation acknowledges a message that it does not deliver (`ReliableSystem.AckedAndNotDelivered`), and another
  delivers all that was submitted, if all of it is readable (`ReliableSystem.EverythingCanBeDelivered`).
- An active route was agreed with its final node if that node is honest (`RouteAgreement.ActiveRouteWasAgreed`). With a
  dishonest one some run activates a route without any handshake (`RouteHandshake.DishonestFinalNodeNeedsNoHandshake`); it
  still carries the initiator's own signature (`RouteChecks.ActiveRouteIsSigned`).
- Sequence numbers are not reused within a session. By name they are: two messages on one name have the same number only
  if the session was deleted and made again in between (`SessionRuns.SameNumberNeedsNewSession`), and after that the next
  number is 1 again, which was given before (`SessionRuns.NamesReuseNumbers`).
- A message can be sent more often than its limit allows exactly if it is pending and its first send, which the source
  awaits, is still under way when a resend scan comes (`SessionRuns.ExceedsExactlyDuringFirstSend`, and
  `SessionRuns.ExceedsExactlyWhen` for the general state). It is exceeded by one at most (`SessionRuns.AttemptsAreCapped`),
  and, whatever the limit is, some continuation does exceed it (`SessionRuns.OverlapExceedsTheLimit`).
- A first DPT fragment whose timestamp does not parse is accepted, but what is stored as validated is the empty seed
  (`DhtValidation.FirstDpt`).
- DDT and DTT merges do not commute when parent and fragment change places, because what is kept is not validated again:
  they do exactly if every invalid holder (entry) of either side is on the other side too (`DhtMerge.DdtSwapsExactlyWhen`,
  `DhtMerge.DttSwapsExactlyWhen`; `DhtMerge.DdtSwapFails` and `DhtMerge.DttSwapFails` show where they do not). Regrouping can let in a fragment that is refused alone (`DhtMerge.DdtGroupingMatters`,
  `DhtMerge.DttGroupingMatters`). A DPT merge may be swapped exactly if the payloads are equal or their timestamps are not
  (`DhtMerge.DptSwapsExactlyWhen`, `DhtMerge.DptSwapFails`), a DPNT merge only if the payloads are equal (`DhtMerge.DpntKeepsLast`).
- Two ids are at the same distance exactly if they spell the same number (`Closest.TiedExactlyWhen`), which ids of different
  lengths can do (`Closest.SpellingsTie`) and ids written as digests do not (`Closest.DigestsHaveNoTies`). Which nodes are
  selected depends on the known ids only, and not on their order, exactly if no two are tied
  (`Closest.OrderIsIgnoredExactlyWhen`).
- Two payloads of one peer can come out as a third exactly if they have one frame id and one number of pieces, more than
  one, and differ in at least two pieces (`UdpMixing.MixesExactlyWhen`). Part 1 that arrives late restarts the frame, so what
  came before it has to come again (`UdpReassembly.PartOneRestarts`).
- A payload without entries gets its nonces attached but does not validate (`ProofOfWork.AttachedValidates`). With a difficulty
  above 512 the nonce search does not end (`ProofOfWork.BeyondTheHashNothingIsFound`).
- A second session that downloads the same content empties the partial file of the first, which then fails exactly if it
  had received something and completes exactly if it had not (`Downloads.SharedFileFailsExactlyWhen`). An announced size of
  zero is never asked for (`Downloads.NothingToAskFor`).
- A completed download can lose its file to another, because final paths keep 66 of the 128 digits of a hash. All completed
  downloads are verified at every point of a run exactly if any two contents that the run moved to one path have the same
  hash and size (`Downloads.VerifiedExactlyWhen`), and for every two that have not a run fails
  (`Downloads.CollisionShows`).

## Model

| member | source | states |
|---|---|---|
| `Reliable.Parse` | app/sessions/reliable.py:140-160 | accepts exactly the printed forms of messages with an id, a positive number, a type and an object inside, and inverts the printing, where a JSON true or false in place of the number counts as 1 or 0, as it does in Python; every other payload is an error |
| `Reliable.ParseFailsExactly` | app/sessions/reliable.py:140-160 | which of the four checks fails first, for every payload; true counts as 1, false is refused |
| `Reliable.ReliableSessionState.BuildOutbound` | app/sessions/reliable.py:78-99 | the message takes the next number, is stored under it, and the counter moves on by one |
| `Reliable.ReliableSessionState.ReceiveReliablePayload` | app/sessions/reliable.py:102-137 | the branches compute the specification of one arrival; a malformed payload changes nothing; every well-formed one is acknowledged, duplicates and buffered ones included |
| `Reliable.ReliableSessionState.DrainBuffer` | app/sessions/reliable.py:122-137 | the loop that takes consecutive messages out of the buffer computes the recursive drain |
| `Reliable.CanonicalIsUnique` | app/sessions/reliable.py:113-137 | the set of numbers received determines the whole receiver state: the least missing number, the buffer above it, the ids delivered |
| `Reliable.DrainDelivers` | app/sessions/reliable.py:122-137 | draining ends, delivers exactly the consecutive run it passes over, each message once, and leaves the canonical state |
| `Reliable.ReceiveIsCanonical` | app/sessions/reliable.py:102-137 | any arrival of a sent message, new or repeated, early or late, takes the canonical state of a set to that of the set with its number and delivers just the messages in between |
| `Reliable.ArrivalsGiveCanonicalState` | app/sessions/reliable.py:102-137 | after any arrivals from an honest stream the state is canonical and the deliveries so far are the prefix of the stream below the least missing number |
| `Reliable.ArrivalOrderIsIrrelevant` | app/sessions/reliable.py:102-137 | two sequences of arrivals with the same numbers give the same state and the same deliveries, whatever their order and repetitions |
| `Reliable.CompleteArrivalsDeliverEverything` | app/sessions/reliable.py:113-137 | once every message has arrived at least once, the whole stream has been delivered in order and the buffer is empty |
| `Reliable.ReceiveIsTidy` | app/sessions/reliable.py:102-137 | any message, from whomever, in any tidy state: reported as duplicate, as held or delivered, exactly when; what is held is never replaced or lost; a message already dealt with changes nothing |
| `Reliable.WhateverArrives` | app/sessions/reliable.py:102-137 | whatever arrives: no identifier is delivered twice, numbers are delivered in rising order, all below the expected one arrived, only what arrived is delivered or held, and nothing that arrived is lost |
| `ReliableSystem.StepKeepsInvariant` | app/sessions/reliable.py:78-137 | submitting, sending and resending anything ever submitted, giving up, losing, repeating and reordering data and acknowledgements all keep the invariant over both nodes and the network |
| `ReliableSystem.ReadAsSent` | app/sessions/reliable.py:140-160 | the receiver reads what was sent, and raises exactly for a message without id or inner type |
| `ReliableSystem.RunKeepsInvariant` | app/sessions/reliable.py:78-137 | the invariant holds at every point of every run |
| `ReliableSystem.DeliveriesAreThePrefixSent` | app/sessions/reliable.py:78-137 | at every point of every run the concatenated deliveries are exactly the messages sent with numbers below next_expected: in order, each once, nothing unsent |
| `ReliableSystem.HistoryOnlyGrows` | app/sessions/reliable.py:78-137 | later deliveries only extend earlier ones |
| `ReliableSystem.AckedIsDeliveredOrHeld` | app/sessions/manager.py:609-625 | if an acknowledgement took a number off the outbox, the receiver has delivered that message or holds exactly it in its buffer |
| `ReliableSystem.AckedIsDeliveredExactlyWhen` | app/sessions/reliable.py:107-137 | an acknowledged message is delivered if and only if every lower number has arrived |
| `ReliableSystem.AckedAndNotDelivered` | app/sessions/reliable.py:107-137 | from every reachable state, two new messages of which only the second is sent: it is acknowledged and gone from the outbox, and nothing is delivered |
| `ReliableSystem.QuietSenderMeansAllArrived` | app/sessions/manager.py:609-625 | if every number was acknowledged, everything submitted was delivered |
| `ReliableSystem.EverythingCanBeDelivered` | app/sessions/reliable.py:78-137 | from every reachable state some continuation without new messages delivers everything submitted, in order, and empties the outbox, if every message is readable |
| `ReliableSystem.UnreadableStopsDelivery` | app/sessions/reliable.py:140-160 | in every run only readable messages arrive and are delivered |
| `SessionManager.SessionManager.CreateSession` | app/sessions/manager.py:71-117 | a name in use is an error and changes nothing; otherwise both indexes get the session under a new internal id |
| `SessionManager.SessionManager.DeleteSession` | app/sessions/manager.py:563-570 | the session leaves both indexes together with its reliable state; reports whether it was there |
| `SessionManager.SessionManager.PrepareReliableOutbound` | app/sessions/manager.py:575-594 | fails for an unknown session; otherwise makes the reliable state on first use and numbers the message |
| `SessionManager.SessionManager.MarkReliableOutboundSent` | app/sessions/manager.py:596-607 | counts an attempt for a pending message and does nothing for any other |
| `SessionManager.SessionManager.MarkReliableOutboundAcked` | app/sessions/manager.py:609-625 | removes the message only if number and id both match |
| `SessionManager.SessionManager.ListDueReliableMessages` | app/core/runtime/session_runtime.py:114-149 | the loop fails every pending message that used its attempts, sets the delay of the others, leaves the rest alone, and lists exactly the due ones; `SessionHistory.ScanListsExactly` and `SessionHistory.ScanGivesUp` say by dates and attempts which those are |
| `SessionManager.SessionManager.ScanMessage` | app/core/runtime/session_runtime.py:118-144 | one message of the scan: given up at its limit, otherwise its delay is set and it is listed exactly if it is due, which the same two lemmas spell out |
| `SessionManager.ApplyKeepsConsistent` | app/sessions/manager.py:71-117 | every operation keeps the two indexes one to one, reliable states only for live sessions, and outbound numbers below the counter |
| `SessionRuns.RunIsConsistent` | app/sessions/manager.py:71-117 | the above at every point of every run, with every number issued below the counter of its session |
| `SessionRuns.NumbersAreNew` | app/sessions/manager.py:575-594 | a number given to a message was never given before in the same session, whatever was acknowledged, failed or deleted in between |
| `SessionRuns.NumberIsCount` | app/sessions/manager.py:575-594 | in every run the next number on a live name is the number of messages prepared on it since its session was made, and one |
| `SessionRuns.SameNumberNeedsNewSession` | app/sessions/manager.py:563-594 | two messages on one name have the same number only if a deletion and a creation of that name lie between them |
| `SessionRuns.NamesReuseNumbers` | app/sessions/manager.py:563-594 | after a deletion and a creation the next number is 1 again, and if anything was prepared on the name before, 1 was given before |
| `SessionRuns.SettledStaysSettled` | app/sessions/manager.py:596-679 | no operation makes a message pending again that was issued and is acknowledged, failed or gone |
| `SessionRuns.SettledForever` | app/sessions/manager.py:596-679 | the same for every continuation of every run |
| `SessionRuns.SettledIsNotDue` | app/sessions/reliable.py:27-37 | what is not pending is never listed as due |
| `SessionRuns.StepKeepsCap` | app/core/runtime/session_runtime.py:114-149 | attempts counted plus sends under way stay within the limit, or within the limit and one if a scan may overlap a first send |
| `SessionRuns.AttemptsAreCapped` | app/core/runtime/session_runtime.py:114-149 | in every run attempts are at most the limit plus one, and at most the limit if no scan lists a message whose first send is under way |
| `SessionRuns.OverlapExceedsTheLimit` | app/core/runtime/session_runtime.py:114-149 | from every state in which the first send of a pending message within its limit is under way, some continuation ends with exactly one attempt more than the limit, whatever the limit is |
| `SessionRuns.ExceedsExactlyWhen` | app/core/runtime/session_runtime.py:114-149 | some continuation takes a message over its limit if and only if it is over it already, or is pending with its first send under way, or is pending with a resend under way that takes it over |
| `SessionRuns.ExceedsExactlyDuringFirstSend` | app/core/runtime/session_runtime.py:114-149 | between scans, for a message within its limit: if and only if it is pending and its first send is under way |
| `SessionHistory.PreparedIsStored` | app/sessions/manager.py:575-594 | a prepared message is stored under the next number with everything asked for, unsent and pending |
| `SessionHistory.MessageTellsItsTrail` | app/sessions/manager.py:596-607 | in every run a message has as many attempts as sends were counted since it was made, and the date of the last one |
| `SessionHistory.ScanListsExactly` | app/core/runtime/session_runtime.py:114-149 | in every run a scan lists a message if and only if it is there, neither acknowledged nor failed, was sent less often than its limit, and was never sent or last sent at least the delay before the scan |
| `SessionHistory.ScanGivesUp` | app/core/runtime/session_runtime.py:118-136 | a scan fails exactly the pending messages that used their attempts, with the date and the reason, and changes nothing else but the delay of the other pending ones |
| `SessionHistory.TicketEventsSettle` | app/sessions/manager.py:596-679 | sending, acknowledging and failing concern one message only; an acknowledgement removes it exactly if the id matches; a failure settles a pending message and nothing settled changes |
| `SessionHistory.SessionsAreApart` | app/sessions/manager.py:71-117 | an event about one session leaves every other session, its indexes and its reliable state as they were |
| `SessionHistory.CreatedIsNew` | app/sessions/manager.py:71-117 | a creation succeeds exactly if the name is not live; the session has the scope asked for, an id that no live session has, and an empty reliable state |
| `SessionHistory.InboxIsOfArrivals` | app/sessions/manager.py:627-637 | in every run the receiver of a live session is what the messages that reached it since its creation make of it, in their order |
| `SessionHistory.ArrivalDelivers` | app/sessions/manager.py:627-637 | an arrival fails exactly for an unknown session or a malformed payload, and otherwise delivers what it adds to the deliveries of all arrivals of its session |
| `SessionHistory.SessionDeliversItsStream` | app/sessions/manager.py:627-637 | in every run of the manager: if what reached a live session comes from an honest stream, the session has delivered the stream up to the first missing number |
| `RouteTable.Newest` | app/route/service.py:49-79 | the valid matching row with the largest id, or none if there is none |
| `RouteTable.RouteService.CreateHopResolution` | app/route/service.py:18-47 | adds one valid row, which both lookups then find |
| `RouteTable.RouteService.CreateEndpointResolution` | app/route/service.py:114-140 | adds one valid row, which the lookup by its path id then finds |
| `RouteTable.RouteService.CreateInitiatorResolution` | app/route/service.py:236-271 | adds one valid row, which the lookup by its initial path id then finds |
| `RouteTable.RouteService.InvalidateResolution` | app/route/service.py:81-112 | invalidates the newest valid match and nothing else; reports it; no row moves, changes identity or becomes valid (the same for the endpoint and initiator queries at lines 176-204 and 380-408) |
| `RouteTable.RouteService.UpdateInitiatorValidationPayload` | app/route/service.py:429-459 | fills in the claim on the newest valid match and nothing else |
| `RouteTable.RouteService.MarkInitiatorActive` | app/route/service.py:461-491 | makes the newest valid match active with the path id and signature given, and nothing else |
| `RouteTable.RouteService.UpdateEndpointValidationContext` | app/route/service.py:493-538 | stores the context of the ping on the newest valid match and nothing else |
| `RouteTable.RouteService.MarkEndpointActive` | app/route/service.py:540-562 | makes the newest valid match active and nothing else |
| `RouteTable.InvalidateHits` | app/route/service.py:81-112 | when at most one row can match, invalidation hits exactly that row, if it is still valid |
| `RouteWalk.Eligibles` | app/core/routing_strategies/random_walk_ttl.py:1736-1877 | exactly the candidates that are neither final nor previous and whose one-way time is below the budget |
| `RouteWalk.FirstCandidate` | app/core/routing_strategies/random_walk_ttl.py:1736-1877 | the first candidate for the node that is within the limit, if there is a limit; none exactly if there is none |
| `RouteWalk.WandersWhileItCan` | app/core/routing_strategies/random_walk_ttl.py:1736-1877 | an intermediary is chosen exactly if one fits the budget; the final node only if none does; the previous node only if, moreover, the final node is not known |
| `RouteWalk.SelectionExactly` | app/core/routing_strategies/random_walk_ttl.py:1736-1877 | the node, the round trip and the reason of the choice in each of the six cases, said by what the node knows, the budget and the fallback alone |
| `RouteWalk.EveryoneCanBeDrawn` | app/core/routing_strategies/random_walk_ttl.py:1736-1877 | every candidate that is neither final nor previous and can be afforded is chosen by some draw |
| `RouteWalk.BudgetLeft` | app/core/routing_strategies/random_walk_ttl.py:1542-1543 | the budget left is the largest whole number not above the budget less half the round trip, and at least 1 |
| `RouteWalk.ForwardSpendsBudget` | app/core/routing_strategies/random_walk_ttl.py:1526-1574 | with a fallback of at least 1, a forward to a node that is not final strictly lowers the budget, keeps it positive, and costs less than was left |
| `RouteWalk.WalkIsBounded` | app/core/routing_strategies/random_walk_ttl.py:1526-1574 | a walk with budget T over nodes with fallbacks of at least 1 makes fewer than T forwards to non-final nodes and their one-way times add up to less than T |
| `RouteWalk.BudgetIsNotLost` | app/core/routing_strategies/random_walk_ttl.py:1526-1574 | over every walk the last budget exceeds the first less the halved round trips less one for each forward, and is not above the first less the halved round trips unless it is 1 |
| `RouteWalk.BounceWanders` | app/core/routing_strategies/random_walk_ttl.py:1736-1877 | between any two nodes with fallbacks below 1, other than the final one, walks of every length are possible |
| `RouteWalk.WalksEndExactlyWhen` | app/core/routing_strategies/random_walk_ttl.py:1526-1574 | every walk is bounded by its budget if and only if the fallback of every node is at least 1 |
| `RouteWalk.LastResort` | app/core/routing_strategies/random_walk_ttl.py:1736-1877 | with the budget used up, a message that does not go to the final node goes back to the previous one, from a node with a fallback below 1 |
| `RouteWalk.EndlessExactlyWhen` | app/core/routing_strategies/random_walk_ttl.py:1736-1877 | for some budget and final node there are walks of every length, in which no node gets the message from itself, if and only if two different nodes have fallbacks below 1 |
| `RouteNetwork.HopRowIsUnique` | app/route/service.py:65-79 | a path id was generated by one hop of one route: at most one row of one node matches it |
| `RouteNetwork.ReceivedRowIsUnique` | app/route/service.py:49-63 | a path id was received by one hop of one route |
| `RouteNetwork.FailPicksTheHop` | app/route/service.py:81-112 | although the query for a FAIL matches received and generated ids, it hits the hop that generated the id, because the hop behind it is already invalid |
| `RouteNetwork.StepKeepsInvariant` | app/core/routing_strategies/random_walk_ttl.py:106-400 | starting, extending, arriving, relaying and handling in both directions, DHT waits, routes given up by their initiator's maintenance, and losses, for any number of interleaved routes with revisited nodes, keep every row in exactly one place of one route and every message on its route |
| `RouteNetwork.RunKeepsInvariant` | app/core/routing_strategies/random_walk_ttl.py:106-400 | the invariant holds at every point of every run |
| `RouteNetwork.FailedStartKeepsInvariant` | app/core/protocol_clients/physical/route_build.py:12-112 | a first hop that cannot be reached leaves an invalid initiator row and keeps the invariant |
| `RouteBudget.RoutesAreWalks` | app/core/routing_strategies/random_walk_ttl.py:1526-1574 | in every run every route is a walk: its nodes are those that forwarded its request, each chosen by the one before, each with the budget left by the one before |
| `RouteBudget.BudgetIsWhatIsLeft` | app/core/routing_strategies/random_walk_ttl.py:1526-1574 | in every run the request of a route has its first budget less the halved round trips of its forwards, up to one millisecond of rounding each, and no more unless it is 1 |
| `RouteBudget.EveryRequestHadWork` | app/core/routing_strategies/random_walk_ttl.py:106-131 | in every run, at every node that forwarded the request of a route and at the final node that took it up, the request as it came there passed the test of its work |
| `RouteRows.RunKeepsStatuses` | app/route/service.py:81-112 | in every run every row has a status of its kind, and is valid exactly if that is not the invalid one |
| `RouteRows.EndsShareTheNonce` | app/core/routing_strategies/random_walk_ttl.py:435-488 | in every run the rows at both ends of a route have the nonce that it was asked for with |
| `RouteRows.RefusedChangesNothing` | app/core/routing_strategies/random_walk_ttl.py:490-872 | a message that is meant for this node and does not pass its checks changes nothing at all |
| `RouteRows.EndsBeginWithWhatTheyKnow` | app/core/routing_strategies/random_walk_ttl.py:435-488 | starting and arriving each add one row with everything the node knows; a start that is not delivered leaves its row invalid |
| `RoutePaths.ReverseAt` | app/core/routing_strategies/random_walk_ttl.py:1699-1734 | at position j of a route the reverse lookup gives position j-1 while the row is valid, and nothing otherwise |
| `RoutePaths.AheadAt` | app/core/routing_strategies/random_walk_ttl.py:1667-1697 | the same for the forward lookup and position j+1 |
| `RoutePaths.LookupsAreInverse` | app/core/routing_strategies/random_walk_ttl.py:1667-1734 | at every node of every reachable state the two lookups are inverse to each other |
| `RouteWave.StepKeepsWave` | app/core/routing_strategies/random_walk_ttl.py:277-321 | every step keeps the dead hops of every route a suffix of it, with a dead endpoint row, also when a FAIL is lost on the way |
| `RouteWave.RunKeepsWave` | app/core/routing_strategies/random_walk_ttl.py:277-321 | so it is at every point of every run |
| `RouteWave.TranslationsMeetExactlyWhen` | app/core/routing_strategies/random_walk_ttl.py:1667-1734 | in every reachable state, for every route that has reached its final node, the two translations invert each other from end to end if and only if there is no hop or the row of the last one is valid |
| `RouteWave.ValidEndpointTranslates` | app/core/routing_strategies/random_walk_ttl.py:1667-1734 | in every reachable state in which the endpoint's row is valid, a backward message from the final node ends at the initiator under its initial path id, a forward message ends at the final node under the endpoint's path id, the stops are the same in opposite order, and no number of lookups leads further |
| `RouteFailing.CarryBack` | app/core/routing_strategies/random_walk_ttl.py:1699-1734 | from every reachable state, a message other than FAIL that is anywhere on a live route on its way back can be relayed to the initiator, and nothing but the messages in flight changes |
| `RouteFailing.CarryOn` | app/core/routing_strategies/random_walk_ttl.py:1667-1697 | the same for a message on its way to the final node |
| `RouteFailing.LiveRouteCanFail` | app/core/routing_strategies/random_walk_ttl.py:177-400 | from every reachable state in which a live route with a hop, of whatever length, has its key offer under way, some continuation ends with a dead last hop, and then the two translations do not meet |
| `RouteFailing.TranslationsNeedNotMeet` | app/core/routing_strategies/random_walk_ttl.py:106-400 | a run from the empty network, for any initiator and any two different nodes, that ends so |
| `RouteFailing.LiveRouteCanDie` | app/core/routing_strategies/random_walk_ttl.py:277-321 | from the same states some continuation carries the FAIL all the way until no row of the route is valid |
| `RouteSucceeding.LiveRouteCanSucceed` | app/core/routing_strategies/random_walk_ttl.py:177-400 | from every reachable state in which a live route, of whatever length, has its key offer under way, some continuation makes both ends active, with the claim, the confirmed path and signature and the context of the ping, all rows valid and the translations meeting |
| `RouteSucceeding.PublicationFails` | app/core/routing_strategies/random_walk_ttl.py:1049-1410 | a publication that is not stored ends the endpoint's row and sends a FAIL to the last hop, with every hop still valid |
| `RouteSucceeding.InitiatorGivesUp` | app/core/routing_strategies/random_walk_ttl.py:733-848 | an entry that is not visible ends the initiator's row and changes no other row and no message |
| `RoutePaths.MessagesStayOnRoute` | app/core/routing_strategies/random_walk_ttl.py:177-400 | every message in flight is addressed to the node its path id stands for on its own route |
| `RoutePaths.RequestIsUnchanged` | app/core/routing_strategies/random_walk_ttl.py:1569-1574 | in every run a ROUTE_CREATE in flight has the final node and the nonce of its route |
| `RoutePaths.RouteKeepsRequest` | app/core/routing_strategies/random_walk_ttl.py:1569-1574 | a route keeps its final node and its nonce from its start on |
| `RoutePaths.FailLeavesDeadRows` | app/core/routing_strategies/random_walk_ttl.py:277-321 | when a FAIL has come back to hop j, the endpoint row and all hop rows behind it are invalid |
| `RoutePaths.FailAtInitiatorKillsRoute` | app/core/routing_strategies/random_walk_ttl.py:874-906 | when the initiator has handled it, no row of the route is valid |
| `RoutePaths.OnlyItsRouteIsTouched` | app/core/routing_strategies/random_walk_ttl.py:277-321 | a handled message, FAIL or other, changes rows of its own route only |
| `RoutePaths.RetireTouchesOneRow` | app/core/runtime/virtual_route_maintenance.py:281-360 | giving up a route invalidates the initiator's row of that route and changes no other row of any node |
| `RoutePaths.RetiredIsInvalid` | app/core/runtime/virtual_route_maintenance.py:281-360 | and afterwards the initiator has no valid row for that route |
| `RoutePaths.StepKeepsRow` | app/route/service.py:81-112 | no step moves a row, gives it another identity or makes it valid again |
| `RoutePaths.InvalidIsAbsorbing` | app/route/service.py:81-112 | an invalid row is invalid at every later point of the run |
| `RoutePaths.EndedRouteIsFixed` | app/core/routing_strategies/random_walk_ttl.py:435-488 | a route that reached its final node keeps its nodes, path ids and rows for the rest of the run |
| `RoutePaths.FailedRouteStaysDead` | app/core/routing_strategies/random_walk_ttl.py:874-906 | after the FAIL reached the initiator all rows of the route are invalid for ever |
| `RoutePaths.RunKeepsBudgets` | app/core/routing_strategies/random_walk_ttl.py:1526-1574 | in every run of a network whose nodes have fallbacks of at least 1, each its own, the hops a route has made and the budget it has left stay within the budget it began with |
| `RoutePaths.RoutesAreBounded` | app/core/routing_strategies/random_walk_ttl.py:1526-1574 | no route of any such run has more hops than its first budget |
| `RouteAgreement.OpenedOkIsVouched` | app/core/routing_strategies/random_walk_ttl.py:733-848 | a payload that opens under the initiator's secret as an OK was sealed by the chosen final node, which vouched for its triple |
| `RouteAgreement.StepKeepsInvariant` | app/core/routing_strategies/random_walk_ttl.py:490-872 | all handlers of honest nodes keep the agreement invariant although an attacker chooses what is delivered, to whom, under which path id and how often |
| `RouteAgreement.RunKeepsInvariant` | app/core/routing_strategies/random_walk_ttl.py:490-872 | the invariant holds at every point of every run |
| `RouteAgreement.VouchedIsHandshake` | app/core/routing_strategies/random_walk_ttl.py:1049-1410 | an OK stands for ping, pong with the ping's id within the upper bound, publication reported as stored, and the OK, in this order and for one context |
| `RouteAgreement.ActiveRouteWasAgreed` | app/core/routing_strategies/random_walk_ttl.py:733-848 | an active initiator row carries the virtual node, final path id and signature of an OK that the chosen final node issued after all of that |
| `RouteAgreement.ActivationComesLast` | app/core/routing_strategies/random_walk_ttl.py:733-848 | the whole handshake at the final node comes before the activation |
| `RouteChecks.ActiveRouteIsSigned` | app/core/routing_strategies/random_walk_ttl.py:733-848 | in every run, whoever the final node is: an active row carries its virtual node's signature on exactly its final path and final node and was asked for with a budget; if the final node is honest, it has a row with the route's nonce |
| `RouteChecks.ContextsAreSigned` | app/core/routing_strategies/random_walk_ttl.py:594-731 | in every run a final node's ping context was signed by the virtual node for this final node, has a positive budget, and goes with this node's own signatures on it and on the nonce |
| `RouteChecks.TraceWasDone` | app/core/routing_strategies/random_walk_ttl.py:490-872 | every event of the trace was done by an earlier step with the same data: a request opened, a pong received, a publication reported stored, an entry reported visible |
| `RouteChecks.FailureEndsItsRow` | app/core/routing_strategies/random_walk_ttl.py:874-906 | a pong that is late or has another id, an entry not stored or not visible, and a FAIL each invalidate one row and change, seal, sign and report nothing else |
| `RouteChecks.RelayedIsNotHandled` | app/core/routing_strategies/random_walk_ttl.py:177-276 | a message that this node relays is not handled by it |
| `RouteChecks.OtherKeysOpenNothing` | app/core/routing_strategies/random_walk_ttl.py:594-731 | a request sealed for the holder of another key changes nothing |
| `RouteChecks.RequestMakesItsRow` | app/core/routing_strategies/random_walk_ttl.py:435-488 | a request adds exactly the row its node needs: a hop, or at the final node an endpoint with a signed key offer |
| `RouteHandshake.HandshakeSucceeds` | app/core/routing_strategies/random_walk_ttl.py:435-848 | between two honest nodes, with an answer in time and a stored and visible publication, eight steps from the beginning lead to an active row with what the initiator chose |
| `RouteHandshake.DishonestFinalNodeNeedsNoHandshake` | app/core/routing_strategies/random_walk_ttl.py:733-848 | with any final node that is not honest, a run that activates the route without a ping, a pong or a publication |
| `DrtMerge.DeduplicateRouteEntries` | app/dht/merge.py:460-483 | the loop over a dictionary and the sort give the specification, strictly increasing in final path id |
| `DrtMerge.DeduplicateKeepsBest` | app/dht/merge.py:460-497 | deduplication invents nothing, keeps one entry per final path id, and keeps for each path id the best rank (expiry, round trip, key) |
| `DrtMerge.OutranksIsStrictTotalOrder` | app/dht/merge.py:486-497 | the order on ranks is strict and total |
| `DrtMerge.BestIsUnique` | app/dht/merge.py:486-497 | a path id has at most one best rank |
| `DrtMerge.LosersDoNotMatter` | app/dht/merge.py:460-497 | leaving out entries that another entry for the same path id at least equals changes no best rank |
| `DrtMerge.BestOfLive` | app/dht/merge.py:486-542 | because the expiry is compared first, the best rank among the entries still live later is the best rank of all, if that is still live |
| `DrtMerge.MergeThenWait` | app/dht/merge.py:64-102 | a merge now, read later, has the best ranks of both lists read later |
| `DrtMerge.FoldedIsBestOfAll` | app/dht/merge.py:64-102 | the same for any number of fragments, with clock readings in any order and refused fragments on the way |
| `DrtMerge.MergingEarlyIsHarmless` | app/dht/merge.py:64-102 | merging fragments one at a time at clock readings up to T and reading at T gives, per final path id, the best rank of one merge of everything at T |
| `DrtMerge.MergeIsBestOfBoth` | app/dht/merge.py:64-102 | the merge has the best rank per final path id of all live entries of both sides, only live ones, strictly sorted; `DhtSignatures.DrtHoldsTheSound` says by signatures, work and expiry which those are |
| `DrtMerge.MergeCommutes` | app/dht/merge.py:64-102 | commutative at a fixed clock, up to rank ties |
| `DrtMerge.MergeAssociates` | app/dht/merge.py:64-102 | associative at a fixed clock, up to rank ties |
| `DrtMerge.MergeIsIdempotent` | app/dht/merge.py:64-102 | merging a fragment again changes no best rank |
| `DhtUnion.DeduplicateExact` | app/dht/merge.py:500-535 | every element of the input exactly once, sorted by its key |
| `DhtUnion.MergeIsUnion` | app/dht/merge.py:105-152 | for any kind of part: accepted exactly if the fragment is empty or has a valid part, and then the union of what was kept and what is valid |
| `DhtUnion.MergeIsSorted` | app/dht/merge.py:500-535 | what is kept is sorted and has nothing twice |
| `DhtUnion.FragmentsCommute` | app/dht/merge.py:105-152 | two accepted fragments in either order, and again, give the same set |
| `DhtUnion.GroupsAgree` | app/dht/merge.py:105-152 | when a merged fragment is accepted, exactly, and that both groupings hold the same |
| `DhtUnion.SwapsExactlyWhen` | app/dht/merge.py:105-152 | parent and fragment may be swapped if and only if everything invalid on either side is on the other side too |
| `DhtUnion.SwapFails` | app/dht/merge.py:105-152 | for any invalid x and valid y, parent [x, y] and fragment [y] are accepted both ways and differ |
| `DhtMerge.HoldersAreOrdered` | app/dht/merge.py:500-515 | the sort key of holders is an order, so the deduplication applies to them |
| `DhtMerge.DttEntriesAreOrdered` | app/dht/merge.py:518-535 | the same for DTT entries |
| `DhtMerge.DdtMergeAccepts` | app/dht/merge.py:105-128 | a merge is accepted exactly for the same title, type and tags and a fragment that is empty or has a valid holder |
| `DhtMerge.DdtMergeIsUnion` | app/dht/merge.py:105-128 | an accepted merge holds exactly what the parent held and the fragment's holders that are valid now, under the same description |
| `DhtMerge.DttMergeAccepts` | app/dht/merge.py:131-152 | a merge is accepted exactly for a fragment that is empty or has a valid entry |
| `DhtMerge.DttMergeIsUnion` | app/dht/merge.py:131-152 | an accepted merge holds exactly what the parent held and the fragment's entries that are valid now |
| `DhtMerge.DttFragmentsCommute` | app/dht/merge.py:131-152 | two accepted fragments may come in either order, and again, without changing the set of entries, and neither makes the other refused |
| `DhtMerge.DttMergeAssociates` | app/dht/merge.py:131-152 | for a fragment accepted alone, both groupings are accepted together and hold the same entries |
| `DhtMerge.DttGroupingMatters` | app/dht/merge.py:131-152 | a merged fragment is accepted exactly if its first part is accepted alone or its second part is not empty |
| `DhtMerge.DttSwapsExactlyWhen` | app/dht/merge.py:131-152 | parent and fragment may be swapped if and only if every invalid entry of either side is on the other side too |
| `DhtMerge.DttSwapFails` | app/dht/merge.py:131-152 | the same for entries |
| `DhtMerge.DdtFragmentsCommute` | app/dht/merge.py:105-128 | two accepted fragments may come in either order, and again, without changing the set of holders, and neither makes the other refused |
| `DhtMerge.DdtMergeAssociates` | app/dht/merge.py:105-128 | for a fragment accepted alone, both groupings are accepted together and hold the same holders |
| `DhtMerge.DdtGroupingMatters` | app/dht/merge.py:105-128 | a merged fragment of the right description is accepted exactly if its first part is accepted alone or its second part is not empty |
| `DhtMerge.DdtSwapsExactlyWhen` | app/dht/merge.py:105-128 | parent and fragment may be swapped if and only if every invalid holder of either side is on the other side too |
| `DhtMerge.DdtSwapFails` | app/dht/merge.py:105-128 | holders x, invalid, and y, valid: [x, y] and [y] are accepted both ways and differ |
| `DhtMerge.DptKeepsLatest` | app/dht/merge.py:155-176 | two accepted fragments in either order end with the same last_modified, the latest of all, up to equal timestamps |
| `DhtMerge.DptMergeAssociates` | app/dht/merge.py:155-176 | both groupings give exactly the same payload, and are accepted together for a fragment accepted alone |
| `DhtMerge.DptSwapsExactlyWhen` | app/dht/merge.py:155-176 | parent and fragment may be swapped if and only if they are equal or their timestamps are not |
| `DhtMerge.DptSwapFails` | app/dht/merge.py:155-176 | two different valid payloads of one key under one timestamp: either order keeps the first |
| `DhtMerge.DpntKeepsLast` | app/dht/merge.py:47-61 | an accepted merge is its fragment: idempotent, the same in both groupings, and commutative only for equal payloads |
| `DhtSignatures.DrtAcceptedExactlyWhen` | app/dht/merge.py:64-103 | a DRT merge is accepted if and only if both sides are the record of one virtual node, under its key, and the fragment is empty or has an entry with five verified signatures, its work and time left |
| `DhtSignatures.DrtHoldsTheSound` | app/dht/merge.py:241-327 | the merged record holds such entries of either side only, one for each path, sorted, and for every such entry one that expires later, or is faster under the same expiry, or comes first by key |
| `DhtSignatures.UnsoundIsNotThere` | app/dht/merge.py:241-327 | an entry with any one signature refuted, or without work, or expired, may as well be left out, wherever it stands on either side: the merge is the same |
| `DhtSignatures.AlteredEntryIsUnsound` | app/dht/merge.py:263-320 | if a signature verifies for one statement only, an entry altered in its path, expiry or round trip and not signed anew is never accepted |
| `DhtSignatures.DdtHoldsTheSound` | app/dht/merge.py:105-129 | a DDT merge is accepted if and only if the descriptions agree and the fragment is empty or has a signed, worked-for, unexpired holder; it then holds what was kept and exactly those holders, sorted, each once |
| `DhtSignatures.DttHoldsTheSound` | app/dht/merge.py:131-153 | the same for DTT entries |
| `DhtSignatures.AlteredHolderIsUnsound` | app/dht/merge.py:431-458 | a holder's signature is good for its key and expiry only |
| `DhtSignatures.AlteredDttEntryIsUnsound` | app/dht/merge.py:400-429 | an entry's signature is good for its key, resource, dates only |
| `DhtSignatures.DptAcceptedExactlyWhen` | app/dht/merge.py:155-177 | a DPT fragment is accepted if and only if it is under its key, signed and worked for, and replaces the parent exactly if it is newer |
| `DhtSignatures.DpntAcceptedExactlyWhen` | app/dht/merge.py:47-62 | a DPNT fragment is accepted if and only if it is under its key, signed and worked for |
| `DhtSignatures.AlteredDptIsRefused` | app/dht/merge.py:370-398 | whatever is altered in an accepted DPT record other than its nonce needs a new signature |
| `DhtSignatures.AlteredDpntIsRefused` | app/dht/merge.py:329-368 | the same for DPNT |
| `DhtValidation.Oldest` | app/core/runtime/dht_maintenance.py:46-53 | the pending row with the smallest creation time, the first of those, or none |
| `DhtValidation.Parent` | app/core/runtime/dht_maintenance.py:63-69 | the validated row for the key with the latest validation, the last of those, or none exactly if there is none |
| `DhtValidation.StartIsGood` | app/core/runtime/dht_maintenance.py:42-130 | any table with at most one validated row per key satisfies the invariant with each row standing for itself |
| `DhtValidation.RoundKeepsInvariant` | app/core/runtime/dht_maintenance.py:42-130 | a round keeps one validated row per key, its payload the fold of the merge over the fragments accepted for the key, its expiry the fold of the preferred expiry |
| `DhtValidation.RunKeepsInvariant` | app/core/runtime/dht_maintenance.py:42-130 | the same for every run of rounds and incoming fragments |
| `DhtValidation.RefusalLeavesValidatedRows` | app/core/runtime/dht_maintenance.py:86-97 | a refused fragment changes no validated row |
| `DhtValidation.RoundConsumesTheOldest` | app/core/runtime/dht_maintenance.py:42-130 | a round takes exactly one fragment away, the oldest, whether accepted or refused |
| `DhtValidation.FoldExpiryIsLatest` | app/core/runtime/dht_maintenance.py:279-290 | the expiry of a validated row is the latest of those it was made from, and absent exactly if all are |
| `DhtValidation.ValidatedDrtIsBestOfAccepted` | app/core/runtime/dht_maintenance.py:71-84 | a validated DRT record read later has, per final path id, the best rank of everything ever accepted for its key |
| `DhtValidation.DdtFoldIsUnion` | app/core/runtime/dht_maintenance.py:71-84 | a validated DDT record has exactly the holders it began with and those valid when their fragment was accepted |
| `DhtValidation.DttFoldIsUnion` | app/core/runtime/dht_maintenance.py:71-84 | a validated DTT record has exactly the entries it began with and those valid when their fragment was accepted |
| `DhtValidation.DptFoldIsLatest` | app/core/runtime/dht_maintenance.py:71-84 | a validated DPT record is one of the payloads it was made from, and none of the others is newer |
| `DhtValidation.DpntFoldIsLast` | app/core/runtime/dht_maintenance.py:71-84 | a validated DPNT record is the fragment accepted last |
| `DhtValidation.FirstDrt` | app/core/runtime/dht_maintenance.py:219-278 | a first DRT fragment is accepted if and only if it is in its table, under its key, and empty or with a sound entry; it becomes the best of its own live entries |
| `DhtValidation.FirstDdt` | app/core/runtime/dht_maintenance.py:219-278 | a first DDT fragment is accepted if and only if it is in its table and empty or with a sound holder; it keeps its description and exactly its sound holders |
| `DhtValidation.FirstDpt` | app/core/runtime/dht_maintenance.py:219-278 | a first DPT fragment is accepted if and only if it is in its table, under its key, signed and worked for; it is stored as it is if and only if its last_modified parses, and otherwise the seed is stored as validated |
| `DhtValidation.FirstDtt` | app/core/runtime/dht_maintenance.py:259-262 | a first DTT fragment is accepted if and only if it is in its table and empty or with a sound entry; it keeps exactly its sound entries |
| `DhtValidation.FirstDpnt` | app/core/runtime/dht_maintenance.py:222-239 | a first DPNT fragment is accepted if and only if it is in its table, under its key, signed and worked for, and is stored as it is |
| `DhtValidation.RoundBeginsRecord` | app/core/runtime/dht_maintenance.py:99-122 | a round on the first fragment of a key adds one validated row with what became of it, or nothing if it is refused |
| `DhtValidation.RoundMergesRecord` | app/core/runtime/dht_maintenance.py:112-122 | a round on a further fragment makes the validated row the merge, with the fragment's source, the date and the later expiry, or changes nothing if it is refused |
| `DhtValidation.FragmentsAreConserved` | app/core/runtime/dht_maintenance.py:42-130 | in every run no fragment is lost: what was pending or came in is pending still or was taken by a round |
| `DhtValidation.RoundsDealWithAll` | app/core/runtime/dht_maintenance.py:42-130 | as many rounds in a row as there are pending fragments leave none |
| `DhtValidation.DhtStore.constructor` | app/core/runtime/dht_maintenance.py:42-61 | the table as found, with the invariant |
| `DhtValidation.DhtStore.ValidateLocalRecords` | app/core/runtime/dht_maintenance.py:42-130 | one round, branch by branch, is the specified round and keeps the invariant; the rows below and above say what a round does to a first and to a further fragment |
| `ProofOfWork.DifficultyIsThreshold` | app/dht/pow.py:322-332 | the test on the zero-filled bit string accepts exactly the hashes below 2^(512-d) for d in 1..512, all for d up to 0, none above 512 |
| `ProofOfWork.EasierIsMet` | app/dht/pow.py:322-332 | what passes a difficulty passes every lower one |
| `ProofOfWork.LeastNonce` | app/dht/pow.py:367-389 | the loop returns the least accepted nonce |
| `ProofOfWork.LeastNonces` | app/dht/pow.py:49-92 | the least accepted nonce of every part |
| `ProofOfWork.BeyondTheHashNothingIsFound` | app/dht/pow.py:367-389 | above 512 bits no nonce is accepted, so the loop does not end |
| `ProofOfWork.Attach` | app/dht/pow.py:49-92 | fails exactly for unsupported payloads and for DRT entries without a virtual node; otherwise changes nothing but nonces, and each becomes the least one accepted for the material of its own part, which `ProofOfWork.MaterialsTellPartsApart` ties to the part |
| `ProofOfWork.NoncesAreNotHashed` | app/dht/pow.py:335-364 | payloads that differ in nonces only have the same hashed material; the next two rows are the converse |
| `ProofOfWork.MaterialsTellPartsApart` | app/dht/pow.py:335-364 | two parts, of whatever payloads at whatever places, have the same hashed material if and only if they are the same part up to the nonce, of the same virtual node's record, under the same key |
| `ProofOfWork.MaterialsTellPayloadsApart` | app/dht/pow.py:335-364 | payloads with the same materials are of one kind, under one key, with the same parts up to nonces |
| `ProofOfWork.ValidatesExactlyWhenMergeable` | app/dht/pow.py:118-156 | a payload validates if and only if it is in its table and every part of it, of which there is one, has the work that the merge asks of that part; an error exactly for route entries without a virtual node |
| `ProofOfWork.AttachedValidates` | app/dht/pow.py:118-156 | a payload with attached nonces validates if and only if it has at least one part to validate |
| `ProofOfWork.ValidationTestsEveryPart` | app/dht/pow.py:118-156 | validation succeeds exactly if there is a part and every part's nonce is not negative and its hash below the threshold |
| `ProofOfWork.FindValidNonce` | app/core/routing_strategies/random_walk_ttl.py:33-55 | returns the least nonce accepted on the probe payload |
| `ProofOfWork.OnlyTheRequestIsTested` | app/core/routing_strategies/random_walk_ttl.py:2168-2177 | the test depends on the final node's key and the nonce only, so neither the time left nor the path id matters, nor a lower difficulty |
| `ProofOfWork.RouteWorkIsThreshold` | app/core/routing_strategies/random_walk_ttl.py:2119-2166 | a request is accepted if and only if the hash of its final node's key and its nonce is below the threshold of the difficulty |
| `ProofOfWork.RequestsAreToldApart` | app/core/routing_strategies/random_walk_ttl.py:2168-2177 | requests have the same hashed material if and only if they ask for the same final node |
| `ProofOfWork.RouteNonceTravels` | app/core/routing_strategies/random_walk_ttl.py:106-131 | in every run of the network, the ROUTE_CREATE of a route started with a nonce found on the probe passes the test of every node it reaches that asks for no more work |
| `Closest.XorBits` | app/dht/service.py:53-57 | every bit of the distance tells whether the two ids differ there |
| `Closest.XorSymmetric` | app/dht/service.py:53-57 | the distance is symmetric |
| `Closest.XorHasNoTies` | app/dht/service.py:53-57 | two different numbers are never at the same distance from a third |
| `Closest.HexValueIsInjective` | app/dht/service.py:53-57 | lower-case hexadecimal strings of one length stand for different numbers |
| `Closest.HexValueBits` | app/dht/service.py:53-57 | bit by bit, the number an id stands for is made of its digits, four bits each, the last digit lowest |
| `Closest.DigestsHaveNoTies` | app/dht/service.py:53-57 | ids written as digests are at different distances from every key |
| `Closest.TiedExactlyWhen` | app/dht/service.py:53-57 | two ids are at the same distance from a key if and only if they stand for the same number |
| `Closest.SpellingsTie` | app/dht/service.py:53-57 | for every key and every id, the id with a leading zero is tied with it |
| `Closest.DeduplicateNodeCandidates` | app/dht/service.py:272-292 | one candidate per non-empty id in order of first appearance: the last local one, or else the first |
| `Closest.Chosen` | app/dht/service.py:272-292 | the last local candidate with that id, or if there is none the first candidate with it |
| `Closest.FirstIdsInOrder` | app/dht/service.py:272-292 | ids are kept in the order of their first appearance |
| `Closest.RankingFailsExactly` | app/dht/service.py:211-226 | a selection fails if and only if there is no key, or some id is known and it or the key is not hexadecimal |
| `Closest.RankNodesByDistance` | app/dht/service.py:294-314 | the loop and the stable sort give the specification; an id that is not hexadecimal is an error |
| `Closest.SelectKClosest` | app/dht/service.py:211-226 | the first K of the ranking, with Python's meaning of a negative K, and whether a local node is among them |
| `Closest.TakeIsPythons` | app/dht/service.py:211-226 | the first K, or for a negative K all but the last -K |
| `Closest.TiesKeepTheirOrder` | app/dht/service.py:294-314 | nodes at one distance stay in the order in which they are known |
| `Closest.RankingLists` | app/dht/service.py:294-314 | the ranking lists every known id once, strictly from the closest to the farthest |
| `Closest.SelectionIsExact` | app/dht/service.py:211-226 | selected are exactly the known ids with fewer than K others closer |
| `Closest.SelectionIgnoresOrder` | app/dht/service.py:211-226 | the selected ids and their order depend on the set of known ids only |
| `Closest.OrderIsIgnoredExactlyWhen` | app/dht/service.py:211-226 | for ids that are hexadecimal, the selection depends on the set of known ids only, for every K, if and only if no two of them are tied |
| `Closest.ResponsibilityIsAgreed` | app/dht/service.py:211-226 | a node finds itself responsible exactly if every node that knows the same ids selects it |
| `Closest.OneMoreEvictsTheFarthest` | app/dht/service.py:211-226 | one more candidate lets in nobody else, and whom it evicts is the farthest of the selected, in favour of the new one |
| `UdpFrames.ReadOfBig` | app/transport/udp_transport.py:264-269 | four bytes hold every uint32 exactly |
| `UdpFrames.BigOfRead` | app/transport/udp_transport.py:283-285 | four bytes read as a number and written again are the same bytes |
| `UdpFrames.DecodeOfEncode` | app/transport/udp_transport.py:249-269 | every encodable frame is read back as itself |
| `UdpFrames.HeaderIsBigEndian` | app/transport/udp_transport.py:249-269 | the twelve bytes of the header are id, part and total, in this order, each with its highest byte first |
| `UdpFrames.EncodeOfDecode` | app/transport/udp_transport.py:271-310 | a datagram is read as a frame only if it is the encoding of that frame |
| `UdpFrames.NoFrameIsKeepalive` | app/transport/udp_transport.py:14-16 | no encodable frame equals the keepalive bytes, and the keepalive does not read as a frame |
| `UdpFrames.ConcatOfChunks` | app/transport/udp_transport.py:211-216 | the chunks in order are the payload |
| `UdpFrames.ChunksAreFull` | app/transport/udp_transport.py:211-216 | every chunk but the last has the full size |
| `UdpFrames.FrameId` | app/transport/udp_transport.py:456-457 | always a valid non-zero uint32 |
| `UdpFrames.FrameIdsDiffer` | app/transport/udp_transport.py:456-457 | different draws give different ids, except that 0 and 1 both give 1, and every id can be drawn |
| `UdpFrames.DatagramsCarryThePayload` | app/transport/udp_transport.py:211-239 | building fails exactly for a limit without room or too many fragments, never for a fragment's size; otherwise the datagrams fit the limit and decode, in order, to pieces that make up the payload |
| `UdpReassembly.CountIsEnough` | app/transport/udp_transport.py:26-30 | as many parts as the total means every part from 1 to the total, so building the payload never misses one |
| `UdpReassembly.ReceiveKeepsWellFormed` | app/transport/udp_transport.py:149-162 | whatever bytes arrive from whomever, the parts kept lie between 1 and the total |
| `UdpReassembly.UdpReassembler.PruneExpiredFrames` | app/transport/udp_transport.py:368-376 | exactly the frames older than the timeout go |
| `UdpReassembly.UdpReassembler.TryReassembleDataFrame` | app/transport/udp_transport.py:271-366 | computes the specification, branch by branch |
| `UdpReassembly.UdpReassembler.AddFragment` | app/transport/udp_transport.py:313-366 | restart on part 1, drop on a changed total, otherwise keep the first copy of each part and hand up when complete |
| `UdpReassembly.UdpReassembler.BuildPayload` | app/transport/udp_transport.py:29-30 | the parts from 1 to the total, in order |
| `UdpReassembly.UdpReassembler.DatagramReceived` | app/transport/udp_transport.py:149-162 | a keepalive changes nothing; everything else is pruning and then reassembly |
| `UdpReassembly.StepKeepsInvariant` | app/transport/udp_transport.py:271-366 | sends, deliveries in any order and number, losses, expiry and stops keep every partial frame made of pieces of one payload its peer sent, as long as no two payloads of one peer, frame id and number of pieces differ in more than one piece |
| `UdpReassembly.EmittedWasSent` | app/transport/udp_transport.py:271-366 | in every run with many peers and frames interleaved, everything handed up for a peer was sent, whole, by that peer, unless two payloads of one peer, frame id and number of pieces differ in two pieces |
| `UdpMixing.ConcatIsInjective` | app/transport/udp_transport.py:211-216 | pieces cut to one size are told apart by their concatenation |
| `UdpMixing.PiecesAreCut` | app/transport/udp_transport.py:211-216 | a payload's pieces are cut to one size, which the mixing theorem asks for |
| `UdpMixing.MixingRun` | app/transport/udp_transport.py:313-366 | a run in which two payloads are sent and all pieces of the first but one, and that one of the second, are delivered and come out as one payload |
| `UdpMixing.MixesExactlyWhen` | app/transport/udp_transport.py:313-366 | some run in which only two payloads are sent hands up one that neither is, if and only if they are of one peer, with one frame id and one number of pieces, more than one, and differ in at least two pieces |
| `UdpReassembly.PartOneRestarts` | app/transport/udp_transport.py:313-325 | part 1 leaves a frame with part 1 only, whatever was there before |
| `UdpReassembly.OthersDoNotMatter` | app/transport/udp_transport.py:313-366 | traffic for other frames, garbage included, leaves a frame that is not expired as it is |
| `UdpReassembly.PartIsKept` | app/transport/udp_transport.py:340-366 | a further part is kept until it is the last one missing, which hands up the payload and forgets the frame |
| `UdpReassembly.ExpiryForgets` | app/transport/udp_transport.py:368-376 | a part that comes after the timeout finds nothing of what was kept and begins a frame with itself only |
| `UdpReassembly.FramesAreLeftAlone` | app/transport/udp_transport.py:149-162 | a keepalive changes nothing; garbage and single pieces do nothing but let exactly the frames older than the timeout go |
| `UdpReassembly.SinglePieceComesAtOnce` | app/transport/udp_transport.py:309-311 | a payload of one piece is handed up when it comes |
| `UdpReassembly.OtherTotalDropsTheFrame` | app/transport/udp_transport.py:326-338 | a fragment that says another total drops the frame and itself, unless it is part 1 |
| `UdpReassembly.FirstCopyStays` | app/transport/udp_transport.py:340-342 | the first copy of a part stays, whatever a later one says |
| `UdpReassembly.FragmentBeginsFrame` | app/transport/udp_transport.py:313-332 | a fragment that meets no young frame of its own, or is part 1, begins one with itself, dated by its arrival |
| `UdpReassembly.PartsAreKept` | app/transport/udp_transport.py:313-366 | while a part is missing, exactly the parts that came are kept |
| `UdpReassembly.CompletesWithTheLastPart` | app/transport/udp_transport.py:313-366 | after part 1, for every order and repetition of the other parts mixed with any other traffic before the timeout, the payload comes exactly with the last missing part |
| `UdpReassembly.CompletedIsThePayload` | app/transport/udp_transport.py:211-239 | the datagrams built for a payload are deliveries of its pieces, so what completes is that payload |
| `Downloads.ContentTransferService.Configure` | app/content/service.py:86-94 | the range size is at least one |
| `Downloads.ContentTransferService.StartOrUpdateDownload` | app/content/service.py:211-239 | an existing download is returned unchanged; a new one starts at 0 with an empty partial file |
| `Downloads.ContentTransferService.GetNextRangeRequest` | app/content/service.py:241-255 | nothing for a download that ended or has all its bytes; otherwise the next range, cut at the size |
| `Downloads.ContentTransferService.HandleContentRangeResponse` | app/content/service.py:257-291 | computes the specification: wrong start, bad base64 and wrong length fail the download, a fitting range is appended, and the end is checked |
| `Downloads.ContentTransferService.CompleteDownload` | app/content/service.py:418-435 | size, then hash, then the move to the final path |
| `Downloads.StartBeginsAnew` | app/content/service.py:211-239 | a download that is there is untouched; a new one has what was announced and nothing received, and no other download or file changes |
| `Downloads.AnswersExactly` | app/content/service.py:257-291 | an answer to what was asked for is appended exactly if it begins there, is base64 and ends where its bytes do; otherwise the download has failed for the first of these reasons and no file changes |
| `Downloads.LastAnswerDecides` | app/content/service.py:418-435 | when the announced size is reached the download has failed for its size, or else for its hash, or else is complete and moved, exactly when |
| `Downloads.RepeatedAnswerFails` | app/content/service.py:269-272 | an answer that was taken and comes again while more is wanted fails the download, unless it was empty |
| `Downloads.ServesExactly` | app/content/service.py:181-209 | a range is answered if and only if it lies within the size of a stored content whose file is there, with exactly the bytes of the file in it |
| `Downloads.EndedIsAbsorbing` | app/content/service.py:257-291 | no event changes a download that is completed or failed |
| `Downloads.EndedStaysEnded` | app/content/service.py:257-291 | the same for every continuation of every run |
| `Downloads.PartialIsNoDigestPath` | app/content/service.py:515-523 | no partial file, of whatever content hash, lies where a digest's content lies |
| `Downloads.PathOfHash` | app/content/service.py:515-523 | where a content lies: blanks around the hash and the case of its letters do not matter; up to 64 characters are a name, otherwise two name the directory and the next 64 at most the file |
| `Downloads.PathsMeetExactlyWhen` | app/content/service.py:515-523 | two digests share a path if and only if their first 66 digits agree |
| `Downloads.CompletedIsVerified` | app/content/service.py:418-435 | for a hash that writes 128 hexadecimal digits: in every run, whatever is answered and however many downloads share files, a completed download has its file at the final path with the announced size and hash, if contents that the run moved to one path have the same hash and size |
| `Downloads.VerifiedExactlyWhen` | app/content/service.py:418-435 | and that is so at every point of the run if and only if they have |
| `Downloads.CollisionShows` | app/content/service.py:515-523 | for every two contents with one final path and different hashes or sizes: downloading the one and then the other is a run in which, at some point, a completed download is not verified |
| `Downloads.RoundAdvances` | app/content/service.py:181-291 | one request and its honest answer extend the partial file to exactly the next prefix of the content, or complete it |
| `Downloads.StaysOnCourse` | app/content/service.py:181-291 | the partial file is content[0..next_start_byte] after any number of rounds, whatever happens to downloads on other files in between |
| `Downloads.HonestDownloadCompletes` | app/content/service.py:181-291 | for non-empty content the download is complete with exactly that content from round ceil(size / range) on, and not before |
| `Downloads.SharedFileFailsExactlyWhen` | app/content/service.py:211-239 | when a second session starts on the same content, the first one, after its remaining rounds, however many, has failed with a size mismatch if and only if it had received something before, and has completed if and only if it had received nothing |

## Left out

- JSON text: payloads are modelled as parsed; printing and parsing of JSON and of timestamps is library behaviour.
- Placement repair, publishing and querying of the DHT: publishing is a step that reports stored or not, a visibility query a step that answers.
- Physical and virtual session handshakes, ROUTE_DATA, TCP and relay transports, HTTP and WebSocket interfaces, logging: not modelled.
- Duplicated ROUTE_CREATE: the route theorems take each ROUTE_CREATE to be delivered at most once per hop and path ids to be fresh; a duplicate would add a second row for one received path id.
- Malformed route payloads: fields are taken to be well formed, because two of the reading functions return nothing instead of raising.
- The client method `send_route_create_ping`, which sends a ping towards the first hop while pings are resolved backwards, and the two strategies that are stubs.
- Outcomes of signature and payload checks are free inputs in `RouteNetwork`; they are exact in `RouteAgreement`, which in turn leaves out the hop-by-hop relaying because its attacker may deliver anything anywhere.
- Route rows: metadata, error text and timing columns that no modelled decision reads.
- The sum of costs of a walk is over exact reals, not floating point.
- UdpMixing.MixesExactlyWhen: both payloads are cut to the same size, as one datagram limit does, and the timeout is positive.
- Reliable sessions are proved for one direction; the other is the same code on the other half of the state.
- The order of the list of due messages and the computation of the retry delay from route round trips: the delay is a parameter, the list a set.
- Objects that the source both stores in a dictionary and hands out (outbound messages, partial frames, download states) are values in a map: changes made through a second reference to such an object are not modelled.
- One clock reading per maintenance round: the source reads the clock for every entry and once more for the row.
- The DPNT and DPT payloads have their descriptive fields as one text, and endpoint lists as already canonical.
- `int(text, 16)` accepts prefixes, signs, blanks and underscores; node ids here are hexadecimal digits only.
- `lower` and `strip` on content hashes and namespaces are those of ASCII; stored records keep what their namespace names, not its spelling.
- DhtMerge.DptKeepsLatest: up to equal timestamps; of two different payloads with the same timestamp the first one merged stays.
- DrtMerge.MergeCommutes: up to entries of equal rank, which the source does not order either.
- DrtMerge.MergeAssociates: up to entries of equal rank.
- DrtMerge.MergeIsIdempotent: up to entries of equal rank.
- ProofOfWork.LeastNonce: the search is proved for materials that have an accepted nonce; without one the source does not come back.
- ProofOfWork.FindValidNonce: the same.
- Downloads.HonestDownloadCompletes: no other download uses the same files, the range size is at least one, and the content is not empty.
- UdpReassembly.EmittedWasSent: not claimed for payloads of one peer, frame id and number of pieces that differ in two pieces, because it is false for them.
- SessionRuns.AttemptsAreCapped: session names are not used twice and a limit allows at least one attempt.
- Catalogue rows of downloaded content, provider advertisements and tags.
