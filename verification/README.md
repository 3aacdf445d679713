# Verified model of the StylMe commerce and calling stack

This project models the parts of the repository in which a small slip would be costly and hard
to notice, and proves what they promise:

- **Swarm graphs and live handoffs.** Validation of agent graphs (a three-colour depth-first
  search and a reachability marking over mutable maps), the call's walk along its frozen
  snapshot, and the voice worker that keeps its own copy of the position.
- **Campaign dispatch.** The calls collection as a protocol in which any number of dispatchers
  claim, gate, dial, defer, retry, cancel and save, one atomic store step at a time, in any
  order, while requests to hand calls off and to complete them read a call and later replace
  its whole document.
- **Catalogue reads.** The sellability projection, paging before the offer join, sparse-vector
  scores, and the ranking of one-day delivery candidates.
- **Data preparation.** Proportional quotas, the streaming sampler behind them, greedy sharding
  of batch requests (written twice in the repository), and the entity registry.
- **Checkout recovery.** The four-stage run against services that may answer anything, and the
  identity of a checkout whose cart keeps changing.

Code that updates state step by step is a class or a method with loops, proved against a
specification function or predicate; what the repository promises is then proved of that
specification, for all inputs and all runs.

Where the code does less than one might expect, the code is modelled as it is and the exact
condition is proved:

- Edges are compared by a joined key with a NUL in the middle. A well-formed graph is refused
  exactly when two of its edges are confused by that key, which needs NUL characters in node keys
  (`GraphValidation.AcceptedIffWellFormed`, `GraphValidation.NulKeysRejectWellFormedGraph`).
- A saved completion can be undone exactly when some dispatcher still holds the call and has not
  decided to end it, or a handoff that read the call earlier has been accepted and not yet saved
  (`DispatchOverlaps.LateCompletion`).
- In every run, a call's trace has one entry per accepted handoff throughout exactly when no save
  replaces a handoff that it has not read (`DispatchOverlaps.HandoffsCounted`); this is what keeps
  the number of handoffs below the number of nodes (`DispatchOverlaps.HandoffBound`,
  `DispatchMishaps.OverlapCountsTwice`).
- If a dispatcher and a request never hold one call at once, a call rings only past its campaign's
  gate exactly when no handoff brings it back to ringing after it has ended
  (`DispatchRuns.RingingIsPastGate`); this is what keeps the ringing calls of a campaign within
  MaxConcurrency (`DispatchRuns.LineLimit`, `DispatchMishaps.OverlapBreaksLineLimit`). A call that
  is never held twice at once meets all these conditions (`DispatchRuns.AloneMeetsAll`).
- A handoff that reads a call while it waits, and saves after a dial, lets the call be dialled any
  number of times (`DispatchMishaps.OverlapBreaksAttemptBound`); if a dispatcher and a request
  never hold it at once it is dialled at most MaxAttempts times (`DispatchRuns.AttemptBound`).
- A batch whose next call belongs to a campaign or swarm that does not exist ends without an error,
  like an empty queue (`CallService.Service.DispatchBatch`).
- A dispatcher that stops between claim and save strands its call: the lease is never used to
  take it back, since only `pending` calls are claimed (`DispatchRuns.CrashStrands`).
- The kept recovery links are always the last five exactly in runs in which no capture of a cart
  change writes between the read and the write of another one of the same user; otherwise the
  token of the first is lost at once (`CheckoutIdentity.LinksOfTheLastFive`).
- Taking back a route that leads nowhere drops an earlier explicit null
  (`VoiceWorker.RestoredExactly`).
- A sample of target zero fails as soon as there is one candidate row (`Sampler.BuildSample`).
- A new entity whose plain and suffixed keys are both in use overwrites another record; the
  registry stays consistent exactly as long as that does not happen
  (`EntityRegistries.ValidIffKeyIsFree`). A name merged by similarity can later move to another
  record (`EntityRegistries.MergedNameMoves`), and the three-bucket scan sees every tolerated
  length exactly for names shorter than 27 characters and for 28 and 31
  (`EntityRegistries.ScanCompleteness`).

## Files

| file | models |
|---|---|
| SwarmGraph.dfy, GraphValidation.dfy | graph validation in the control plane |
| Calls.dfy, CallService.dfy, CallingWindow.dfy | the call document, the store and service operations, calling windows |
| DispatchProtocol.dfy, OneCall.dfy | the interleaving protocol, and the same protocol as one call sees it |
| DispatchOverlaps.dfy | what holds of every run of it |
| DispatchSafety.dfy, DispatchRuns.dfy, DispatchMishaps.dfy | what holds as long as the holders of a call keep apart, and what goes wrong otherwise |
| VoiceWorker.dfy | the voice worker's graph check, edge choice and handoff |
| Catalogue.dfy, Scores.dfy, DeliveryRanking.dfy | projection and paging, scores, delivery ranking |
| Quotas.dfy, Sampler.dfy | quota allocation and sampling |
| Sharding.dfy, BatchPreparation.dfy | greedy packing and the two programs that use it |
| EntityRegistries.dfy | the entity registry |
| RecoveryRows.dfy, RecoveryLedger.dfy, RecoveryOutcomes.dfy, RecoveryRun.dfy, CheckoutIdentity.dfy | checkout recovery |
| Sorting.dfy, TextOrder.dfy, Wrappers.dfy | stable sorting, the order on strings, options and results |

## Model

| member | source | states |
|---|---|---|
| GraphValidation.GraphValidator.Validate | Go-Backend/internal/domain/graph.go:5-85 | the verdict is the one the graph deserves: nil exactly for graphs that pass every check, otherwise a fault of the first failing stage |
| GraphValidation.GraphValidator.CheckNodes | Go-Backend/internal/domain/graph.go:6-21 | accepts exactly clean nodes with a known entry, otherwise names the first fault in node order |
| GraphValidation.GraphValidator.CheckEdges | Go-Backend/internal/domain/graph.go:22-43 | accepts exactly clean edges and then holds the adjacency lists of the graph, otherwise names the first fault in edge order |
| GraphValidation.GraphValidator.Visit | Go-Backend/internal/domain/graph.go:44-63 | a visit that fails has closed a cycle; one that succeeds keeps the colours a depth-first search with a finishing order |
| GraphValidation.GraphValidator.DetectCycle | Go-Backend/internal/domain/graph.go:44-68 | succeeds if and only if the graph has no cycle |
| GraphValidation.GraphValidator.MarkReachable | Go-Backend/internal/domain/graph.go:69-79 | marks only reachable nodes, and with each newly marked node all its successors |
| GraphValidation.AcceptedIffWellFormed | Go-Backend/internal/domain/graph.go:5-85 | a graph is accepted exactly when it is well formed (edges compared as pairs) and no two edges share a joined key |
| GraphValidation.RefusalMeans | Go-Backend/internal/domain/graph.go:5-85 | a refusal names what is wrong with the first wrong node, failing that with the first wrong edge, and only then a missing entry, a cycle or an unreachable node in turn |
| GraphValidation.NulFreeAcceptance | Go-Backend/internal/domain/graph.go:37-41 | with NUL-free node keys acceptance is exactly well-formedness |
| GraphValidation.NulKeysRejectWellFormedGraph | Go-Backend/internal/domain/graph.go:37-41 | a concrete well-formed graph with NUL in its keys is refused as having a repeated edge |
| GraphValidation.JoinedKeyInjective | Go-Backend/internal/domain/graph.go:37-37 | without NUL in the source keys the joined key determines both ends |
| SwarmGraph.TopologicalIsAcyclic | Go-Backend/internal/domain/graph.go:44-68 | a finishing order that covers all edge sources rules out cycles |
| SwarmGraph.BackEdgeIsCycle | Go-Backend/internal/domain/graph.go:48-50 | meeting a node that is still being visited proves a cycle |
| SwarmGraph.EnterNode | Go-Backend/internal/domain/graph.go:54-55 | colouring an untouched node keeps the search invariant and grows the stack |
| SwarmGraph.LeaveNode | Go-Backend/internal/domain/graph.go:60-61 | finishing a node keeps the search invariant and appends it to the finishing order |
| SwarmGraph.ClosureIsReachable | Go-Backend/internal/domain/graph.go:69-83 | a closed set of reachable nodes around the entry is exactly the reachable set |
| SwarmGraph.AcyclicPathDistinct | Go-Backend/internal/domain/graph.go:44-68 | a path of an acyclic graph never repeats a node |
| SwarmGraph.AcyclicPathBound | Go-Backend/internal/domain/graph.go:44-68 | such a path has at most as many entries as the graph has nodes |
| Calls.Units | Go-Backend/internal/service/service.go:832-846 | a lease is ninety seconds, in nanoseconds like every instant and duration |
| Calls.HandoffKeepsTrace | Go-Backend/internal/service/service.go:729-777 | an accepted handoff keeps the trace a staffed path from the entry to the current node, adds one entry and changes nothing else |
| Calls.CompleteKeepsTrace | Go-Backend/internal/service/service.go:779-815 | completing a call closes every trace entry and keeps the path |
| Calls.RingKeepsTrace | Go-Backend/internal/service/service.go:896-909 | the ringing save keeps the trace sound and its handoffs and changes nothing that is fixed |
| Calls.CloseLastMeaning | Go-Backend/internal/service/service.go:762-766 | closing the last entry changes no node or agent and leaves every entry closed |
| Calls.FailDispatchMeans | Go-Backend/internal/service/service.go:1166-1180 | a failed dispatch puts the call off by five minutes per attempt while it has attempts left, and fails it for good otherwise |
| Calls.RingMeans | Go-Backend/internal/service/service.go:896-909 | an answered dial leaves the call ringing in its room, with a first trace entry for its node and agent if it had none |
| Calls.CompleteLeaves | Go-Backend/internal/service/service.go:779-797 | a completion leaves the call completed, or failed if there was a failure, and its last entry left |
| Calls.HandoffIff | Go-Backend/internal/service/service.go:729-777 | a handoff is refused exactly for an ended call, another current node, a missing edge or an unstaffed end, in that order; otherwise the last entry is left with the reason and a new one is open |
| Calls.AgentAt | Go-Backend/internal/service/service.go:1157-1164 | an agent is found exactly when some node has the key |
| Calls.AgentAtIsFirst | Go-Backend/internal/service/service.go:1157-1164 | the agent is that of the first node with the key |
| Calls.AgentAtUnique | Go-Backend/internal/service/service.go:1157-1164 | with unique keys it is the agent of the one node with that key |
| Calls.SnapshotOfValidated | Go-Backend/internal/service/service.go:486-487 | a validated graph re-entered at the campaign's node is a sound snapshot |
| Calls.TraceNeverRepeats | Go-Backend/internal/service/service.go:729-777 | on a sound snapshot the trace repeats no node and is no longer than the number of nodes |
| OneCall.ViewStep | Go-Backend/internal/service/service.go:729-915 | every step of the protocol is, for each call, one possible action on its document, its holders and its open requests, and leaves what all other calls see as it is |
| DispatchSafety.HeldNext | Go-Backend/internal/service/service.go:833-915 | every action that does not let a dispatcher and a request hold the call at once keeps it in one dispatcher's hands, unchanged in the store until that dispatcher saves, and keeps its open requests in agreement |
| DispatchSafety.HeldDecide | Go-Backend/internal/service/service.go:838-866 | a decision at a gate keeps the hold |
| DispatchSafety.HeldTake | Go-Backend/internal/store/store.go:375-384 | claiming a pending call gives it exactly one holder |
| DispatchSafety.HeldSave | Go-Backend/internal/store/store.go:293-296 | replacing the stored document ends the hold |
| DispatchSafety.HeldRewrite | Go-Backend/internal/service/service.go:729-777 | a request may save over whatever other requests have made of the call |
| DispatchSafety.BookedNext | Go-Backend/internal/service/service.go:833-915 | every such action keeps attempts, dials and failures of the call in line with its document and its holders |
| DispatchSafety.DecisionBooks | Go-Backend/internal/service/service.go:1037-1063 | deferring, cancelling, failing or ringing leaves the attempt counters consistent with what has happened |
| DispatchSafety.FailsNext | Go-Backend/internal/service/service.go:1166-1180 | while no request reads the call, dispatchers fail it with the last attempt and not before |
| DispatchSafety.RingingNext | Go-Backend/internal/service/service.go:776-810 | after an action the call rings only past the gate, if it did before, exactly unless a request saves it as ringing over an ended document |
| DispatchSafety.SingleNext | Go-Backend/internal/service/service.go:729-815 | while the call is never held twice at once, a request's copy stays what is stored, and once ended it stays stored as ended |
| DispatchSafety.LimitsAtGate | Go-Backend/internal/service/service.go:854-860 | a call that passes the count was already counted as dispatching by everyone else, so the limit holds after it passes |
| DispatchSafety.ClearedStep | Go-Backend/internal/service/service.go:833-868 | no step but a successful count for the campaign adds a call of it to those past the gate |
| DispatchRuns.LimitStep | Go-Backend/internal/service/service.go:833-868 | every step keeps the campaign's calls past the gate within MaxConcurrency |
| DispatchRuns.SafeRun | Go-Backend/internal/service/service.go:833-915 | in every run in which a dispatcher and a request never hold the call at once, its hold and its attempts stay sound |
| DispatchRuns.AfterRingingIsApart | Go-Backend/internal/service/service.go:896-912 | requests that only read the call past dispatch never hold it together with a dispatcher |
| DispatchRuns.RingingIsPastGate | Go-Backend/internal/service/service.go:776-860 | if a dispatcher and a request never hold the call at once, then throughout the run it rings only past the gate if and only if no handoff brings it back to ringing after it has ended |
| DispatchRuns.LineLimit | Go-Backend/internal/service/service.go:854-860 | if dispatchers and requests keep apart on the campaign's calls, those past the gate that have not ended since never exceed MaxConcurrency and every ringing call is one of them unless it was brought back; if no handoff brings one back to ringing, no more calls ring than MaxConcurrency |
| DispatchRuns.AttemptBound | Go-Backend/internal/service/service.go:1166-1180 | if a dispatcher and a request never hold the call at once, it is dialled at most MaxAttempts times; while pending it has attempts left, no lease, and spent attempts only on failed dispatches |
| DispatchRuns.FailedAfterLastAttempt | Go-Backend/internal/service/service.go:1166-1180 | in every run in which no request reads the call it is failed only after MaxAttempts failed dispatches, and after so many it is failed or that was not saved |
| DispatchRuns.DeferUndoesClaim | Go-Backend/internal/service/service.go:1037-1049 | a deferral gives back the attempt its claim took and moves only the scheduled time |
| DispatchRuns.AloneMeetsAll | Go-Backend/internal/service/service.go:729-915 | a call that is never held twice at once loses no handoff and is never brought back to ringing |
| DispatchRuns.EndedForGood | Go-Backend/internal/service/service.go:779-815 | a call that has ended in a run in which it is never held twice at once stays ended, whatever overlaps later |
| DispatchRuns.CrashStrands | Go-Backend/internal/store/store.go:375-384 | after a dispatcher stops, its call stays dispatching and is counted by every other dispatcher over every run in which no completion reads it |
| DispatchOverlaps.RootedRun | Go-Backend/internal/service/service.go:833-915 | in every run no call is lost and its key, campaign, limits and snapshot never change |
| DispatchOverlaps.ScheduledOnce | Go-Backend/internal/service/service.go:503-506 | in every run at most one call exists per idempotency key |
| DispatchOverlaps.TraceAlwaysSound | Go-Backend/internal/service/service.go:729-777 | in every run each stored trace is a staffed path of the snapshot to the current node, and on a sound snapshot it repeats no node |
| DispatchOverlaps.CountedStep | Go-Backend/internal/service/service.go:729-915 | a step keeps one trace entry per accepted handoff exactly unless it replaces a document with a handoff that the saver has not read |
| DispatchOverlaps.HandoffsCounted | Go-Backend/internal/service/service.go:729-915 | in every run, the trace has one entry per accepted handoff throughout if and only if no save replaces a handoff that it has not read |
| DispatchOverlaps.HandoffBound | Go-Backend/internal/service/service.go:729-777 | if none is replaced unread, at most nodes minus one handoffs of a call are accepted |
| DispatchOverlaps.HandoffsAccepted | Go-Backend/internal/service/service.go:729-777 | in every run no trace records more handoffs than were accepted |
| DispatchOverlaps.NeverWaitsAgain | Go-Backend/internal/store/store.go:375-384 | a call past dispatch whose holders read it there never waits and is never dispatched again, whatever overlaps |
| DispatchOverlaps.OverRun | Go-Backend/internal/service/service.go:779-815 | an ended call that nobody else holds unended stays ended over every run |
| DispatchOverlaps.ComesBackIff | Go-Backend/internal/service/service.go:776-810 | an ended call comes back in some run exactly when it is still held by a dispatcher that has not decided to end it or by an accepted handoff |
| DispatchOverlaps.LateCompletion | Go-Backend/internal/service/service.go:779-815 | a saved completion can be undone exactly when such a holder was there at the save |
| DispatchOverlaps.Revive | Go-Backend/internal/service/service.go:905-912 | a dispatcher that has not decided to end its call can always bring it back to life |
| DispatchOverlaps.ReviveByRequest | Go-Backend/internal/service/service.go:729-777 | so can an accepted handoff that has not been saved |
| DispatchOverlaps.StrandedRun | Go-Backend/internal/store/store.go:375-384 | a stranded call is never claimed again, whatever its lease says, and keeps its line until a completion reads it |
| DispatchMishaps.OverlapRevives | Go-Backend/internal/service/service.go:729-815 | any call that can be handed off can be completed and come back by a handoff read before and saved after |
| DispatchMishaps.OverlapCountsTwice | Go-Backend/internal/service/service.go:729-777 | two handoffs of one call along one edge can both be accepted and leave one trace entry, the last save replacing one unread |
| DispatchMishaps.OverlapBreaksLineLimit | Go-Backend/internal/service/service.go:776-860 | a concrete run in which a handoff brings an ended call back and a campaign of one line has two calls ringing |
| DispatchMishaps.OverlapDialsWithoutEnd | Go-Backend/internal/service/service.go:729-915 | any waiting call that can be handed off can be dialled any number of times without spending an attempt |
| DispatchMishaps.OverlapBreaksAttemptBound | Go-Backend/internal/service/service.go:729-915 | a concrete call of MaxAttempts 1 can be dialled any number of times |
| CallingWindow.NextOpens | Go-Backend/internal/service/service.go:1065-1089 | outside a usable window the next opening is inside it, less than a day away, and nothing before it is inside |
| CallingWindow.NextIsNextStart | Go-Backend/internal/service/service.go:1078-1089 | the instant returned is the first later one at which the local clock shows the window's start |
| CallingWindow.WithinIsArc | Go-Backend/internal/service/service.go:1065-1076 | a usable window is the half-open arc of the clock from start to end, over midnight too |
| CallingWindow.MidnightIsWhole | Go-Backend/internal/service/service.go:1067-1076 | the clock counts from a midnight of the zone |
| CallingWindow.UnusableNeverOpens | Go-Backend/internal/service/service.go:1067-1082 | an unusable window never opens and puts a call off by fifteen minutes |
| CallService.CallStore.ClaimPendingCall | Go-Backend/internal/store/store.go:375-384 | claims a waiting call that is due, the one of earliest schedule, for one attempt more and ninety seconds; changes no other, and finds none only if none is due |
| CallService.CallStore.CountActiveCampaignCalls | Go-Backend/internal/store/store.go:386-395 | counts the dispatching, ringing and active calls of the campaign except the excluded one |
| CallService.CallStore.InsertCalls | Go-Backend/internal/store/store.go:275-291 | inserts all that the unique keys allow and reports how many |
| CallService.CallStore.SaveCall | Go-Backend/internal/store/store.go:293-296 | replaces or adds exactly that document |
| CallService.InsertAllCovers | Go-Backend/internal/store/store.go:275-291 | after an insert every key of the batch has a call |
| CallService.InsertAllAgain | Go-Backend/internal/store/store.go:275-291 | inserting targets that all have a call changes nothing |
| CallService.GateDecision | Go-Backend/internal/service/service.go:839-860 | exactly when a claimed campaign call is let through, cancelled, failed or put off at the gates, and until when |
| CallService.Service.DispatchOne | Go-Backend/internal/service/service.go:833-868 | leaves of the first call that is due exactly what the gates, the swarm and the dial say, changes no other, reports it as the program does, and does so by a legal run of the protocol |
| CallService.DispatchLeaves | Go-Backend/internal/service/service.go:833-915 | in terms of the documents and answers alone: when the call is let through, what it is left as in every case, by how long it is put off, and what is reported |
| CallService.Service.CheckGates | Go-Backend/internal/service/service.go:838-861 | reaches the gate decision and follows the protocol's steps |
| CallService.Service.DispatchCall | Go-Backend/internal/service/service.go:891-915 | a stored dial leaves the call ringing if it was answered; otherwise it waits again while it has attempts left and has failed if not |
| CallService.Service.DispatchBatch | Go-Backend/internal/service/service.go:870-889 | dispatches one call after another, each at its own time, at most ten, and stops early exactly at an empty queue, a deferral, a cancellation or a failure; the last alone is an error, unless what failed was reading a campaign or swarm that does not exist |
| CallService.DialledIffRings | Go-Backend/internal/service/service.go:891-915 | a dispatch reports a dial exactly when it leaves the call it claimed ringing |
| CallService.Service.TriggerCall | Go-Backend/internal/service/service.go:430-467 | a repeated key returns the call it has, also one stored between the lookup and the save; otherwise the call is stored as dispatching and dialled at once, by a legal run of the protocol |
| CallService.Service.ScheduleCampaign | Go-Backend/internal/service/service.go:470-521 | one pending call per new valid target under the frozen graph; received equals scheduled plus duplicates plus invalid; stored calls are untouched |
| CallService.Service.CallsFor | Go-Backend/internal/service/service.go:492-505 | builds one call per dialable target with the campaign's key and counts the rest as invalid |
| CallService.Service.CreateInboundCall | Go-Backend/internal/service/service.go:704-727 | one call per room: a known room returns its call, a new one stores an active call that begins its trace at the entry, and one stored meanwhile makes the save fail |
| CallService.Service.RecordHandoff | Go-Backend/internal/service/service.go:729-777 | decides on the call as read and replaces the document over whatever the collection has become meanwhile, or reports the error it deserves |
| CallService.Service.CompleteCall | Go-Backend/internal/service/service.go:779-815 | the completion of the call as read replaces the document over whatever the collection has become meanwhile |
| CallService.Service.GraphAgentId | Go-Backend/internal/service/service.go:1157-1164 | finds the agent of the first node with the key |
| VoiceWorker.AcyclicCheck.GraphIsAcyclic | Livekit-Agent/src/app/graph.py:8-32 | true exactly for graphs that are non-empty, entered at a known node, closed under edges and free of cycles |
| VoiceWorker.AcyclicCheck.Visit | Livekit-Agent/src/app/graph.py:20-30 | fails only on a cycle and otherwise keeps the search invariant |
| VoiceWorker.AcceptedPassesWorker | Livekit-Agent/src/app/graph.py:8-32 | every graph the control plane accepts passes the worker's check, whatever its entry |
| VoiceWorker.ChooseIsBest | Livekit-Agent/src/app/graph.py:35-46 | the chosen edge is the earliest of the matching outgoing edges of highest priority; none is chosen only if none matches |
| VoiceWorker.FirstMatchingInsert | Livekit-Agent/src/app/graph.py:38-46 | inserting an edge in priority order changes the first match only if it matches and nothing better does |
| VoiceWorker.RestoredExactly | Livekit-Agent/src/app/agent_session.py:327-336 | taking a route back leaves every lookup as before; the stored values differ exactly if the earlier route was an explicit null |
| VoiceWorker.Worker.PrepareHandoff | Livekit-Agent/src/app/agent_session.py:316-336 | resolves the edge under the route and keeps the route only if an edge was found; an intent is set only where there is none, and no other value changes |
| VoiceWorker.Worker.HandoffToNextAgent | Livekit-Agent/src/app/agent_session.py:347-378 | call and worker move along the chosen edge as one attempt does, the call exactly if the request arrives and finds it live at the worker's node; without an edge neither moves |
| VoiceWorker.EdgeAccepted | Go-Backend/internal/service/service.go:734-753 | an edge out of the current node is accepted exactly while the call has not ended |
| VoiceWorker.InStepIff | Livekit-Agent/src/app/agent_session.py:362-369 | over any attempts, worker and call end at the same node exactly when no applied handoff lost its answer |
| VoiceWorker.OutOfStepForGood | Go-Backend/internal/service/service.go:737-739 | once out of step, every later handoff is refused |
| Catalogue.Store.GroupMinimum | backend/app/services/product_service.py:251-277 | the least price per listed product over the offers that sell it, absent exactly for unsold products |
| Catalogue.Store.Refresh | backend/app/services/product_service.py:242-304 | every listed product gets exactly the eligibility and minimum it deserves; everything else is untouched |
| Catalogue.Store.DecideSeller | backend/app/api/v1/endpoints/seller.py:302-320 | refreshing the products a seller has offers for keeps the whole projection fresh after a decision |
| Catalogue.FreshMeans | backend/app/services/product_service.py:214-304 | a fresh product is eligible exactly if an active offer of an approved seller has a piece in active stock, and its minimum is the least price of such offers |
| Catalogue.StoredPriceIsCheapest | backend/app/services/product_service.py:1164-1171 | on a fresh product the stored minimum is the price of the first joined offer |
| Catalogue.SelectedHaveOffers | backend/app/services/product_service.py:214-239 | every selected product keeps an offer in the join |
| Catalogue.RowShows | backend/app/services/product_service.py:214-239 | a row shows each offer of the product that can be bought and passes the filter, as often as it is stored, cheapest first |
| Catalogue.OrdersAgree | backend/app/services/product_service.py:1144-1206 | the indexed sort compares fresh products as the sort after the join does |
| Catalogue.PagingFirstAgrees | backend/app/services/product_service.py:1189-1233 | paging before the join gives exactly the answers that joining, dropping, sorting and then paging gives: items, order and total |
| Catalogue.AnswersAgree | backend/app/services/product_service.py:1180-1233 | whichever way the code goes for a filter and a sort, its answers are those of joining first |
| Catalogue.PagesFirstIff | backend/app/services/product_service.py:1180-1183 | the code pages first for every sort but price, and for price without offer filters |
| Catalogue.FilteredPricesDisagree | backend/app/services/product_service.py:1180-1183 | a concrete price order under an offer filter in which paging first gives another answer, so that the code must join first there |
| Catalogue.ItemOnPage | backend/app/services/product_service.py:1211-1214 | item i of the sorted list is item i mod size of page i / size + 1 |
| Catalogue.PagesInARow | backend/app/services/product_service.py:1211-1214 | pages 1 to k in a row are the first k times size items |
| Catalogue.AllPagesTogether | backend/app/services/product_service.py:1180-1233 | the answers to pages 1, 2 and so on to the end show every selected product once, in the order asked for, and each says how many there are |
| Catalogue.AnswerIsUnique | backend/app/services/product_service.py:1144-1151 | the id breaks every tie between products, so a request has one answer |
| Catalogue.TotalsAgreeIff | backend/app/services/product_service.py:1207-1216 | the total taken before the join is right exactly if every selected product has an offer to show |
| Scores.CauchySchwarz | backend/app/services/product_service.py:1052-1066 | the squared sum of matched weights is at most the number of matches times the sum of all squared weights |
| Scores.SumsOfParts | backend/app/services/product_service.py:1052-1066 | the sums grow by one weight, its square and one match at a time |
| Scores.VectorScoreWithin | backend/app/services/product_service.py:1071-1094 | the vector score lies in [0,1] without a clamp, and a match never meets a zero norm |
| Scores.VectorScoreIsCosine | backend/app/services/product_service.py:1071-1094 | the score squared times both squared norms is the squared sum of matched weights |
| Scores.HybridScoreWithin | backend/app/services/product_service.py:1095-1113 | the blended score lies in [0,1] for every combination of vector and text |
| Scores.HybridParts | backend/app/services/product_service.py:1095-1113 | vector and text count 78 and 22 hundredths together and in full alone; text counts in tenths up to one |
| Scores.SemanticScore | backend/app/services/product_service.py:558-585 | the accumulated score is the vector score and its clamp never changes it |
| DeliveryRanking.RankWithin | backend/app/services/product_service.py:430-478 | every qualifying stock line scores within [0,1] and its tier is at most the number of signals |
| DeliveryRanking.DistanceWorth | backend/app/services/product_service.py:443-471 | between lines that differ in distance alone, each share of the radius is worth 60 hundredths, beyond the radius nothing |
| DeliveryRanking.RelevanceWorth | backend/app/services/product_service.py:445-471 | each share of confirmed signals is worth 7 hundredths; without signals a search counts as all confirmed and browsing 1 hundredth more than none |
| DeliveryRanking.CapacityWorth | backend/app/services/product_service.py:436-471 | each share of free capacity is worth 10 hundredths, with loads and capacities bounded as the code bounds them |
| DeliveryRanking.StockWorth | backend/app/services/product_service.py:439-471 | twenty-five pieces are worth 5 hundredths, fewer in proportion |
| DeliveryRanking.ReadinessWorth | backend/app/services/product_service.py:440-471 | each share of a day of readiness is worth 5 hundredths |
| DeliveryRanking.TopScore | backend/app/services/product_service.py:465-471 | a line that is best in every part scores one |
| DeliveryRanking.TierMeans | backend/app/services/product_service.py:446-455 | the tier counts the signals that the offer confirms, age by its age bounds, height and weight by its fit bounds |
| DeliveryRanking.BestStock | backend/app/services/product_service.py:427-485 | one offer's candidate is the first of its best lines; none exactly if no line qualifies |
| DeliveryRanking.SelectBest | backend/app/services/product_service.py:423-502 | a product is kept exactly if some line qualifies, its candidate is beaten by no line of any of its offers, and it is the first of the best |
| DeliveryRanking.FirstBestUnbeaten | backend/app/services/product_service.py:483-485 | the chosen line is no worse than any other and better than every earlier one |
| DeliveryRanking.NearLinesAreNotPassedOver | backend/app/services/product_service.py:465-502 | within a tier no line is passed over whose distance share is ahead by more than two thirds |
| DeliveryRanking.FirstBestOfParts | backend/app/services/product_service.py:483-502 | choosing per offer and then between offers is choosing among all lines |
| DeliveryRanking.RescoredWithin | backend/app/services/product_service.py:504-590 | both passes keep scores in [0,1] and leave tier and distance alone; the semantic clamp is idle |
| DeliveryRanking.ProfileWorth | backend/app/services/product_service.py:537-557 | meeting every soft field is worth 7 hundredths more than meeting none, which takes 7 from a search and 1 from browsing |
| DeliveryRanking.SemanticWorth | backend/app/services/product_service.py:558-590 | the semantic score counts three tenths and the earlier score seven |
| DeliveryRanking.RankProducts | backend/app/services/product_service.py:423-603 | lists every kept product once with its re-scored rank: higher tiers first, then higher scores, then smaller distances, then smaller ids |
| Quotas.AllocateQuotas | data/scripts/build_processed.py:613-652 | quotas sum to the target, respect counts and fitting minimums, arise by fair rounds from the minimums or from zero, in at most as many rounds as categories; the last check fails only for a negative target |
| Quotas.FillUp | data/scripts/build_processed.py:622-649 | the rounds reach the target exactly, never lower a quota and are no more than the categories |
| Quotas.Round | data/scripts/build_processed.py:623-649 | one round hands out proportional whole shares and the leftovers to the larger remainders, of equal ones to the larger keys, and fills a category if anything is left |
| Quotas.Distribute | data/scripts/build_processed.py:640-649 | applies the takes and the leftovers, conserving what remains |
| Quotas.GrantLeftovers | data/scripts/build_processed.py:644-649 | gives one unit each in rank order while units and room last |
| Quotas.SomeoneFilled | data/scripts/build_processed.py:623-649 | a round that leaves something over has filled an open category |
| Quotas.RoundIsFair | data/scripts/build_processed.py:637-649 | no category that could take one more goes without while one of a smaller remainder, or of an equal one and a smaller key, gets one |
| Quotas.Shares.ExactSharesAddUp | data/scripts/build_processed.py:629-637 | the exact proportional shares add up to what remains |
| Quotas.Shares.RoundBounds | data/scripts/build_processed.py:635-642 | a round takes no more than remains and, unless it fills a category, leaves fewer units than open categories |
| Sampler.CountLarge | data/scripts/build_processed.py:733-770 | counts every category of the first usable row per numeric id |
| Sampler.CandidatesAre | data/scripts/build_processed.py:677-695 | the candidates are the admitted rows of a product that is not excluded, the first of each number |
| Sampler.SameNumberIff | data/scripts/build_processed.py:692-695 | two products have the same number exactly if their ids differ in nothing but zeros in front |
| Sampler.StreamRows | data/scripts/build_processed.py:671-717 | the heaps end with the best rows of each category; the pass fails exactly for a target of zero with a candidate |
| Sampler.OfferKeepsBest | data/scripts/build_processed.py:698-705 | pushing or replacing keeps the heap the best rows so far: no rejected row scores strictly below a kept one |
| Sampler.AllowedCandidates | data/scripts/build_processed.py:683-695 | once every counted category is allowed, the sampler sees exactly the counted rows |
| Sampler.HeapsAreFull | data/scripts/build_processed.py:697-702 | heaps over at least their quota of rows hold exactly their quota |
| Sampler.SelectRows | data/scripts/build_processed.py:718-730 | full heaps need no topping up and give exactly target rows, distinct, in rising score |
| Sampler.BuildSample | data/scripts/build_processed.py:1344-1378 | counting, allocating and sampling on the same rows gives exactly target rows by quotas from fair rounds, with the best scores per category, and never uses the fallback; exact failure conditions |
| Sampler.CountsMean | data/scripts/build_processed.py:733-770 | the counts add up to the candidates and every category is eligible |
| Sharding.GreedyPacks | data/scripts/prepare_openai_vision_batches.py:134-143 | greedy packing keeps the order, loses nothing, makes no empty shard and obeys both limits, a lone oversized request excepted |
| Sharding.GreedyIsOptimal | data/scripts/prepare_openai_vision_batches.py:134-143 | no in-order packing under the same limits uses fewer shards |
| Sharding.GreedyStaysAhead | data/scripts/prepare_openai_vision_batches.py:134-143 | after any prefix greedy uses no more shards, and with equally many its open shard is no longer |
| Sharding.GreedyOnlyGrows | data/scripts/prepare_openai_vision_batches.py:134-143 | a later request never moves an earlier one |
| Sharding.ShardOfHolds | data/scripts/prepare_openai_vision_batches.py:139-156 | the shard number in the manifest is the shard that holds the request |
| BatchPreparation.Preparer.Prepare | data/scripts/prepare_openai_vision_batches.py:104-169 | files, recorded counts and sizes, and manifest are those of the greedy packing of the selected rows; exact error conditions |
| BatchPreparation.PlanMeans | data/scripts/prepare_openai_vision_batches.py:91-169 | every file is within the limits and recorded with its true count and size, and the manifest gives every request the file that holds it |
| BatchPreparation.UsableOfParts | data/scripts/prepare_openai_vision_batches.py:121-133 | the usable rows are taken in their order |
| BatchPreparation.SelectedAre | data/scripts/prepare_openai_vision_batches.py:121-162 | all of them are selected, or as many as asked for from the front |
| BatchPreparation.Preparer.WriteRequest | data/scripts/prepare_openai_vision_batches.py:134-158 | writing one more request keeps the files the greedy packing so far |
| BatchPreparation.Preparer.CloseShard | data/scripts/prepare_openai_vision_batches.py:91-102 | records the true count and size of the open shard and resets it; does nothing without one |
| BatchPreparation.RetryPreparer.Prepare | data/scripts/prepare_openai_vision_retry.py:80-137 | the retry packs exactly the unfinished requests, as the first preparation would; exact error conditions |
| BatchPreparation.RetryPreparer.CheckSources | data/scripts/prepare_openai_vision_retry.py:80-92 | finds missing or repeated ids and results that no request explains |
| BatchPreparation.RetryPreparer.Collect | data/scripts/prepare_openai_vision_retry.py:128-136 | one more line keeps the shards the greedy packing so far |
| BatchPreparation.RetryPreparer.Flush | data/scripts/prepare_openai_vision_retry.py:118-126 | writes the collected lines as one recorded shard, or nothing |
| BatchPreparation.RetryRepeatsPlan | data/scripts/prepare_openai_vision_retry.py:80-137 | retrying a plan of which nothing succeeded repeats its shards |
| BatchPreparation.RetryNeedsNoMore | data/scripts/prepare_openai_vision_retry.py:93-137 | a retry never needs more shards than the plan it repeats |
| BatchPreparation.UnfinishedAre | data/scripts/prepare_openai_vision_retry.py:93-93 | exactly the requests without a result are retried |
| EntityRegistries.EntityRegistry.Register | data/scripts/entity_registry.py:32-80 | the registry and the key become what the decision on that name makes of them |
| EntityRegistries.IndexedLeaves | data/scripts/entity_registry.py:35-41 | an indexed name adds itself to the aliases of its record unless it is the name or one of them, and its source to the sources |
| EntityRegistries.AlikeLeaves | data/scripts/entity_registry.py:43-61 | another name joins the most similar compared record, of equally similar ones that with the last key, if that is 975 in a thousand similar, or 96 in a hundred with four words in five shared |
| EntityRegistries.NewLeaves | data/scripts/entity_registry.py:76-93 | failing that it gets a record under its plain key, or the suffixed one if that is in use, indexed by name and in its bucket |
| EntityRegistries.ReviewLeaves | data/scripts/entity_registry.py:62-74 | a new record is put down for review exactly if the most similar name is 88 in a hundred similar |
| EntityRegistries.EntityRegistry.Scan | data/scripts/entity_registry.py:42-49 | lists exactly the near records with their similarities, in whatever order the sets are walked |
| EntityRegistries.EntityRegistry.Greatest | data/scripts/entity_registry.py:50-51 | picks the pair of highest similarity, then greatest key |
| EntityRegistries.EntityRegistry.Match | data/scripts/entity_registry.py:42-74 | merges exactly above the two thresholds and queues a review exactly between them |
| EntityRegistries.RegisterKeepsValid | data/scripts/entity_registry.py:32-80 | names and keys stay inverse, each record stays in its own bucket only, aliases never repeat or contain the name |
| EntityRegistries.ValidIffKeyIsFree | data/scripts/entity_registry.py:64-80 | adding a record keeps the registry consistent exactly if its key is not in use |
| EntityRegistries.KeyIsTaken | data/scripts/entity_registry.py:64-67 | the key is in use exactly when both the plain and the suffixed one are |
| EntityRegistries.DecisionIsClean | data/scripts/entity_registry.py:34-60 | outside the exact branch the display name is nobody's name, so merging needs no such check |
| EntityRegistries.RunKeepsValid | data/scripts/entity_registry.py:32-80 | consistency holds over every sequence of registrations with free keys |
| EntityRegistries.ExactNamesStay | data/scripts/entity_registry.py:35-40 | an indexed name keeps its key over every sequence of registrations |
| EntityRegistries.SameNameSameKey | data/scripts/entity_registry.py:32-80 | a name once added or found resolves to the same key forever, in every spelling that normalises alike |
| EntityRegistries.MergedNameMoves | data/scripts/entity_registry.py:50-60 | after a new record a merged name goes to it exactly if it is near and outranks the old choice |
| EntityRegistries.RegisterTwice | data/scripts/entity_registry.py:32-80 | registering a name again at once returns the same key and changes nothing |
| EntityRegistries.ScanSees | data/scripts/entity_registry.py:43-49 | the scan sees exactly the records of the same first character, tolerated length and neighbouring length third |
| EntityRegistries.ScanSeesCloseLengths | data/scripts/entity_registry.py:43-49 | in particular every record of the same first character within three characters of length |
| EntityRegistries.ScanCompleteness | data/scripts/entity_registry.py:25-47 | exactly for which lengths the scan sees every tolerated length |
| RecoveryRows.FaultOf | backend/app/services/checkout_recovery_service.py:84-102 | the code is that of the first failing check, and there is none exactly if all pass |
| RecoveryRows.ValidMeans | backend/app/services/checkout_recovery_service.py:77-116 | the valid rows are those made of usable source rows, phone normalised and the rest as it came, and every issue names the first thing wrong with a row that is not usable |
| RecoveryRows.Valid | backend/app/services/checkout_recovery_service.py:77-116 | valid plus invalid rows equal the rows fetched |
| RecoveryRows.ValidateAndDedupe | backend/app/services/checkout_recovery_service.py:77-123 | reports every invalid row with its code and keeps exactly the newest valid row per phone, newest first, ties in order of appearance |
| RecoveryRows.DeduplicationIsUnique | backend/app/services/checkout_recovery_service.py:117-123 | only one list is the deduplication of given rows |
| RecoveryRows.LatestNext | backend/app/services/checkout_recovery_service.py:117-121 | one more row keeps the dictionary the newest row per phone, the first of equally new ones |
| RecoveryRows.Chunks | backend/app/services/checkout_recovery_service.py:43-45 | batches concatenate to the input, none is empty, all but the last are full |
| RecoveryRows.LookupEligible | backend/app/services/checkout_recovery_service.py:126-165 | a row is eligible exactly if its result is no error and the checkout is unknown, or not completed, not active at or after the row's time and not being called; every counter is the number of rows that meet its condition, and every row without an answer is reported |
| RecoveryRows.VerdictMeans | backend/app/services/checkout_recovery_service.py:139-163 | each verdict in terms of the result, in the order of precedence |
| RecoveryLedger.PickedDistinct | backend/app/services/checkout_recovery_service.py:126-165 | the eligible rows still have one row per phone |
| RecoveryOutcomes.EligibleMeans | backend/app/services/checkout_recovery_service.py:368-384 | over all batches, row i goes on exactly if result i mod 500 of batch i / 500 lets it be called |
| RecoveryLedger.HandledAreFirst | backend/app/services/checkout_recovery_service.py:410-423 | a row is settled by the first reply with its index and by no other |
| RecoveryLedger.CountReplies | backend/app/services/checkout_recovery_service.py:411-434 | every reply is counted exactly once and every booking is a scheduled or already scheduled one |
| RecoveryOutcomes.CountsMean | backend/app/services/checkout_recovery_service.py:411-434 | the counters are the numbers of first replies that are scheduled, already scheduled or skipped, and all other replies are failed |
| RecoveryOutcomes.BatchBooks | backend/app/services/checkout_recovery_service.py:411-428 | a batch books exactly the rows whose first reply has one of the two statuses and a call id, under that id |
| RecoveryOutcomes.ReplyIssuesMean | backend/app/services/checkout_recovery_service.py:411-434 | exactly the replies that book nothing are reported, strays without a row, the others with their status |
| RecoveryOutcomes.MissingMeans | backend/app/services/checkout_recovery_service.py:435-438 | exactly the rows without a reply are reported as retryable |
| RecoveryOutcomes.FittingMeans | backend/app/services/checkout_recovery_service.py:389-396 | exactly the rows whose item fits are submitted, and exactly the others are reported |
| RecoveryLedger.IssuePerFailure | backend/app/services/checkout_recovery_service.py:411-434 | there is one issue per skipped or failed reply |
| RecoveryLedger.MissingComplement | backend/app/services/checkout_recovery_service.py:435-438 | the rows without a reply and the answered ones make up the batch |
| RecoveryLedger.CountBatch | backend/app/services/checkout_recovery_service.py:387-438 | one batch counts each of its rows and each stray reply exactly once |
| RecoveryLedger.BatchBooksOnce | backend/app/services/checkout_recovery_service.py:411-428 | one batch books no phone twice, whatever comes back |
| RecoveryLedger.BooksOnce | backend/app/services/checkout_recovery_service.py:386-438 | no phone is booked twice across all batches |
| RecoveryLedger.ScheduleBalances | backend/app/services/checkout_recovery_service.py:386-438 | scheduled, already scheduled, skipped and failed add up to the eligible rows plus the stray replies |
| RecoveryLedger.ReplyFor | backend/app/services/checkout_recovery_service.py:454-467 | the last reply naming a row counts; failing that the one in its position if it has no index |
| RecoveryOutcomes.ConfirmedMeans | backend/app/services/checkout_recovery_service.py:454-474 | exactly the bookings are marked whose reply, as it counts for them, is ok |
| RecoveryOutcomes.UnconfirmedMeans | backend/app/services/checkout_recovery_service.py:462-477 | every other is reported as retryable with the code of that reply |
| RecoveryLedger.ActivityBalances | backend/app/services/checkout_recovery_service.py:440-477 | every booking is confirmed or listed with an issue |
| RecoveryLedger.ConfirmsOnce | backend/app/services/checkout_recovery_service.py:440-477 | no checkout is marked twice in a run |
| RecoveryLedger.OncePerPhone | backend/app/services/checkout_recovery_service.py:368-477 | for any answers, bookings and marks have one row per phone, bookings are eligible rows and marks are bookings |
| RecoveryLedger.RunBalances | backend/app/services/checkout_recovery_service.py:368-477 | the four balances of the summary hold for any answers |
| RecoveryRun.Run.Execute | backend/app/services/checkout_recovery_service.py:337-492 | exactly when a run finishes, fails or is outside its window; a finished run's counts balance, and every run, a failed one too, books and marks no phone twice |
| RecoveryRun.Run.LookupAll | backend/app/services/checkout_recovery_service.py:368-383 | looking up in batches says what one lookup of all rows would say |
| RecoveryRun.Run.ScheduleBatch | backend/app/services/checkout_recovery_service.py:387-438 | counters, issues and bookings of one batch are those its replies call for |
| RecoveryRun.Run.TakeReplies | backend/app/services/checkout_recovery_service.py:411-434 | each reply in turn is counted, booked or listed, repeated and foreign indexes as failures |
| RecoveryRun.Run.NoteMissing | backend/app/services/checkout_recovery_service.py:435-438 | every row without a reply is a retryable failure |
| RecoveryRun.Run.ActivityBatch | backend/app/services/checkout_recovery_service.py:440-477 | marks exactly the confirmed bookings and lists the others |
| CheckoutIdentity.MarksOnlyUntouched | backend/app/services/checkout_recovery_service.py:468-474 | whatever happens between reading and marking, the mark takes effect exactly when no change of that cart was captured, and otherwise changes nothing |
| CheckoutIdentity.SoundRun | backend/app/services/checkout_activity_service.py:40-92 | over every run, captures overlapping or not, a row's external id is current exactly if its version is, and only handed out tokens are kept, the newest among them |
| CheckoutIdentity.VersionCountsChanges | backend/app/services/checkout_activity_service.py:83-92 | the event version stays the same exactly if no change of that cart was captured |
| CheckoutIdentity.RepeatedIdMarksChangedCart | backend/app/services/checkout_activity_service.py:45-62 | with a repeated external id a changed cart would be marked |
| CheckoutIdentity.KeepsTheLastFive | backend/app/services/checkout_activity_service.py:48-54 | a capture that has seen all earlier tokens keeps the last five with its own |
| CheckoutIdentity.KeepsTheNewest | backend/app/services/checkout_activity_service.py:48-54 | a capture always keeps its own token, at most five, and only tokens it has read |
| CheckoutIdentity.NewestResolves | backend/app/services/checkout_activity_service.py:161-177 | in every state the newest link resolves, and every link that resolves was handed out |
| CheckoutIdentity.SecondNewestResolvesIff | backend/app/services/checkout_activity_service.py:48-54 | after any captured change the previous link still resolves exactly if no other capture wrote between this one's read and write |
| CheckoutIdentity.OverlapLosesToken | backend/app/services/checkout_activity_service.py:49-92 | two captures that both read first lose a token |
| CheckoutIdentity.LinksOfTheLastFive | backend/app/services/checkout_activity_service.py:49-92 | throughout a run the last five tokens and no others resolve, if and only if no capture of the user writes between another one's read and write |
| CheckoutIdentity.Checkouts.CaptureCartActivity | backend/app/services/checkout_activity_service.py:40-92 | reads the hashes, and after whatever others do writes the new identity, the next version, the status that items and phone give, and the kept tokens, and touches no other document |
| CheckoutIdentity.Checkouts.ReadSource | backend/app/services/checkout_recovery_service.py:340-348 | hands out a checkout exactly if it is active, with its current identity |
| CheckoutIdentity.Checkouts.MarkScheduled | backend/app/services/checkout_recovery_service.py:468-474 | marks the document exactly if its version is the one that was read, and touches no other |

## Left out

- HTTP routing, authentication, request schemas, logging, file reading and writing, geocoding and all frontend code: no state worth an invariant.
- The telephony, language-model and recovery services: each answer is an arbitrary input.
- MongoDB internals: every store call is one atomic step; unique indexes are preconditions or a skipped insert. The order in which a pending call of equal schedule is picked is open.
- Clocks, random ids and tokens: parameters, fresh where the code generates them.
- Regular expressions, Unicode normalisation, phone normalisation, slugs, hashes and string similarity: parameters of the model, whatever they compute.
- Floating-point rounding in scores, quotas and the registry's length tolerance: exact reals and integers.
- Square roots and category weights: any function with the property used (a square root that is not negative, a weight that is positive).
- Daylight-saving changes in calling windows: the zone is a fixed offset, as the configured one is.
- DispatchSafety.HeldNext: actions that let a dispatcher and a request hold the call at once are outside this and the other results that name `AllApart` or `ApartIn`; DispatchOverlaps says what holds with them.
- DispatchRuns.AfterRingingIsApart: that requests read a call only after its ringing was saved is an assumption; the room and its voice worker exist before that save.
- DispatchRuns.LineLimit: MaxConcurrency is fixed during a run.
- CallService.Service.DispatchOne: a dispatcher alone with the store; interleaving is the protocol's subject.
- CallService.Service.TriggerCall: request limits, number formats and the choice of swarm and agent come before the part that is modelled.
- CallService.CallStore.SaveCall: a replace that the unique key refuses; the callers that may meet one look for it first.
- CallService.Service.RecordHandoff: the captured values stored with the call; the reason is taken as already trimmed.
- CallService.Service.CompleteCall: transcripts, dispositions and follow-up actions are not part of the document here.
- CallService.Service.ScheduleCampaign: the campaign's own status and counters, which are written afterwards.
- VoiceWorker.Worker.HandoffToNextAgent: nobody else writes the call between its read and its save here; the protocol says what happens otherwise.
- VoiceWorker.Worker.PrepareHandoff: the trimming of the reason and of the route before it.
- Transition conditions: which edge condition matches which captured data is an arbitrary predicate.
- Catalogue.PagingFirstAgrees: the sorts that end in the product id (created, newest, price in both directions); rating, title and relevance have no such tie-break, and the candidate limit of hybrid searches applies before either path.
- Catalogue.AnswerIsUnique: offers of one product that cost the same come in one fixed order here; the source leaves their order open.
- DeliveryRanking.RankProducts: the geographic query, pincode lookup, offer conditions and the public shape of the answer.
- Sampler.StreamRows: heaps are sorted lists; which of several rows with equal scores is dropped follows the list, not the product id.
- Batch upload, polling and result collection.
- EntityRegistries.EntityRegistry.Register: metadata, slugs kept on the record, rounding in review entries, and the export.
- RecoveryRun.Run.Execute: the configuration, the run document and its lock; whether the calling window is open is an input; the contents of scheduled items and activity items beyond their size check.
- CheckoutIdentity.Checkouts.ReadSource: the payment, item count and eligibility-time conditions of the source query.
- CheckoutIdentity.LinksOfTheLastFive: only the matching of tokens; a link must also be unexpired and its cart unpaid and not empty.
- CheckoutIdentity.MarksOnlyUntouched: speaks of captured changes; the cart itself is written before its change is captured, and a mark in between still applies. Cart contents, prices and payment are not part of the document here.
