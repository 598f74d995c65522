# Verification of the bridge's stateful cores

The bridge sits between a desktop coding agent and a phone. It accepts messages from the phone and hands
them to the agent, caches and pages the events of each thread, serves local images under opaque tokens,
detects when a thread needs attention, and pushes alerts. The web client folds the event stream back into
a list to show. This project models the parts of that system whose correctness rests on state that changes
over time, and proves what they keep over whole runs.

Code that updates state in place is a class here, with methods tied to functions on values; the properties
are then proved about those functions, about transition systems whose steps interleave freely, and about
whole runs of them. Code that the repository writes as expressions is a set of functions and lemmas.

| File | What it models |
|---|---|
| `MessageDedupe.dfy`, `MessageAnswers.dfy`, `MessageRetry.dfy`, `MessageExchange.dfy` | idempotent message delivery: the claim, complete and fail sections, the protocol of requests, tasks and wakeups, what requests are told, the client's bounded retry, and the two composed |
| `LocalAssets.dfy` | the local asset registry, refining a recency list, and the list as an LRU cache |
| `SessionEvents.dfy`, `AdapterCache.dfy`, `EventPaging.dfy` | the adapter event cache as a canonical sorted vector, cursor walks over it, and the event history ring |
| `PushStore.dfy`, `PushWorker.dfy`, `PushOutbox.dfy`, `AlertDispatch.dfy` | the push outbox: tables, the draining worker, all parties interleaved with crashes, and the dispatcher that fills it |
| `AlertDetector.dfy`, `AlertRuns.dfy`, `AlertMonitor.dfy` | alert detection, its runs, the identity of alerts, and its two writers |
| `EventHub.dfy`, `EventFanOut.dfy` | the event hub, its subscribers, and snapshot fan-out with store and publish as separate steps |
| `ClientEvents.dfy`, `SessionMerge.dfy`, `SessionListing.dfy`, `MessageReconciliation.dfy`, `DeltaStreaming.dfy`, `TurnGroups.dfy` | the web client: merging events, what gets listed, reconciling copies of a message, assembling deltas, grouping turns |
| `ThreadList.dfy`, `CdpQueue.dfy` | the two reading loops against an unpredictable peer |
| `Wrappers.dfy`, `Sequences.dfy`, `Text.dfy`, `Ordering.dfy`, `Sqlite.dfy` | shared vocabulary, and the integer range of the database |

Some expected properties do not hold of the code without a condition. In each case the exact condition is
stated and proved:

- A dedupe key is ambiguous when a device id contains a line feed: two devices can share a key exactly when one
  id followed by a line feed starts the other (`MessageDedupe.DevicesCollideExactly`, `MessageDedupe.KeyCollision`).
- The store refuses times beyond the signed 64-bit range, so a drain in the last four seconds of that range can
  end in an error with a row left in `sending`. `PushWorker.PushDeliveryWorker.DrainDueOnceAt` succeeds exactly
  when no due row is doomed, and `PushWorker.DoomIsLateness` says when a row can be.
- `failed` is left exactly when the worker overwrites a row that was failed in its hands
  (`PushOutbox.FailedIsLeftExactly`), so a failed row is failed for good exactly when no worker holds its key or
  the one that does has no other verdict coming (`PushOutbox.FailedForGoodExactly`).
- A sent row was accepted by the transport exactly when the worker did not record on it the acceptance of a
  deleted row of its key (`PushOutbox.SentMeansAccepted`); a row enqueued while the worker carries such an
  acceptance meets that fate (`PushOutbox.OvertakenRowIsNotSent`).
- Native approvals are alerted exactly once each exactly when every id that is listed again is among the newest
  256 and no list repeats a new id (`AlertRuns.AlertsOnceExactly`; `AlertRuns.EvictedIdAlertsAgain`,
  `AlertRuns.RepeatedIdAlertsRepeatedly`). A native id and an unnamed approval share an alert id exactly when the id
  is the decimal cycle (`AlertRuns.NativeMeetsFallback`).
- Subscribers converge on the stored snapshot through a whole schedule exactly when no two different
  `set_snapshot` calls of one thread overlap in it (`EventFanOut.SchedulesConvergeExactly`); an overlap can leave
  every subscriber with the older snapshot (`EventFanOut.OverlapLeavesStale`).
- The copies of a user message end as one exactly when each that arrives shares the id of the one then shown,
  replaces an optimistic one, or is within five minutes of it (`MessageReconciliation.OneCopyExactly`,
  `MessageReconciliation.DistantCopiesStay`).
- A whole event that is not a user message stays listed under its id, unless a user message arrives under that id
  (`SessionListing.EveryArrivalIsListed`); an id leaves the list exactly when an arriving user message takes the
  place of its entry (`SessionListing.IdLeavesExactly`, `SessionListing.IdCanBeTaken`).

`dafny verify dfyconfig.toml` checks the whole project.

## Model

| member | source | states |
|---|---|---|
| `MessageDedupe.KeyIdentifies` | crates/bridge-core/src/http_api.rs:2226-2247 | For client ids without a line feed, as the header check demands, two dedupe keys are equal exactly when the client ids are equal and device plus thread join to the same text; without line feeds in the device ids all three parts agree |
| `MessageDedupe.DevicesCollideExactly` | crates/bridge-core/src/http_api.rs:2226-2247 | Two different devices can share a dedupe key, under some pair of threads, exactly when one device id followed by a line feed starts the other |
| `MessageDedupe.KeyCollision` | crates/bridge-core/src/http_api.rs:2245-2247 | A line feed in a device id lets two different triples share a key |
| `MessageDedupe.MessageDedupeCache.constructor` | crates/bridge-core/src/http_api.rs:2249-2253 | The cache starts empty |
| `MessageDedupe.MessageDedupeCache.ClaimOnce` | crates/bridge-core/src/http_api.rs:2253-2268 | A claim finds the key completed, in flight under some notification, or free, and only a free key is written |
| `MessageDedupe.MessageDedupeCache.Complete` | crates/bridge-core/src/http_api.rs:2276-2293 | Completing marks the key, queues it and evicts from the front of the queue while it is too long |
| `MessageDedupe.MessageDedupeCache.Fail` | crates/bridge-core/src/http_api.rs:2296-2299 | Failing removes the key and nothing else |
| `MessageDedupe.CompleteKeepsFifo` | crates/bridge-core/src/http_api.rs:2276-2293 | The completion queue stays duplicate-free, lists exactly the completed keys, holds at most 1024, and loses exactly its oldest key when it was full |
| `MessageDedupe.StepKeepsInv` | crates/bridge-core/src/http_api.rs:2147-2190 | Every step of every request and delivery task keeps the protocol invariant |
| `MessageDedupe.RunKeepsInv` | crates/bridge-core/src/http_api.rs:2147-2190 | So does every run |
| `MessageDedupe.DeliveryIsIdempotent` | crates/bridge-core/src/http_api.rs:2147-2299 | In every interleaving: one live owner per key, between two successes of a key it was evicted, the queue is the last 1024 completions, and an accepted answer means that a delivery succeeded |
| `MessageDedupe.StartsOnlyWhenFree` | crates/bridge-core/src/http_api.rs:2160-2181 | A delivery starts only while nobody delivers the key and no success of it is remembered |
| `MessageDedupe.NoLostWakeup` | crates/bridge-core/src/http_api.rs:2253-2272 | A waiting claimant waits on a task that has still to notify; when every task has notified, nobody waits |
| `MessageDedupe.SomeStepEnabled` | crates/bridge-core/src/http_api.rs:2249-2299 | While a request is unanswered some step other than giving up is possible: there is no deadlock |
| `MessageDedupe.QuietStepReducesWork` | crates/bridge-core/src/http_api.rs:2249-2299 | Every step but a new arrival strictly reduces a lexicographic measure |
| `MessageDedupe.QuietRunsEnd` | crates/bridge-core/src/http_api.rs:2249-2299 | Once requests stop arriving no execution is infinite, whatever the scheduler does |
| `MessageDedupe.StuckMeansAnswered` | crates/bridge-core/src/http_api.rs:2249-2299 | An execution that has nothing left to do has answered every request |
| `MessageDedupe.AloneIsTold` | crates/bridge-core/src/http_api.rs:2147-2201 | A request that has the key to itself runs through six steps and is told how its delivery ended; a new request may arrive and an old one be given up at any time |
| `MessageAnswers.AnswersTellDeliveries` | crates/bridge-core/src/http_api.rs:2159-2201 | Read off the steps: who is told accepted, a delivery of that key succeeded; who is told otherwise, the delivery that this request had claimed failed |
| `MessageAnswers.OwnersAreTold` | crates/bridge-core/src/http_api.rs:2163-2184 | Every delivery was claimed by a request, and that request, unless given up, is told accepted exactly when this delivery succeeded and refused exactly when it failed |
| `MessageAnswers.DeliveredOnce` | crates/bridge-core/src/http_api.rs:2163-2184 | A task delivers at most once |
| `MessageRetry.SendTextMessage` | apps/mobile-pwa/src/api.ts:260-310 | The client goes on exactly after a network error or status 408, 429 or from 500 on, at most to a third request, waits 250 and 750 ms, and succeeds exactly when its last request gets a 2xx status |
| `MessageExchange.SentMeansDeliveredOnce` | apps/mobile-pwa/src/api.ts:260-310 | Against the protocol of the server, over a network that may lose or fail any reply: a send that succeeds was delivered, and however many attempts were made there is at most one delivery as long as the key is not evicted |
| `MessageExchange.FirstCompletionsStay` | crates/bridge-core/src/http_api.rs:2276-2293 | Up to the 1024th completion no key is evicted, in any interleaving |
| `MessageExchange.SentIsOneDelivery` | apps/mobile-pwa/src/api.ts:260-310 | Among the first 1024 completions a successful send is exactly one delivery |
| `MessageExchange.DeliveredMeansSent` | apps/mobile-pwa/src/api.ts:260-310 | The converse: over a network that loses no answer, when nobody else sends the key and no attempt is given up, the send succeeds exactly when the message was delivered |
| `MessageExchange.LogCountsDeliveries` | crates/bridge-core/src/http_api.rs:2147-2190 | The successes that the protocol logs for a key are the successful delivery steps of its tasks |
| `LocalAssets.LocalAssetRegistry.constructor` | crates/bridge-core/src/local_assets.rs:63-78 | A new registry refines the empty recency list |
| `LocalAssets.LocalAssetRegistry.RemoveToken` | crates/bridge-core/src/local_assets.rs:166-170 | Removing a token removes one item of the list |
| `LocalAssets.LocalAssetRegistry.TouchExisting` | crates/bridge-core/src/local_assets.rs:122-138 | Touching moves one item to the recent end |
| `LocalAssets.LocalAssetRegistry.PruneExpired` | crates/bridge-core/src/local_assets.rs:140-150 | Pruning keeps exactly the items registered at most the time to live ago, in order |
| `LocalAssets.LocalAssetRegistry.EnforceCapacity` | crates/bridge-core/src/local_assets.rs:152-164 | The eviction loop keeps exactly the most recent entries |
| `LocalAssets.LocalAssetRegistry.RegisterImage` | crates/bridge-core/src/local_assets.rs:80-105 | Registration refines the list operation: an unexpired path keeps its token, another gets the new one and the least recent items leave; the fallback after a failed touch is unreachable |
| `LocalAssets.LocalAssetRegistry.ResolvePath` | crates/bridge-core/src/local_assets.rs:107-116 | Lookup refines the list operation |
| `LocalAssets.SameSize` | crates/bridge-core/src/local_assets.rs:152-164 | The two maps have as many entries as the list |
| `LocalAssets.TokenLookup` | crates/bridge-core/src/local_assets.rs:107-138 | A token is found in the map exactly when it is found in the list, with the same path |
| `LocalAssets.PathLookup` | crates/bridge-core/src/local_assets.rs:80-105 | A path is found in the map exactly when it is found in the list, with the same token |
| `LocalAssets.LruOverRuns` | crates/bridge-core/src/local_assets.rs:80-184 | Over any run and any clock, even one that goes back, an entry that does not expire survives while never as many as the capacity of distinct other tokens were touched since it last was, and, when no other entry expires either, only then |
| `LocalAssets.StepKeeps` | crates/bridge-core/src/local_assets.rs:80-184 | The same for one operation |
| `LocalAssets.GoneForGood` | crates/bridge-core/src/local_assets.rs:80-116 | A token that has left the list never comes back, as new tokens are fresh |
| `LocalAssets.UniqueOverRuns` | crates/bridge-core/src/local_assets.rs:80-184 | The tokens of the list stay pairwise distinct over every run |
| `LocalAssets.RegisterKeeps` | crates/bridge-core/src/local_assets.rs:80-105 | A registration leaves its entry the most recent one; with a capacity of zero it leaves nothing |
| `LocalAssets.RegisteredTokenResolves` | crates/bridge-core/src/local_assets.rs:80-116 | A token handed out for a path resolves to that path after every run that neither outlasts its time to live nor crowds it out; once its time is over, be it only for one operation, it never resolves again, and when nothing else expires, neither once it is crowded out |
| `LocalAssets.TokenResolvesExactly` | crates/bridge-core/src/local_assets.rs:107-116 | A listed token resolves to its path up to and including the last millisecond of its time to live, and to nothing afterwards |
| `LocalAssets.OverageIsGone` | crates/bridge-core/src/local_assets.rs:140-184 | After one operation beyond its time a token is gone for the rest of the run, even if the clock goes back |
| `AdapterCache.ComparatorIsStrict` | crates/bridge-core/src/http_api.rs:1652-1657 | The sort comparator is a strict order and total on different ids, for any item order |
| `AdapterCache.SortedMeansOldestFirst` | crates/bridge-core/src/http_api.rs:1652-1657 | In a sorted vector no event is older than one in front of it; at equal times events without an item number come first, then the lesser number, then the lesser id |
| `AdapterCache.MergeIsCanonical` | crates/bridge-core/src/http_api.rs:1642-1659 | Merging overlays the incoming events on the content by id and yields the one strictly sorted listing of it |
| `AdapterCache.SameContentSameVector` | crates/bridge-core/src/http_api.rs:1642-1659 | Two sorted listings of one content are equal |
| `AdapterCache.DisjointPagesCommute` | crates/bridge-core/src/http_api.rs:1642-1659 | Pages with disjoint ids may be merged in either order |
| `AdapterCache.MergeIgnoresLayout` | crates/bridge-core/src/http_api.rs:1642-1659 | The result depends on what the cache held, not on how it was laid out |
| `AdapterCache.ReplaceIsCanonical` | crates/bridge-core/src/http_api.rs:1555-1615 | A turn snapshot wins by id, and of the rest exactly the surviving events stay |
| `AdapterCache.ReplayIsIdempotent` | crates/bridge-core/src/http_api.rs:1555-1615 | Replaying the same turn snapshot leaves the vector unchanged |
| `AdapterCache.AnchorIsEarliest` | crates/bridge-core/src/http_api.rs:1566-1577 | The anchor of a turn is the earliest time at which the snapshot speaks of it |
| `AdapterCache.SnapshotSurvivors` | crates/bridge-core/src/http_api.rs:1578-1613 | Every event afterwards is the last of its id in the snapshot or a cached event; a cached tool event of a listed turn of which the snapshot speaks gets the earliest time at which it does, and any other is unchanged |
| `AdapterCache.ReplacementLists` | crates/bridge-core/src/http_api.rs:1586-1614 | After a turn snapshot exactly these ids are listed: its own, those of cached non-tool events outside the listed turns, of tool results in listed turns, and of tool calls in listed turns that are active |
| `AdapterCache.PagesStayCanonical` | crates/bridge-core/src/http_api.rs:1496-1552 | Every sequence of merged pages leaves the vector id-unique and strictly sorted |
| `AdapterCache.AdapterEventCache.MergeEvents` | crates/bridge-core/src/http_api.rs:1642-1659 | The in-place merge computes the specified vector and counts the events whose id is new |
| `AdapterCache.AdapterEventCache.ReplaceTurnEvents` | crates/bridge-core/src/http_api.rs:1555-1615 | The in-place loops compute the specified replacement |
| `AdapterCache.AdapterEventCache.FetchOlder` | crates/bridge-core/src/http_api.rs:1523-1544 | At most four older pages are fetched, each with the cursor of the one before and none that was not due; it ends well exactly when no further page is due, and fails exactly when one that is due does not come |
| `AdapterCache.AdapterEventCache.EventsForQuery` | crates/bridge-core/src/http_api.rs:1496-1552 | A query is refused exactly for a zero limit, and fails exactly when the first page or an older page that is due does not come; otherwise it is answered with the whole vector and whether there is more, and the newest 256 events of that replace the event history. The result stays canonical; a refusal or a missing first page changes nothing |
| `AdapterCache.DueSpelledOut` | crates/bridge-core/src/http_api.rs:1523-1544 | A further page is due exactly when fewer than four came, there is a cursor to go on with, the client's cursor is listed with fewer than limit events in front of it, and the last page made progress |
| `EventPaging.AskBeforeServes` | crates/bridge-core/src/http_api.rs:1738-1779 | A before-query serves the events in front of its cursor, up to the limit |
| `EventPaging.BeforeWalkPartitions` | crates/bridge-core/src/http_api.rs:1738-1779 | Following before-cursors from the newest page or any cursor terminates and cuts the list into consecutive pages, all full but the last |
| `EventPaging.AskSinceServes` | crates/bridge-core/src/http_api.rs:1738-1779 | A since-query serves from its cursor on, at least two events where there are two |
| `EventPaging.SinceWalkCovers` | crates/bridge-core/src/http_api.rs:1738-1779 | Following since-cursors from any event terminates, even at limit 1, and covers the whole suffix, consecutive pages sharing exactly one event |
| `EventPaging.UnknownCursorResets` | crates/bridge-core/src/http_api.rs:1703-1779 | An unknown cursor resets to the newest page; a zero limit or both cursors at once are refused |
| `EventPaging.PagesAreBounded` | crates/bridge-core/src/http_api.rs:1712-1779 | A page has at most the events asked for, 50 by default, and at most 100; a since-page may have one more than asked for; the newest page has as many as there are |
| `EventPaging.EventHistory.Record` | crates/bridge-core/src/http_api.rs:585-594 | Recording appends and drops the oldest event of a full ring |
| `EventPaging.EventHistory.Replace` | crates/bridge-core/src/http_api.rs:596-603 | Replacing keeps the newest 256 events |
| `EventPaging.HistoryIsSuffix` | crates/bridge-core/src/http_api.rs:585-603 | After any run the ring holds the newest 256 of everything since the last replacement |
| `PushStore.NextDueExists` | crates/bridge-core/src/notification_store.rs:494-510 | When a row is due, the claiming query selects exactly the first in its order |
| `PushStore.NotificationStore.Open` | crates/bridge-core/src/notification_store.rs:161-229 | Reopening gives rows left in sending back to the queue and changes no other row |
| `PushStore.NotificationStore.EnqueueDelivery` | crates/bridge-core/src/notification_store.rs:473-492 | A row is inserted unless its key exists; a row with a time beyond the signed range is refused |
| `PushStore.NotificationStore.ClaimNextDueDelivery` | crates/bridge-core/src/notification_store.rs:494-535 | Of the pending rows whose time has come, the claim takes the one due first, then updated first, then with the least event id and device id, and returns it in sending with one more attempt; none is claimed exactly when none is due; a time beyond the signed range is refused without a change |
| `PushStore.NotificationStore.UpdateDeliveryStatus` | crates/bridge-core/src/notification_store.rs:657-685 | The status is written whatever the current one is, unless one of the two times is refused |
| `PushStore.NotificationStore.MarkDeliverySent` | crates/bridge-core/src/notification_store.rs:545-565 | Sent is recorded on the row, and the success on the subscription unless it is invalid, or neither when the time is refused |
| `PushStore.NotificationStore.FailPendingDeliveries` | crates/bridge-core/src/notification_store.rs:618-627 | Pending and sending rows fail, others stay, and the count is returned, unless the time is refused |
| `PushStore.NotificationStore.InvalidateSubscription` | crates/bridge-core/src/notification_store.rs:451-457 | Invalidating touches the subscription of that device only, unless the time is refused |
| `PushStore.NotificationStore.DeleteDeviceRows` | crates/bridge-core/src/notification_store.rs:331-347 | Deleting a device removes its rows and its subscription |
| `PushWorker.ProcessEffect` | crates/bridge-core/src/push_delivery_worker.rs:57-129 | Processing touches one row, keeps its attempts and never leaves it in sending; a waiting row is due exactly one retry delay later; when the retry is refused nothing is written |
| `PushWorker.RetryIsLater` | crates/bridge-core/src/push_delivery_worker.rs:111-119 | The retry index is in bounds, and the retry is storable exactly while the clock plus the delay is at most the largest signed 64-bit time; then it lies later by the delay |
| `PushWorker.ServeReducesDue` | crates/bridge-core/src/push_delivery_worker.rs:41-55 | A served row leaves the due rows and no other does, so the drain ends |
| `PushWorker.DoomIsLateness` | crates/bridge-core/src/push_delivery_worker.rs:57-129 | A drain can be doomed exactly when some due row that may be sent has a retry delay that ends beyond storable time, which four seconds before that end is never so; the transport that always asks for a retry dooms every such drain |
| `PushWorker.PushDeliveryWorker.ProcessDelivery` | crates/bridge-core/src/push_delivery_worker.rs:57-129 | The worker writes exactly the specified outcome for the claimed row, and fails exactly when the store refuses the time or the retry |
| `PushWorker.PushDeliveryWorker.ServeNext` | crates/bridge-core/src/push_delivery_worker.rs:47-54 | One turn claims the next due row and processes it, or finds none due, or is refused |
| `PushWorker.PushDeliveryWorker.DrainDueOnceAt` | crates/bridge-core/src/push_delivery_worker.rs:41-55 | Without other writers the drain succeeds exactly when the time is storable and no due row is doomed; then it serves every initially due row exactly once, in query order, and returns their number. Otherwise it has served the rows in front of the first doomed one and leaves that one in sending |
| `PushOutbox.StepKeepsInv` | crates/bridge-core/src/notification_store.rs:473-685 | Every step of worker, dispatcher, control API and crash recovery keeps the outbox invariant |
| `PushOutbox.RunKeepsInv` | crates/bridge-core/src/notification_store.rs:473-685 | So does every interleaving of them |
| `PushOutbox.AttemptsAreBounded` | crates/bridge-core/src/push_delivery_worker.rs:57-129 | The attempts of a row, and the transmissions of each generation among the steps of the run, never exceed four plus the crashes; a sending row is in the worker's hands or was claimed in the last four seconds of storable time; a sent row was accepted by the transport unless it was overtaken |
| `PushOutbox.LedgersCountSteps` | crates/bridge-core/src/push_delivery_worker.rs:57-129 | The ledgers count the transmissions, the acceptances and at most the crashes among the steps |
| `PushOutbox.EndLeavesNothingDue` | crates/bridge-core/src/push_delivery_worker.rs:41-55 | A drain that ends leaves the worker idle, changes nothing else, and leaves no pending row whose time has come |
| `PushOutbox.DrainGoesOn` | crates/bridge-core/src/push_delivery_worker.rs:41-55 | A drain always has a row to claim or can end |
| `PushOutbox.FinalStaysInStep` | crates/bridge-core/src/notification_store.rs:657-685 | Sent and invalid rows, and failed ones that no worker will overwrite, keep their status in every step |
| `PushOutbox.FinalIsAbsorbing` | crates/bridge-core/src/notification_store.rs:657-685 | Over any run such a row keeps its status until it is deleted |
| `PushOutbox.FailedIsLeftExactly` | crates/bridge-core/src/notification_store.rs:657-685 | A step takes a failed row out of failed exactly when it is a write of the worker that holds the row, with a verdict other than failed |
| `PushOutbox.FailedForGoodExactly` | crates/bridge-core/src/notification_store.rs:618-627 | A failed row stays failed over every run exactly when no worker holds its key, or the one that does has only failure or a refused retry left to write |
| `PushOutbox.GenerationsDoNotReturn` | crates/bridge-core/src/notification_store.rs:473-492 | A deleted row never comes back; enqueueing the key again starts a new generation |
| `PushOutbox.InTransitIsReachable` | crates/bridge-core/src/push_delivery_worker.rs:57-99 | A state in which the transport has accepted a row and the result is still to be recorded is reachable |
| `PushOutbox.FailedCanBecomeSent` | crates/bridge-core/src/notification_store.rs:618-627 | The condition can fail: from the reachable state in transit, failing all rows and then recording the acceptance ends in sent |
| `PushOutbox.OvertakenRowIsNotSent` | crates/bridge-core/src/notification_store.rs:331-347 | In every state in which the worker carries an accepted row that was deleted, a row enqueued under the same key is marked sent without being transmitted |
| `PushOutbox.SentUnacceptedExactly` | crates/bridge-core/src/push_delivery_worker.rs:57-129 | A row becomes sent without an acceptance of its own in no other way than by the worker recording the acceptance of a deleted row of its key, and stays so until it is deleted |
| `PushOutbox.SentUnacceptedOverRun` | crates/bridge-core/src/push_delivery_worker.rs:57-129 | Over any run a row ends so exactly when the worker did this to it at some point, or it began so, and it was not deleted since |
| `PushOutbox.SentMeansAccepted` | crates/bridge-core/src/push_delivery_worker.rs:57-129 | From the start of the system, the run has a transmission of a sent row that was accepted exactly when no such record was made on it |
| `PushOutbox.DeletedInTransit` | crates/bridge-core/src/notification_store.rs:331-347 | Deleting the device of a row in transit gives such a state |
| `PushOutbox.TurnIsARun` | crates/bridge-core/src/push_delivery_worker.rs:57-129 | Without interference the worker's steps, from the claim to the record or the withdrawal, are the sequential turn, and end the drain exactly when that fails |
| `AlertDispatch.NotificationDispatcher.EnqueuePush` | crates/bridge-core/src/notification_dispatcher.rs:96-150 | A row is added exactly when pushing is configured, the access is named with an origin, the active subscription has that origin, the time is storable and the key is new; only then is the worker woken |
| `AlertDispatch.NotificationDispatcher.Dispatch` | crates/bridge-core/src/notification_dispatcher.rs:48-72 | Each enabled device that wants the kind gets one targeted envelope, in order, and the reachable ones a row; the worker is woken once per new row and the receivers reached are summed. The first refused insert ends the dispatch, with an envelope for its target and all before it |
| `AlertDispatch.TargetsWantTheKind` | crates/bridge-core/src/notification_dispatcher.rs:48-56 | The targets are exactly the enabled devices whose settings list the kind, as often as the settings list them |
| `AlertDispatch.EnqueuedRows` | crates/bridge-core/src/notification_dispatcher.rs:57-70 | New rows belong to the event and to reachable targets, every reachable target has one unless its time was refused, and existing rows are unchanged |
| `AlertDispatch.RedispatchIsIdempotent` | crates/bridge-core/src/notification_dispatcher.rs:48-72 | Dispatching an alert again resets no row, and while the rows of the first dispatch exist it adds none except for targets that were refused the first time |
| `AlertDetector.StableEventId` | crates/bridge-core/src/alert_detector.rs:151-158 | The hash input is the length-prefixed concatenation of the parts |
| `AlertDetector.EncodeInjective` | crates/bridge-core/src/alert_detector.rs:151-158 | The length-prefixed encoding is uniquely decodable |
| `AlertDetector.BigEndianNumeral` | crates/bridge-core/src/alert_detector.rs:151-158 | The eight length bytes are the numeral of the length, the most significant byte first |
| `AlertDetector.IdsSpelledOut` | crates/bridge-core/src/alert_detector.rs:71-140 | The parts of every id, with the name of the kind first |
| `AlertDetector.CycleIdsDiffer` | crates/bridge-core/src/alert_detector.rs:127-140 | Cycle-numbered ids of one thread agree only for one cycle |
| `AlertDetector.CompletedIdsDiffer` | crates/bridge-core/src/alert_detector.rs:86-97 | Completion ids of one thread agree only for one pair of timestamps |
| `AlertDetector.ScanApprovals` | crates/bridge-core/src/alert_detector.rs:33-47 | The two loops find the ids not known before and the memory afterwards, cut to its newest 256 |
| `AlertDetector.NativeApprovalAlerts` | crates/bridge-core/src/alert_detector.rs:73-81 | One alert for each new native id, in order |
| `AlertDetector.DetectAlerts` | crates/bridge-core/src/alert_detector.rs:14-125 | The statement-by-statement detector computes the specified state, alerts and staleness, and every alert carries the thread, title and time of the snapshot |
| `AlertRuns.StateSummarisesRecords` | crates/bridge-core/src/alert_detector.rs:14-60 | After any run of live and poll observations: status and time are those of the last accepted observation, the cycle is the number of accepted status changes, and a fallback mark implies waiting for approval in that cycle |
| `AlertRuns.UpdatedAtNeverDecreases` | crates/bridge-core/src/alert_detector.rs:19-27 | Longer runs never decrease the stored time and only extend the alert log |
| `AlertRuns.AlertsAreStatusEdges` | crates/bridge-core/src/alert_detector.rs:84-109 | Completed, input and error alerts are exactly the edges between consecutive accepted observations, in order and with their ids |
| `AlertRuns.LogSplits` | crates/bridge-core/src/alert_detector.rs:71-119 | Every alert is a native approval, a completion edge or cycle-numbered, each counted once |
| `AlertRuns.CycleAlertsAreDistinct` | crates/bridge-core/src/alert_detector.rs:104-119 | All cycle-numbered alerts of one lineage have different ids |
| `AlertRuns.CompletedIdsShared` | crates/bridge-core/src/alert_detector.rs:86-97 | Two completions share an id exactly when all four snapshots carry one timestamp |
| `AlertRuns.KindsNeverCollide` | crates/bridge-core/src/alert_detector.rs:127-140 | Alerts of different kinds never share an id |
| `AlertMonitor.ThreadsNeverCollide` | crates/bridge-core/src/alert_detector.rs:127-158 | Over any interleaving of all threads, alerts that share an id are about the same thread and of the same kind |
| `AlertMonitor.StoreCycleAlertsAreDistinct` | crates/bridge-core/src/alert_detector.rs:104-158 | Over the whole store all cycle-numbered alerts, of every thread, have different ids |
| `AlertRuns.AlertsOnceExactly` | crates/bridge-core/src/alert_detector.rs:32-82 | Over every run, the ids alerted are those first listed after the first accepted observation and not absorbed by an unnamed approval, each once, exactly when every id that is listed again is among the newest 256 ids and no list repeats a new id that is not absorbed |
| `AlertRuns.EachIdAlertsOnce` | crates/bridge-core/src/alert_detector.rs:32-82 | So it does while it sees at most 256 distinct ids, in lists without repeats |
| `AlertRuns.UnnamedApprovalsAreEdges` | crates/bridge-core/src/alert_detector.rs:84-119 | Under that condition the unnamed approval alerts are exactly the edges into an approval wait whose observation lists no id that was not listed before |
| `AlertRuns.NativeAlertsAreDistinct` | crates/bridge-core/src/alert_detector.rs:71-82 | Native alerts have different ids exactly when no id is alerted twice, so in particular under that condition |
| `AlertRuns.NativeMeetsFallback` | crates/bridge-core/src/alert_detector.rs:71-119 | A native id and an unnamed approval share an alert id exactly when the id is the decimal cycle |
| `AlertRuns.DecimalRequestRepeatsAlert` | crates/bridge-core/src/alert_detector.rs:98-119 | From any state outside an approval wait, three steps reach such a pair |
| `AlertRuns.EvictedIdAlertsAgain` | crates/bridge-core/src/alert_detector.rs:45-47 | A 257th id evicts the oldest, which is alerted again if still listed |
| `AlertRuns.RepeatedIdAlertsRepeatedly` | crates/bridge-core/src/alert_detector.rs:36-40 | A list that repeats a new id alerts it as often as it repeats it |
| `AlertMonitor.AlertStateStore.ObserveSnapshot` | crates/bridge-core/src/alert_monitor.rs:87-103 | One locked load, detect and save keeps every thread at the state of its own lineage and returns the alerts of that step; a refused save leaves the table as it was and raises nothing |
| `AlertMonitor.AlertStateStore.ProcessSnapshotAlerts` | crates/bridge-core/src/http_api.rs:568-583 | The live path is one such observation with the pending ids of the snapshot, silent when the save is refused |
| `AlertMonitor.AlertStateStore.RunCycle` | crates/bridge-core/src/alert_monitor.rs:60-107 | Whatever the live path observes in between, a poll is nothing without an enabled device or when the adapter fails, else one observation per listed thread with that thread's pending requests, if any device wants approvals. Each observation's alerts are dispatched before the next; what is dispatched is a prefix of what its observations raised, all of it when the cycle finishes; it stops early only for a refused save or a failed dispatch, and reports whether any thread is active |
| `AlertMonitor.RequestsAreTheThreads` | crates/bridge-core/src/alert_monitor.rs:68-78 | A thread is observed with every pending request that names it, as often as it was reported, and no other |
| `AlertMonitor.RequestsInOrder` | crates/bridge-core/src/alert_monitor.rs:68-78 | The requests keep the order in which they were reported |
| `AlertMonitor.AlertsExtendLineages` | crates/bridge-core/src/alert_monitor.rs:86-107 | However live and poll observations interleave, the alerts about a thread are those its own lineage adds |
| `EventHub.ReplayIsDetermined` | crates/bridge-core/src/event_hub.rs:136-156 | The replayed list does not depend on the iteration order of the hash map |
| `EventHub.ListedNewestFirst` | crates/bridge-core/src/event_hub.rs:146-156 | A later entry of the replay was updated no later, and at equal times has the greater thread id |
| `EventHub.EventHub.SetSnapshot` | crates/bridge-core/src/event_hub.rs:122-131 | A snapshot is stored and then published to everyone |
| `EventHub.EventHub.PublishToDevice` | crates/bridge-core/src/event_hub.rs:80-92 | A targeted envelope is appended to the channel |
| `EventHub.EventHub.Disconnect` | crates/bridge-core/src/event_hub.rs:94-101 | A disconnect is appended to the channel |
| `EventHub.EventHub.AllSnapshots` | crates/bridge-core/src/event_hub.rs:137-157 | Every stored snapshot is listed once, newest first and then by thread id |
| `EventHub.EventSubscriber.constructor` | crates/bridge-core/src/event_hub.rs:111-120 | A new subscriber is owed the sorted snapshots and whatever is published from then on |
| `EventHub.EventSubscriber.Recv` | crates/bridge-core/src/event_hub.rs:166-195 | A received envelope is the head of what is owed and was published to everybody or to exactly this device; everything skipped was for, or disconnected, another device; a disconnect is that of this device; pending and closed come only when nothing is owed; lag is reported exactly when the channel dropped unread messages, with their number |
| `EventHub.EventSubscriber.Forward` | crates/bridge-core/src/http_api.rs:2410-2424 | The socket loop forwards the replay and then, in channel order, exactly the envelopes published to everybody or to this device, up to its first disconnect, and ends with that, or at the end of the channel as closed or pending, unless the subscriber lags |
| `EventHub.VisibleAppend` | crates/bridge-core/src/event_hub.rs:171-187 | Without a disconnect the visible stream of a concatenation is the concatenation of the visible streams |
| `EventFanOut.SubscribersKeepTheirPlace` | crates/bridge-core/src/event_hub.rs:108-120 | A subscriber keeps its place in the channel and its replay; a new one hears what is published after it attached |
| `EventFanOut.StepKeepsInv` | crates/bridge-core/src/event_hub.rs:108-157 | Every step keeps subscribers up to date for threads that are not just being set |
| `EventFanOut.SubscribersConverge` | crates/bridge-core/src/event_hub.rs:108-157 | After any run in which no two different sets of a thread overlap, the last snapshot of a thread in a connected subscriber's stream is the stored one, unless the thread is just being set |
| `EventFanOut.OverlapLeavesStale` | crates/bridge-core/src/event_hub.rs:122-131 | In every reachable state with two different sets of one thread in progress, they can finish in an order that leaves a connected subscriber on a snapshot other than the stored one |
| `EventFanOut.ConvergesExactly` | crates/bridge-core/src/event_hub.rs:122-131 | However the sets in progress for a thread finish, a connected subscriber ends on the stored snapshot, exactly when all of them carry it |
| `EventFanOut.OverlapDecidesConvergence` | crates/bridge-core/src/event_hub.rs:122-131 | After a run without conflicting sets, one more set keeps this exactly when it conflicts with none in progress |
| `EventFanOut.SchedulesConvergeExactly` | crates/bridge-core/src/event_hub.rs:108-157 | A subscriber that stays connected converges at every point of a schedule exactly when no two different sets of one thread overlap in it |
| `EventFanOut.OverlapIsReachable` | crates/bridge-core/src/event_hub.rs:122-131 | For any two snapshots of one thread a state with both sets in progress and a connected subscriber is reachable |
| `SessionMerge.MergedIdsAreUnique` | apps/mobile-pwa/src/App.tsx:3375-3447 | Folding any sequence of events gives a list without repeated ids |
| `SessionMerge.AppendKeepsIdsUnique` | apps/mobile-pwa/src/App.tsx:3379-3447 | One arrival keeps ids unique |
| `SessionMerge.AppendTouchesOne` | apps/mobile-pwa/src/App.tsx:3379-3447 | An arrival leaves each listed event alone, replaces it or extends its text, keeps positions, and adds at most one event |
| `SessionListing.NewEventIsAppended` | apps/mobile-pwa/src/App.tsx:3398-3422 | A whole event with a new id that no listed message reconciles with is appended as it is |
| `SessionListing.SameIdIsReplaced` | apps/mobile-pwa/src/App.tsx:3379-3396 | A whole event whose id is listed takes the place of that entry |
| `SessionListing.EveryArrivalIsListed` | apps/mobile-pwa/src/App.tsx:3375-3447 | Over any sequence, the id of every whole event that is not a user message is listed in the end, unless a user message later arrives under that id |
| `SessionListing.IdLeavesExactly` | apps/mobile-pwa/src/App.tsx:3398-3416 | A listed id leaves the list exactly when a user message with a new id takes the place of the first entry that it reconciles with and that has this id |
| `SessionListing.OnlyItsIdComes` | apps/mobile-pwa/src/App.tsx:3379-3447 | An arrival brings no other id into the list than its own |
| `SessionListing.IdCanBeTaken` | apps/mobile-pwa/src/App.tsx:3379-3416 | The exception occurs: an event, then an optimistic message under its id, then the desktop copy of that message |
| `MessageReconciliation.OneCopyExactly` | apps/mobile-pwa/src/App.tsx:3398-3416 | Any run of optimistic, echoed and desktop copies of a message, with unrelated events and re-sorts between, ends with at most one copy exactly when each copy that arrives joins the one then shown; that copy is the last desktop copy, else the last copy |
| `MessageReconciliation.OneCopySurvives` | apps/mobile-pwa/src/App.tsx:3398-3416 | So copies that all lie within five minutes of each other, in any order and number, always end as one |
| `MessageReconciliation.SurvivorArrived` | apps/mobile-pwa/src/App.tsx:3398-3416 | The surviving copy arrived in the run, and is a desktop copy as soon as one has arrived |
| `MessageReconciliation.NextCopy` | apps/mobile-pwa/src/App.tsx:3719-3744 | A copy and the one shown become one exactly when they share an id, the shown one is optimistic, or they are within five minutes; then the desktop copy outlives the other, else the later one stays; otherwise both are shown |
| `MessageReconciliation.TwoArrivals` | apps/mobile-pwa/src/App.tsx:3719-3744 | The same for two arrivals in any order, from a list that does not show the message |
| `MessageReconciliation.DistantCopiesStay` | apps/mobile-pwa/src/App.tsx:3735-3743 | More than five minutes apart, a desktop copy and a client copy both stay in either order, unless the first is the optimistic one |
| `MessageReconciliation.CopiesExist` | apps/mobile-pwa/src/App.tsx:3700-3717 | Optimistic, echoed and desktop copies of a message exist at every time, so the distance can be any |
| `MessageReconciliation.PendingThenDesktop` | apps/mobile-pwa/src/App.tsx:3737-3739 | An optimistic copy gives way to the desktop copy at any distance in time |
| `SessionListing.RepeatedTextIsListed` | apps/mobile-pwa/src/App.tsx:3719-3744 | The same text sent twice from the desktop is shown twice |
| `SessionListing.EchoGivesWay` | apps/mobile-pwa/src/App.tsx:3719-3744 | A bridge echo, by flag or id, and the desktop copy of one text at most 300000 ms apart are shown once, as the desktop copy, in either order |
| `SessionListing.DistantEchoStays` | apps/mobile-pwa/src/App.tsx:3719-3744 | Further apart, or with another text or thread, both are shown |
| `DeltaStreaming.DeltasAssemble` | apps/mobile-pwa/src/App.tsx:3379-3447 | The deltas of a fresh id, after an entry of another family and between bystanders, end as one entry whose text is their concatenation |
| `DeltaStreaming.NextPart` | apps/mobile-pwa/src/App.tsx:3469-3485 | A further delta extends the entry by its text |
| `DeltaStreaming.BystanderLeavesAssembly` | apps/mobile-pwa/src/App.tsx:3379-3447 | Another event that is not a delta of the family leaves the entry alone |
| `DeltaStreaming.EmptyDeltaIsDropped` | apps/mobile-pwa/src/App.tsx:3424-3427 | A delta without text changes nothing |
| `DeltaStreaming.FamilyEndSwallowsDelta` | apps/mobile-pwa/src/App.tsx:3429-3438 | A first delta gets no entry of its own exactly when the last entry is of its family and thread |
| `DeltaStreaming.FirstDelta` | apps/mobile-pwa/src/App.tsx:3424-3447 | A first delta with text extends the last entry when that is of its thread and an assistant message, a reasoning summary or a plan to match, and otherwise opens an entry of the whole type, with the matching role and its text |
| `TurnGroups.GroupSessionEventsForDisplay` | apps/mobile-pwa/src/turn-groups.ts:18-51 | The groups show exactly the events that are not hidden, in order, are homogeneous and maximal and carry the specified keys; hidden are status changes, blank tool results, summaries and plans, and blank answers without attachments; a turn group shows events of its turn only, and an event shown alone is of no turn |
| `TurnGroups.ScopeSpelledOut` | apps/mobile-pwa/src/turn-groups.ts:78-101 | An event is of a turn exactly when it is an answer, summary, plan or tool event and the turn is the first name among its four payload members, else the match of the pattern in its id, else the non-empty head of its id before the first colon |
| `TurnGroups.VisibleSpelledOut` | apps/mobile-pwa/src/turn-groups.ts:58-76 | Which events are hidden |
| `TurnGroups.SegmentationIsUnique` | apps/mobile-pwa/src/turn-groups.ts:18-51 | No other grouping of the same events has these properties |
| `TurnGroups.KeysAreDistinct` | apps/mobile-pwa/src/turn-groups.ts:39-46 | When event ids are distinct, so are all group keys |
| `TurnGroups.KeysSpelledOut` | apps/mobile-pwa/src/turn-groups.ts:22-46 | An event shown alone has the key of its id, a turn group that of its turn and the number of earlier groups of that turn |
| `ThreadList.ListThreads` | crates/bridge-core/src/codex_rpc.rs:283-329 | Against any server: at most 20 requests, each with the cursor the previous reply named, fresh and not empty; the result is the first-occurrence dedupe of the fetched items cut to 2000, or the error of the first bad reply or item; and it stops only for a stated reason |
| `ThreadList.CursorsAreDistinct` | crates/bridge-core/src/codex_rpc.rs:320-325 | The cursors sent are pairwise distinct |
| `ThreadList.FirstsIsDedupe` | crates/bridge-core/src/codex_rpc.rs:309-312 | The dedupe repeats no id, lists only fetched threads and misses no id |
| `ThreadList.ResultIsDeduped` | crates/bridge-core/src/codex_rpc.rs:283-329 | At most 2000 threads with distinct ids, and below that limit every fetched id |
| `CdpQueue.CdpNotificationStream.SendCommand` | crates/bridge-core/src/cdp.rs:263-308 | The first matching response, close, error or bad frame decides; on success every notification read meanwhile is queued and none is lost; pings are answered |
| `CdpQueue.CdpNotificationStream.NextNotification` | crates/bridge-core/src/cdp.rs:240-261 | The queue is served first, then the socket; a yielded notification is the head of those remaining, and the end means that none remained |
| `CdpQueue.NextIsFirst` | crates/bridge-core/src/cdp.rs:240-261 | What the socket yields next is the first notification before reading stops |
| `CdpQueue.FirstFrame` | crates/bridge-core/src/cdp.rs:240-308 | What each possible first frame decides for a waiting command and for a waiting reader |
| `CdpQueue.CdpNotificationStream.Connect` | crates/bridge-core/src/cdp.rs:204-238 | The handshake sends three commands in order and succeeds exactly when each gets its response; no notification is lost |
| `CdpQueue.CdpNotificationStream.Forward` | apps/bridge-sidecar/src/main.rs:145-163 | The forwarder applies exactly the remaining notifications, in order |
| `CdpQueue.ForwardConnection` | apps/bridge-sidecar/src/main.rs:132-164 | On one connection every notification the socket delivers, during the handshake or later, is applied exactly once in arrival order until close or error |

## Left out

- Task panics, transport write errors, and store errors other than a refused time: every other step of a model completes.
- Clocks, random tokens, HTTP replies, socket frames, page replies and push results are parameters, arbitrary except that new tokens and notification ids are fresh and that the asset access counter stays below its 64-bit limit.
- SHA-256 is taken to be injective, so an alert id is represented by its hash input.
- Dafny characters stand for UTF-8 bytes in the alert encoding and for code points in text orders, which agree with the byte order.
- JSON parsing, the Unicode `trim`, `JSON.stringify`, the UUID pattern, the turn pattern in event ids and `event_item_order` are function parameters; every result holds for any such functions.
- AlertMonitor.AlertStateStore.RunCycle: it does not wait for the next poll. Settings, the observations of the live path between its own, adapter replies and dispatch outcomes are parameters. The 64-bit saturation of the cycle counter is left out, as the store, here too, refuses counters beyond 63 bits.
- EventHub.EventSubscriber.Recv: the channel is kept whole and lag is computed from the positions, with the ring size given as the effective capacity; a receive that would wait returns `Pending`.
- AlertDispatch.NotificationDispatcher.Dispatch: no other party writes the store between two targets; the outbox model has those interleavings row by row. How many receivers each envelope reaches is a parameter.
- ThreadList.ListThreads: page extraction and field mapping are reduced to a list of items with or without a thread id.
- SessionMerge.AppendTouchesOne: created-at times are integers, and payload members the client does not look at are one opaque text.
- `compareSessionEvents` is not transitive across scopes, so nothing is claimed of the order it produces; the reconciliation runs allow any re-sort instead.
- `shouldReplaceLiveTurnEvent` and the polling merge around it may drop events with equal text prefixes and are not modelled.
- `PairingManager`, HTTP routing, authentication, uploads, diagnostics, VAPID, reconnect backoff and the React components: single-branch checks, plumbing or I/O.
- Messages without a client id, which bypass the dedupe cache.
- LocalAssets.LocalAssetRegistry.RegisterImage: requires the access counter below its 64-bit maximum, where the source would saturate and lose the strict order of accesses.
- LocalAssets.LocalAssetRegistry.ResolvePath: requires the same of the access counter.
- LocalAssets.LocalAssetRegistry.TouchExisting: requires the same of the access counter.
- A network that invents an acceptance: the client is told that a message was accepted only when the server has said so.
