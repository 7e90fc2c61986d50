# Eventuality, modelled in Dafny

This project models the publish/subscribe engine `Eventuality`
(`src/Eventuality.ts`). Producers `publish` named events to string-keyed
clusters, and consumers `subscribe` a handler to an event type and a cluster,
where `"*"` is the wildcard. Delivery is synchronous, through a FIFO queue that
one outer `processQueue` loop drains. An event published with `persist` is kept
as the latest value of its (event type, cluster) slot and replayed to later
subscribers of exactly that slot. `request` subscribes a handler and then
publishes a `REQUEST_EVENT` descriptor.

The project is organised in modules:

| module | file | what it holds |
|---|---|---|
| `Wrappers` | wrappers.dfy | `Option` |
| `Seqs` | seqs.dfy | small facts about sequence slices and concatenation |
| `Events` | events.dfy | events, handlers, request descriptors, options, errors, `validateHandler`, the `Set` of target clusters |
| `Registry` | registry.dfy | the registry eventType → cluster → handler id → handler, its invariant, and its updates |
| `Store` | store.dfy | the persisted-event store and `persistEvent`'s update |
| `Matcher` | matching.dfy | `getMatchingHandlers` and what it matches |
| `Batch` | batch.dfy | batch mode: grouping by cluster label, object key order, and the finding below |
| `Engine` | engine.dfy | the engine state as a value: one drain step, the drain, delivery, and the public operations |
| `Operations` | operations.dfy | properties of `subscribe`, `unsubscribe` and `request` |
| `EventBus` | eventuality.dfy | class `Eventuality<D>`, whose methods update the registry, the store, the queue and the `processing` flag in place |

Modelling choices:

- **Ordered maps become sequences.** JS `Map`s and `Set`s iterate in insertion order, so:
  - a cluster map is a sequence of buckets with distinct cluster names;
  - a bucket is a sequence of handlers with distinct ids;
  - the target cluster `Set` of a publish is a sequence without repeats (`Events.Dedup`).
- **Handlers are data.** A handler carries:
  - whether it is callable;
  - an optional id (the `Symbol`);
  - `script`: the publishes it makes, in order, each time it is called;
  - `failure`: when present, the error it throws after those publishes.

  A handler's behaviour is the same on every call.
- **Observable effects are one trace.** Each handler call appends `Invoked(handler, payload)`. Each call of the error callback appends `Reported(error, event, handler)`.
- **Re-entrant publishes.** Publishes made by handlers call the class's `Publish` method while `processing` is set, so they only enqueue.
- **The value model.** `Engine.Step`, `Engine.Drain` and the `…Spec` functions describe the engine as a value. Every method of the class is proved to leave exactly the state they describe.
- **Code over tests.** Where the repository's tests and its code disagree, the model follows the code (the one exception is the batch grouping under "## Findings", where the class runs the intended grouping):
  - Handlers receive `event.data`, not the whole event (`src/Eventuality.ts:525, 566, 597`). Several tests expect the whole event (`test/Eventuality.requirements.test.ts:32`, `:53`; `test/Eventuality.test.ts:26`, `:50`, `:87`).
  - A sole wildcard subscriber is matched:
    - once per target cluster, through the `"*"` bucket;
    - once more per occurrence of `"*"` among the targets, through its own bucket;
    - once more, through the pass over every bucket, when `"*"` is a target.

    So a default publish (`{"*"}`) reaches it three times (`Matcher.DefaultPublishReachesWildcardThrice`), and a publish to `{"A", "*"}` four times (`Matcher.SoleSubscriptionCount`). The repository does not document this multiplicity.
  - `_resetInstance` only forgets the shared instance. It does not clear the registry, the store or the queue, so no "reset" operation is modelled. A test expects it to clear handlers and events (`test/Eventuality.requirements.test.ts:96-107`).

## Model

| member | source | states |
|---|---|---|
| Events.ConfigOf | src/Eventuality.ts:225-241 | `defaultPersist` is on only when the option is `true`; batch mode only when `handlerAsyncMode` is `"batch"`, otherwise individual |
| Events.ValidateHandler | src/Eventuality.ts:374-380 | a handler is accepted iff it is callable and has an id; every rejection is the invalid-handler error |
| Events.RequestEvent | src/Eventuality.ts:359-366 | the request event has type `REQUEST_EVENT` and carries exactly the target event, the handler and the cluster |
| Events.Dedup | src/Eventuality.ts:259 | a cluster `Set` holds exactly the given names, each once, in order of first appearance |
| EventBus.Eventuality.constructor | src/Eventuality.ts:201-252 | a new bus is idle, with empty registry, store, queue and trace, the invariant established, and the configuration read from the options |
| Engine.MakeItemShape | src/Eventuality.ts:259-265 | the queued item carries the event unchanged; its clusters are the given set, or `{"*"}` when that is absent or empty; `persist` is the argument, or the bus default when absent |
| EventBus.Eventuality.Publish | src/Eventuality.ts:254-271 | on a busy bus, publish only appends its item to the queue; on an idle bus, the item is appended and the whole queue drained; the invariant holds after |
| EventBus.Eventuality.PublishAllBusy | src/Eventuality.ts:254-271 | the publishes a handler makes during a drain are appended to the queue in order, and nothing else changes |
| EventBus.Eventuality.ProcessQueue | src/Eventuality.ts:494-514 | a nested call returns at once with nothing changed; the outer call leaves the drained state, the queue empty and `processing` off |
| EventBus.Eventuality.ProcessNext | src/Eventuality.ts:499-511 | one loop iteration takes the head item, delivers it to its matches in delivery order, then persists it when flagged |
| Engine.StepEffect | src/Eventuality.ts:500-511 | one iteration leaves the registry alone; it appends exactly the delivery effects, queues the handlers' publishes behind the rest, marks the head processed, and changes the store only when `persist` is set |
| Engine.StepAccounted | src/Eventuality.ts:499-512 | every queued item is either processed or still queued, in enqueue order; the trace only grows |
| Engine.DrainFifo | src/Eventuality.ts:499-512 | a drain that ends leaves the queue empty, having processed every item in exactly the order it was queued, earlier ones first |
| Engine.DrainedFifo | src/Eventuality.ts:494-514 | the same as `DrainFifo`, for the drain `processQueue` runs, whatever the bound on its iterations |
| Engine.DrainMoreFuel | src/Eventuality.ts:499-512 | a longer iteration bound does not change the result of a drain that ended |
| Engine.DrainedStep | src/Eventuality.ts:499-512 | draining after one iteration gives the same result as draining from before it |
| Engine.PublishedFirst | src/Eventuality.ts:254-271 | a publish on an idle bus is processed first; items its handlers queue are processed after it; the bus ends idle |
| Engine.RunScriptEffect | src/Eventuality.ts:254-271 | top-level publishes made one after another each drain fully; registry kept, trace only grows |
| Engine.EnqueueAllEffect | src/Eventuality.ts:259-265 | publishes made during a drain append their items, in order, and change nothing else |
| Engine.DeliveryOrderFrom | src/Eventuality.ts:549-558 | in either mode, the handlers called are exactly the matched ones, each once per match (a permutation of the matches), and in individual mode in list order |
| Engine.InvokeEffect | src/Eventuality.ts:565-569 | one isolated call records the call, queues the handler's publishes, and records one error report iff the handler throws |
| Engine.InvokeAllEffect | src/Eventuality.ts:564-570 | calling a list of handlers keeps registry and store, appends their effects in list order, and queues their publishes in that order |
| Engine.InvokeAllAppend | src/Eventuality.ts:584-588 | calling two lists of handlers one after the other is the same as calling their concatenation |
| Engine.EveryHandlerInvoked | src/Eventuality.ts:564-570 | every matched handler is called, once per entry and in list order, even after earlier ones threw |
| Engine.EveryFailureReported | src/Eventuality.ts:564-570 | each throwing call gives exactly one error-callback call, with (error, event, handler), in order |
| Engine.EffectsPayload | src/Eventuality.ts:564-570 | handlers receive the event's data; error reports name the delivered event |
| Engine.HandlerEffectsSplit | src/Eventuality.ts:565-569 | one isolated call is one invocation, plus one report iff the handler throws |
| Engine.InvocationsAppend | src/Eventuality.ts:564-570 | the calls and reports in a concatenated trace are those of each part, in order |
| Matcher.MatchedIff | src/Eventuality.ts:444-476 | a handler is matched iff it is bound to the event type under a target cluster, under `"*"` (with at least one target), or anywhere when `"*"` is a target |
| Matcher.MatchOrigin | src/Eventuality.ts:444-476 | every match comes from a bucket of the event type, labelled with a target cluster, `"*"`, or any bucket when `"*"` is a target |
| Matcher.BoundIfMatched | src/Eventuality.ts:444-476 | a matched handler is registered under its label for the published event type |
| Matcher.MatchedIfBound | src/Eventuality.ts:444-476 | a handler registered under a reached cluster is matched |
| Matcher.OtherEventNeverMatched | src/Eventuality.ts:448-451 | a handler registered under another event type is never matched |
| Matcher.SoleSubscriptionCount | src/Eventuality.ts:460-474 | a handler registered once is matched once per occurrence of its cluster among the targets; a `"*"` handler once more per target; once more when `"*"` is a target |
| Matcher.DefaultPublishReachesWildcardThrice | src/Eventuality.ts:460-474 | a default publish matches a `"*"` subscriber three times |
| Matcher.LiteralSubscriberMissedElsewhere | src/Eventuality.ts:460-474 | a subscriber of a literal cluster is not matched by a publish to other literal clusters |
| EventBus.Eventuality.GetMatchingHandlers | src/Eventuality.ts:444-476 | the loops build exactly the match list `Matcher.Matching` describes |
| EventBus.Eventuality.AddPerCluster | src/Eventuality.ts:460-469 | for each target in set order: that cluster's bucket, then the wildcard bucket, each labelled |
| EventBus.Eventuality.AddEveryBucket | src/Eventuality.ts:470-474 | every bucket, in bucket order, labelled with its own cluster, appended |
| EventBus.Eventuality.AddBucket | src/Eventuality.ts:461-468 | a bucket that is present adds its handlers in order; an absent one adds nothing |
| EventBus.Eventuality.AddHandlers | src/Eventuality.ts:455-459 | `addHandlers` appends the bucket's handlers, in order, each with the tag |
| EventBus.Eventuality.HandlerExistsInAnyCluster | src/Eventuality.ts:402-412 | true iff the id is a key of some bucket of the cluster map |
| EventBus.Eventuality.IsHandlerRegisteredElsewhere | src/Eventuality.ts:414-427 | true iff the id is registered under some other event type |
| EventBus.Eventuality.GetOrCreateClusterMap | src/Eventuality.ts:382-400 | creates the event entry and the bucket only when missing, returns the bucket, and changes nothing else |
| Registry.GetOrCreateEffect | src/Eventuality.ts:382-400 | creating the entry or bucket adds no binding and removes none, and keeps the invariant |
| Registry.InsertEffect | src/Eventuality.ts:293 | `clusterMap.set` appends the handler to its bucket and adds exactly that binding; other event types are untouched; the invariant holds when the id is bound under no other event type |
| Registry.AppendToBucket | src/Eventuality.ts:293 | appending to a bucket adds exactly the binding (its cluster, the id) |
| Registry.AppendKeepsWellFormed | src/Eventuality.ts:282-293 | appending a valid handler with a new id keeps one key per cluster and one key per id |
| Registry.WithoutKeys | src/Eventuality.ts:326 | `handlersMap.delete(id)` removes that id and no other, and is a no-op when the id is absent |
| Registry.WithoutSubset | src/Eventuality.ts:326 | deleting keeps only entries that were there, and ids stay distinct |
| Registry.DeletedBindings | src/Eventuality.ts:325-331 | deleting the id from every bucket keeps the buckets and their names, removes exactly that id's bindings, and keeps the shape |
| Registry.CleanEmptyKeeps | src/Eventuality.ts:434-438 | the pruned map holds exactly the non-empty buckets, and cluster names stay distinct |
| Registry.CleanEmptyBindings | src/Eventuality.ts:429-442 | pruning empty buckets changes no binding and keeps the shape |
| Registry.UnsubscribeEffect | src/Eventuality.ts:317-335 | after the removal the id is bound nowhere under the event type, other ids keep their bindings, no empty bucket or empty entry remains, other event types are untouched, and the invariant holds |
| Registry.UnsubscribedBucketMap | src/Eventuality.ts:325-332 | delete-then-prune on one cluster map removes exactly the id's bindings and leaves no empty bucket |
| Registry.UnsubscribeValid | src/Eventuality.ts:317-335 | removal keeps the one-event-type invariant |
| EventBus.Eventuality.RemoveHandlerFromAllClusters | src/Eventuality.ts:317-335 | reports whether the id was under the event type, and leaves the registry `Registry.UnsubscribeEffect` describes |
| EventBus.Eventuality.DeleteFromBuckets | src/Eventuality.ts:325-331 | the deletion loop removes the id from every bucket and reports whether any had it |
| EventBus.Eventuality.CleanEmptyClusters | src/Eventuality.ts:429-442 | drops the event type's empty buckets, and its entry when none is left; an absent event type is left alone |
| EventBus.Eventuality.DeleteEmptyBuckets | src/Eventuality.ts:434-438 | deleting during iteration leaves exactly the non-empty buckets, in order |
| EventBus.Eventuality.Unsubscribe | src/Eventuality.ts:304-315 | leaves the state `unsubscribe` specifies, and fails with not-found after pruning when the id was absent |
| Operations.UnsubscribeStopsDelivery | src/Eventuality.ts:304-335 | succeeds iff the id was registered under the event type; afterwards no publish of it matches the handler; other bindings and event types, and the store, are kept; the invariant holds |
| Store.Persisted | src/Eventuality.ts:530-547 | persisting overwrites the slot (event type, c) for each target cluster `c` and leaves every other slot as it was |
| Store.SetAll | src/Eventuality.ts:537-544 | the inner loop sets each target cluster to the event and keeps the other entries |
| EventBus.Eventuality.PersistEvent | src/Eventuality.ts:530-547 | the store after the loops is the one `Store.Persisted` describes; nothing else changes |
| EventBus.Eventuality.DeliverEventToHandlers | src/Eventuality.ts:549-558 | calls the matches in list order in individual mode, and in batch order in batch mode |
| EventBus.Eventuality.ExecuteHandlersIndividually | src/Eventuality.ts:560-571 | calls each matched handler in list order, each isolated |
| EventBus.Eventuality.InvokeIsolated | src/Eventuality.ts:565-569 | one call inside `try`: the call, the handler's publishes, and one report if it throws |
| EventBus.Eventuality.ExecuteHandlersBatch | src/Eventuality.ts:573-589 | calls the groups one after another in key order, each group's handlers in order |
| EventBus.Eventuality.GroupByCluster | src/Eventuality.ts:577-583 | the grouping loop builds the groups `Batch.Groups` describes |
| EventBus.Eventuality.ExecuteHandlersForCluster | src/Eventuality.ts:591-602 | calls each handler of a group in order, each isolated |
| Batch.BatchPermutation | src/Eventuality.ts:573-589 | batch mode calls exactly the matched handlers, each as often as it was matched |
| Batch.GroupsShape | src/Eventuality.ts:577-583 | one group per distinct label, in order of first appearance, each holding exactly its label's handlers in list order |
| Batch.GroupsTags | src/Eventuality.ts:577-583 | the group labels are the distinct labels, in order of first appearance |
| Batch.GroupsHandlers | src/Eventuality.ts:577-583 | each group holds exactly the handlers matched under its label, in list order |
| Batch.GroupsPermutation | src/Eventuality.ts:577-583 | grouping loses and duplicates no handler |
| Batch.BatchOrderByFirstAppearance | src/Eventuality.ts:577-588 | when no label is an array index, batch order is group after group by first appearance, list order within each group |
| Batch.SortPermutation | src/Eventuality.ts:584 | reordering the integer-like keys loses no handler |
| Batch.SplitPermutation | src/Eventuality.ts:584 | splitting keys into integer-like and named ones loses no handler |
| Batch.NoIndexGroups | src/Eventuality.ts:584 | without integer-like labels, `for…in` visits the groups in creation order |
| Batch.GroupsAsWrittenFailsOnPrototypeNames | src/Eventuality.ts:577-583 | the grouping as written fails iff some label names an `Object.prototype` member, and otherwise gives the intended groups |
| Batch.ConstructorLabelBreaksBatch | src/Eventuality.ts:577-583 | the single match labelled `"constructor"` breaks the grouping as written, while the intended grouping is one group |
| EventBus.Eventuality.DeliverPersistedEventsToHandler | src/Eventuality.ts:516-528 | calls the handler with the data persisted in exactly the slot (event type, cluster), outside failure isolation; does nothing when there is none |
| Operations.ReplayEffect | src/Eventuality.ts:516-528 | the replay keeps the registry, ends with the bus idle, and fails only by the handler's own throw |
| EventBus.Eventuality.Subscribe | src/Eventuality.ts:273-302 | leaves the state and outcome `subscribe` specifies, and keeps the invariant |
| Operations.SubscribeOutcome | src/Eventuality.ts:273-302 | the invariant is kept; subscribe succeeds (or fails only in the replay) iff the handler is valid and ends up bound at (event type, `cluster ?? "*"`); it reports an invalid handler iff the handler is invalid; it reports a duplicate assignment iff the handler is valid and bound under another event type |
| Operations.SubscribeIdempotent | src/Eventuality.ts:282-287 | subscribing a handler already in that bucket changes nothing and replays nothing |
| Operations.SubscribeRejectsSecondEventType | src/Eventuality.ts:281-292 | a handler bound under another event type is refused with the duplicate-assignment error; the only change is the bucket `getOrCreateClusterMap` may append, empty, at the end, so no binding changes and the registry stays valid |
| Operations.AcceptedHandlerIsInserted | src/Eventuality.ts:281-297 | a valid handler not in the target slot and not bound under another event type passes both checks (even when bound under the same type in other clusters), is inserted, and the replay follows |
| Operations.SubscribeRegisters | src/Eventuality.ts:281-301 | a handler not in the target slot and not bound under another event type (possibly bound in other clusters of the same type) is appended to its bucket; exactly that binding is added; the invariant holds |
| Operations.SubscribeReplays | src/Eventuality.ts:297-301 | for a handler accepted as above, with a persisted event in exactly that slot, the handler's first effect is one call with its data, and a throw is the outcome; with none, only the registry changes |
| Operations.SubscribeUnsubscribeRoundTrip | src/Eventuality.ts:273-335 | subscribing a new handler and then unsubscribing it succeeds and restores every binding |
| EventBus.Eventuality.Request | src/Eventuality.ts:346-371 | leaves the state and outcome `request` specifies, and keeps the invariant |
| Operations.RequestStopsAtFailedSubscribe | src/Eventuality.ts:354-358 | when the subscribe fails, nothing is published |
| Operations.RequestPublishesDescriptor | src/Eventuality.ts:346-367 | after a successful subscribe, the request event is published, persisted to every target cluster and processed first; unless the target event type is `REQUEST_EVENT` itself, the handler is not called by it |

## Left out

- Logging: `EventualityLogger`, every `debugMode` branch, and `hasAnySubscription`, which only feeds the logger. They are console output.
- The default error callback prints with `console.error`. The error callback is modelled as a sink that records its arguments and never throws. `processQueue` has no `try/finally`, so a throwing callback would leave `processing` set; that case is not modelled.
- `waitTimeout` is stored but never read by the engine.
- `getInstance`, `createInstance` and `_resetInstance` manage a process-wide shared instance. They are not part of the engine's behaviour.
- The handler-building decorator (`src/decorators.ts`) is not part of this model. Handlers here are given directly as data.
- Handlers whose behaviour depends on the payload or on how often they were called. A handler's publishes and throw are fixed data.
- Handlers that call `subscribe`, `unsubscribe` or `request` while a drain is running. Only re-entrant `publish` is modelled.
- The dead branch `if (!item) break` in `processQueue`. The loop only shifts from a non-empty queue, so the branch never runs.
- EventBus.Eventuality.Publish: requires that the drain it starts ends. A handler cycle that publishes forever makes the source loop forever, and that non-termination is not modelled.
- EventBus.Eventuality.Subscribe: requires an idle bus and a replay whose publishes stop. Subscribing from inside a handler is not modelled.
- EventBus.Eventuality.Request: requires an idle bus, and that the replay and the request publish stop.
- EventBus.Eventuality.DeliverPersistedEventsToHandler: requires an idle bus, and that the replayed handler's publishes stop.
- EventBus.Eventuality.ProcessQueue: requires that the drain ends.
- A throw from a replay ends the replay and becomes `subscribe`'s outcome. A throw from inside a nested publish's delivery is isolated there, as in the source.
- Deleting from a JS `Map` while iterating it is modelled as deleting by position in a sequence. Iteration order is kept.
- EventBus.Eventuality.ExecuteHandlersBatch: runs the intended grouping (`Batch.Groups`), not the grouping as written. For a label that names an `Object.prototype` member (`"constructor"`, `"toString"`, ...) the source throws a `TypeError` before calling any handler of the item; the error escapes `processQueue` and leaves `processing` set. The class instead calls the handlers and drains normally. The code as written is `Batch.GroupsAsWritten`; see "## Findings".
- EventBus.Eventuality.GroupByCluster: always builds `Batch.Groups`. On a label that names an `Object.prototype` member the source loop throws instead; that failure is only in `Batch.GroupsAsWritten`.
- Engine.DeliveryOrder: in batch mode it is the order of the intended grouping, so `Engine.Step`, `Engine.Drain` and the `…Spec` functions built on it share the two lines above.
- JS exceptions are modelled as an `Outcome` value (`Failed(error)`). Thrown types and messages are not modelled.

## Findings

| source | as written | input that shows it | evidently intended | confidence | as-written member | corrected member |
|---|---|---|---|---|---|---|
| src/Eventuality.ts:577-583 | `grouped` is a plain object literal. `grouped[cluster]` finds an inherited `Object.prototype` member (e.g. `constructor`, `toString`, `__proto__`), which is truthy, so no group is created. `grouped[cluster].push` then throws a `TypeError`, which escapes `processQueue` and leaves `processing` set. | batch mode; a handler subscribed to cluster `"constructor"`; a publish of that event to `{"constructor"}` | every label gets its own group, as for any other cluster name | high (not executed) | Batch.GroupsAsWrittenFailsOnPrototypeNames | Batch.GroupsShape |
