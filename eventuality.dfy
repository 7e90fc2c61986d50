/**
 * The bus object: `Eventuality`, whose methods update its registry, its
 * persisted-event store and its queue in place. Each method is proved to
 * leave the state the value model in `Engine` describes.
 */
module EventBus {
  import opened Wrappers
  import opened Events
  import opened Registry
  import opened Matcher
  import opened Store
  import opened Batch
  import opened Engine
  import opened Seqs

  class Eventuality<D> {
    /** `defaultPersist` and `handlerAsyncMode`, fixed at construction. */
    const cfg: Config
    var subscriptions: Subscriptions<D>
    var persistedEvents: PersistedEvents<D>
    var eventQueue: seq<Item<D>>
    var processing: bool
    /** Every handler call and every error passed to the error callback, in order. */
    var trace: seq<Effect<D>>
    /** Every item ever queued, and every item ever taken off the queue. */
    ghost var enqueued: seq<Item<D>>
    ghost var processed: seq<Item<D>>

    ghost function State(): Bus<D>
      reads this
    {
      Bus(subscriptions, persistedEvents, eventQueue, trace, enqueued, processed)
    }

    /** The registry invariant, and the queue accounted for. */
    ghost predicate Consistent()
      reads this
    {
      Registry.Valid(subscriptions) && Accounted(State())
    }

    /** Between public calls the bus is idle: nothing waits on the queue. */
    ghost predicate Valid()
      reads this
    {
      Consistent() && (!processing ==> eventQueue == [])
    }

    constructor(options: Options)
      ensures cfg == ConfigOf(options)
      ensures State() == Bus(map[], map[], [], [], [], []) && !processing && Valid()
    {
      cfg := ConfigOf(options);
      subscriptions := map[];
      persistedEvents := map[];
      eventQueue := [];
      processing := false;
      trace := [];
      enqueued := [];
      processed := [];
    }

    /**
     * `publish(event, clusters, persist)`: queue the item, then drain unless a
     * drain is already running (a publish from inside a handler only queues).
     */
    method Publish(call: PublishCall<D>)
      requires Valid()
      requires !processing ==> DrainEnds(cfg, Enqueue(cfg, State(), call))
      modifies this
      ensures Valid() && processing == old(processing)
      ensures old(processing) ==> State() == Enqueue(cfg, old(State()), call)
      ensures !old(processing) ==> State() == Drained(cfg, Enqueue(cfg, old(State()), call))
      decreases if processing then 0 else 1, 1
    {
      var clustersToUse := Dedup(call.clusters);
      if clustersToUse == [] {
        clustersToUse := [Wildcard];
      }
      var shouldPersist := call.persist.GetOr(cfg.defaultPersist);
      var item := Item(call.event, clustersToUse, shouldPersist);
      assert item == MakeItem(cfg, call);
      eventQueue := eventQueue + [item];
      enqueued := enqueued + [item];
      ProcessQueue();
    }

    /** `processQueue`: unless already draining, take items off the queue head first until it is empty. */
    method ProcessQueue()
      requires Consistent()
      requires !processing ==> DrainEnds(cfg, State())
      modifies this
      ensures Consistent() && processing == old(processing)
      ensures old(processing) ==> State() == old(State())
      ensures !old(processing) ==> State() == Drained(cfg, old(State())) && eventQueue == []
      decreases if processing then 0 else 1, 0
    {
      if processing {
        return;
      }
      processing := true;
      ghost var fuel: nat :| Drain(cfg, State(), fuel).Some?;
      DrainedByAnyFuel(cfg, State(), fuel);
      DrainedFifo(cfg, State());
      ghost var final := Drained(cfg, State());
      while eventQueue != []
        invariant processing && Consistent()
        invariant Drain(cfg, State(), fuel) == Some(final)
        decreases fuel
      {
        ProcessNext();
        fuel := fuel - 1;
      }
      processing := false;
    }

    /**
     * One iteration of the `processQueue` loop: shift the head item, deliver it
     * to its matched handlers when there are any, then persist it if flagged.
     */
    method ProcessNext()
      requires processing && Consistent() && eventQueue != []
      modifies this
      ensures processing && Consistent()
      ensures State() == Step(cfg, old(State()))
      decreases 0, 7
    {
      ghost var before := State();
      var item := eventQueue[0];
      eventQueue := eventQueue[1..];
      processed := processed + [item];
      ghost var popped := State();
      assert Consistent() by {
        assert before.queue == [item] + eventQueue;
        Regroup(before.processed, [item], eventQueue, []);
      }
      var handlers := GetMatchingHandlers(item.event.eventType, item.clusters);
      ghost var order := DeliveryOrder(cfg, handlers);
      if |handlers| > 0 {
        DeliverEventToHandlers(item.event, handlers);
      } else {
        assert order == [] by {
          if cfg.mode == Batch {
            BatchPermutation(handlers);
          }
        }
      }
      ghost var delivered := State();
      assert delivered == InvokeAll(cfg, popped, item.event, order);
      if item.persist {
        PersistEvent(item.event, item.clusters);
      }
      assert State() == Step(cfg, before) by {
        assert popped == before.(queue := before.queue[1..], processed := before.processed + [item]);
        assert handlers == Matching(before.subs, item.event.eventType, item.clusters);
        assert State() == if item.persist then delivered.(store := Persisted(delivered.store, item.event, item.clusters)) else delivered;
      }
    }

    /** `addHandlers(map, cluster)`: each handler of the bucket, in order, labelled with `tag`. */
    static method AddHandlers(acc: seq<Match<D>>, hs: seq<Handler<D>>, tag: string) returns (r: seq<Match<D>>)
      ensures r == acc + Labelled(hs, tag)
    {
      r := acc;
      for i := 0 to |hs|
        invariant r == acc + Labelled(hs[..i], tag)
      {
        r := r + [Match(hs[i], tag)];
        assert Labelled(hs[..i + 1], tag) == Labelled(hs[..i], tag) + [Match(hs[i], tag)];
      }
      assert hs[..|hs|] == hs;
    }

    /** `eventMap.get(c)`, and when a bucket is there, `addHandlers(bucket, c)`. */
    static method AddBucket(acc: seq<Match<D>>, eventMap: ClusterMap<D>, c: string) returns (r: seq<Match<D>>)
      ensures r == acc + Labelled(BucketOf(eventMap, c), c)
    {
      match BucketIndex(eventMap, c)
      case Some(j) =>
        r := AddHandlers(acc, eventMap[j].handlers, c);
      case None =>
        r := acc;
        assert Labelled(BucketOf(eventMap, c), c) == [];
    }

    /** `getMatchingHandlers(eventType, clusters)`. */
    method GetMatchingHandlers(eventType: string, clusters: seq<string>) returns (handlers: seq<Match<D>>)
      ensures handlers == Matching(subscriptions, eventType, clusters)
    {
      if eventType !in subscriptions {
        return [];
      }
      var eventMap := subscriptions[eventType];
      handlers := AddPerCluster(eventMap, clusters);
      if Wildcard in clusters {
        handlers := AddEveryBucket(handlers, eventMap);
      }
    }

    /** The first loop of `getMatchingHandlers`: per target cluster, its bucket, then the wildcard bucket. */
    static method AddPerCluster(eventMap: ClusterMap<D>, clusters: seq<string>) returns (handlers: seq<Match<D>>)
      ensures handlers == PerCluster(eventMap, clusters)
    {
      handlers := [];
      for i := 0 to |clusters|
        invariant handlers == PerCluster(eventMap, clusters[..i])
      {
        ghost var prefix := handlers;
        handlers := AddBucket(handlers, eventMap, clusters[i]);
        handlers := AddBucket(handlers, eventMap, Wildcard);
        PerClusterSnoc(eventMap, clusters, i);
        Assoc(prefix, Labelled(BucketOf(eventMap, clusters[i]), clusters[i]), Labelled(BucketOf(eventMap, Wildcard), Wildcard));
      }
      assert clusters[..|clusters|] == clusters;
    }

    /** The second loop of `getMatchingHandlers`, run when `*` is a target: every bucket under its own cluster. */
    static method AddEveryBucket(acc: seq<Match<D>>, eventMap: ClusterMap<D>) returns (handlers: seq<Match<D>>)
      ensures handlers == acc + AllBuckets(eventMap)
    {
      handlers := acc;
      for j := 0 to |eventMap|
        invariant handlers == acc + AllBuckets(eventMap[..j])
      {
        assert eventMap[..j + 1][..j] == eventMap[..j];
        handlers := AddHandlers(handlers, eventMap[j].handlers, eventMap[j].cluster);
      }
      assert eventMap[..|eventMap|] == eventMap;
    }

    /** `handlerExistsInAnyCluster(clustersMap, handlerId)`. */
    static method HandlerExistsInAnyCluster(clustersMap: ClusterMap<D>, handlerId: Option<HandlerId>) returns (r: bool)
      ensures r == BoundIn(clustersMap, handlerId)
    {
      for i := 0 to |clustersMap|
        invariant forall j | 0 <= j < i :: !HasKey(clustersMap[j].handlers, handlerId)
      {
        if HasKey(clustersMap[i].handlers, handlerId) {
          return true;
        }
      }
      return false;
    }

    /** `isHandlerRegisteredElsewhere(handlerId, eventType)`. */
    method IsHandlerRegisteredElsewhere(handlerId: Option<HandlerId>, eventType: string) returns (r: bool)
      ensures r == RegisteredElsewhere(subscriptions, handlerId, eventType)
    {
      var remaining := subscriptions.Keys;
      while remaining != {}
        invariant remaining <= subscriptions.Keys
        invariant forall evt | evt in subscriptions && evt !in remaining && evt != eventType :: !BoundIn(subscriptions[evt], handlerId)
        decreases |remaining|
      {
        var evt :| evt in remaining;
        if evt != eventType {
          var present := HandlerExistsInAnyCluster(subscriptions[evt], handlerId);
          if present {
            return true;
          }
        }
        remaining := remaining - {evt};
      }
      return false;
    }

    /** `getOrCreateClusterMap(eventType, clusterKey)`: returns the bucket's handlers. */
    method GetOrCreateClusterMap(eventType: string, clusterKey: string) returns (clusterMap: seq<Handler<D>>)
      modifies this
      ensures subscriptions == GetOrCreate(old(subscriptions), eventType, clusterKey)
      ensures clusterMap == BucketOf(subscriptions[eventType], clusterKey)
      ensures persistedEvents == old(persistedEvents) && eventQueue == old(eventQueue) && processing == old(processing)
      ensures trace == old(trace) && enqueued == old(enqueued) && processed == old(processed)
    {
      var eventMap: ClusterMap<D>;
      if eventType in subscriptions {
        eventMap := subscriptions[eventType];
      } else {
        eventMap := [];
        subscriptions := subscriptions[eventType := eventMap];
      }
      match BucketIndex(eventMap, clusterKey)
      case Some(j) =>
        clusterMap := eventMap[j].handlers;
      case None =>
        clusterMap := [];
        subscriptions := subscriptions[eventType := eventMap + [Bucket(clusterKey, [])]];
        AppendEmptyBucket(eventMap, clusterKey);
        ghost var cm := eventMap + [Bucket(clusterKey, [])];
        assert BucketIndex(cm, clusterKey) == Some(|eventMap|) by {
          assert cm[|eventMap|].cluster == clusterKey;
          assert forall i | 0 <= i < |eventMap| :: cm[i].cluster == eventMap[i].cluster;
        }
    }

    /** `cleanEmptyClusters(eventType)`: drop empty buckets, then the event type if none is left. */
    method CleanEmptyClusters(eventType: string)
      modifies this
      ensures eventType !in old(subscriptions) ==> subscriptions == old(subscriptions)
      ensures eventType in old(subscriptions) ==>
        var cm := CleanEmpty(old(subscriptions)[eventType]);
        subscriptions == if |cm| == 0 then old(subscriptions) - {eventType} else old(subscriptions)[eventType := cm]
      ensures persistedEvents == old(persistedEvents) && eventQueue == old(eventQueue) && processing == old(processing)
      ensures trace == old(trace) && enqueued == old(enqueued) && processed == old(processed)
    {
      if eventType !in subscriptions {
        return;
      }
      var eventMap := DeleteEmptyBuckets(subscriptions[eventType]);
      if |eventMap| == 0 {
        subscriptions := subscriptions - {eventType};
      } else {
        subscriptions := subscriptions[eventType := eventMap];
      }
    }

    /** The loop of `cleanEmptyClusters`: deletes each empty bucket while walking the cluster map. */
    static method DeleteEmptyBuckets(original: ClusterMap<D>) returns (eventMap: ClusterMap<D>)
      ensures eventMap == CleanEmpty(original)
    {
      eventMap := original;
      ghost var seen := 0;
      var i := 0;
      while i < |eventMap|
        invariant 0 <= i <= |eventMap| && 0 <= seen <= |original|
        invariant eventMap[..i] == CleanEmpty(original[..seen])
        invariant eventMap[i..] == original[seen..]
        decreases |eventMap| - i
      {
        CleanEmptyVisit(eventMap, i, original, seen);
        if |eventMap[i].handlers| == 0 {
          DropAt(eventMap, i);
          eventMap := eventMap[..i] + eventMap[i + 1..];
        } else {
          StepPast(eventMap, i);
          i := i + 1;
        }
        seen := seen + 1;
      }
      assert original[..seen] == original;
    }

    /** `removeHandlerFromAllClusters(eventType, handler)`: delete the id from every bucket, then clean up. */
    method RemoveHandlerFromAllClusters(eventType: string, handler: Handler<D>) returns (found: bool)
      modifies this
      ensures found == Found(old(subscriptions), eventType, handler.id)
      ensures subscriptions == Unsubscribed(old(subscriptions), eventType, handler.id)
      ensures persistedEvents == old(persistedEvents) && eventQueue == old(eventQueue) && processing == old(processing)
      ensures trace == old(trace) && enqueued == old(enqueued) && processed == old(processed)
    {
      found := false;
      if eventType in subscriptions {
        UnsubscribedSteps(subscriptions, eventType, handler.id);
        var eventMap;
        eventMap, found := DeleteFromBuckets(subscriptions[eventType], handler.id);
        subscriptions := subscriptions[eventType := eventMap];
        CleanEmptyClusters(eventType);
      }
    }

    /** The loop of `removeHandlerFromAllClusters`: `handlersMap.delete(id)` on every bucket, noting any hit. */
    static method DeleteFromBuckets(original: ClusterMap<D>, key: Option<HandlerId>) returns (eventMap: ClusterMap<D>, found: bool)
      ensures eventMap == Deleted(original, key)
      ensures found == BoundIn(original, key)
    {
      eventMap := original;
      found := false;
      for i := 0 to |eventMap|
        invariant |eventMap| == |original|
        invariant forall j | 0 <= j < i :: eventMap[j] == Bucket(original[j].cluster, Without(original[j].handlers, key))
        invariant forall j | i <= j < |original| :: eventMap[j] == original[j]
        invariant found <==> exists j | 0 <= j < i :: HasKey(original[j].handlers, key)
      {
        var deleted := HasKey(eventMap[i].handlers, key);
        eventMap := eventMap[i := Bucket(eventMap[i].cluster, Without(eventMap[i].handlers, key))];
        if deleted {
          found := true;
        }
      }
    }

    /** `persistEvent(event, clusters)`: the event becomes the last one of each target slot. */
    method PersistEvent(event: Event<D>, clusters: seq<string>)
      modifies this
      ensures persistedEvents == Persisted(old(persistedEvents), event, clusters)
      ensures subscriptions == old(subscriptions) && eventQueue == old(eventQueue) && processing == old(processing)
      ensures trace == old(trace) && enqueued == old(enqueued) && processed == old(processed)
    {
      var eventType := event.eventType;
      var persistedEventsMap: map<string, Event<D>>;
      if eventType in persistedEvents {
        persistedEventsMap := persistedEvents[eventType];
      } else {
        persistedEventsMap := map[];
      }
      ghost var base := persistedEventsMap;
      for i := 0 to |clusters|
        invariant unchanged(this)
        invariant persistedEventsMap == SetAll(base, clusters[..i], event)
      {
        assert clusters[..i + 1][..i] == clusters[..i];
        persistedEventsMap := persistedEventsMap[clusters[i] := event];
      }
      assert clusters[..|clusters|] == clusters;
      persistedEvents := persistedEvents[eventType := persistedEventsMap];
    }

    /** `deliverEventToHandlers(event, handlers)`: by the delivery mode fixed at construction. */
    method DeliverEventToHandlers(event: Event<D>, handlers: seq<Match<D>>)
      requires processing && Consistent()
      modifies this
      ensures processing && Consistent()
      ensures State() == InvokeAll(cfg, old(State()), event, DeliveryOrder(cfg, handlers))
      decreases 0, 6
    {
      if cfg.mode == Individual {
        ExecuteHandlersIndividually(event, handlers);
      } else {
        ExecuteHandlersBatch(event, handlers);
      }
    }

    /** `executeHandlersIndividually`: every matched handler in list order, each call isolated. */
    method ExecuteHandlersIndividually(event: Event<D>, handlers: seq<Match<D>>)
      requires processing && Consistent()
      modifies this
      ensures processing && Consistent()
      ensures State() == InvokeAll(cfg, old(State()), event, HandlersOf(handlers))
      decreases 0, 4
    {
      ghost var s0 := State();
      for i := 0 to |handlers|
        invariant processing && Consistent()
        invariant State() == InvokeAll(cfg, s0, event, HandlersOf(handlers[..i]))
      {
        assert HandlersOf(handlers[..i + 1]) == HandlersOf(handlers[..i]) + [handlers[i].handler];
        InvokeIsolated(event, handlers[i].handler);
      }
      assert handlers[..|handlers|] == handlers;
    }

    /**
     * `executeHandlersBatch`: group the matched handlers by cluster label, then
     * run each group in `for...in` order. The grouping here is the intended one:
     * the code as written throws on a label naming an `Object.prototype`
     * member (see `Batch.GroupsAsWritten`); this method delivers instead.
     */
    method ExecuteHandlersBatch(event: Event<D>, handlers: seq<Match<D>>)
      requires processing && Consistent()
      modifies this
      ensures processing && Consistent()
      ensures State() == InvokeAll(cfg, old(State()), event, BatchOrder(handlers))
      decreases 0, 5
    {
      var grouped := GroupByCluster(handlers);
      var keys := ForInOrder(grouped);
      ghost var s0 := State();
      for k := 0 to |keys|
        invariant processing && Consistent()
        invariant State() == InvokeAll(cfg, s0, event, Flatten(keys[..k]))
      {
        FlattenSnoc(keys, k);
        InvokeAllAppend(cfg, s0, event, Flatten(keys[..k]), keys[k].handlers);
        ExecuteHandlersForCluster(keys[k].handlers, event);
      }
      assert keys[..|keys|] == keys;
    }

    /** The grouping loop of `executeHandlersBatch`: `grouped[cluster] ??= []`, then push the handler. */
    static method GroupByCluster(handlers: seq<Match<D>>) returns (grouped: seq<Group<D>>)
      ensures grouped == Groups(handlers)
    {
      grouped := [];
      for i := 0 to |handlers|
        invariant grouped == Groups(handlers[..i])
      {
        assert handlers[..i + 1][..i] == handlers[..i];
        var m := handlers[i];
        match GroupIndex(grouped, m.cluster)
        case None =>
          grouped := grouped + [Group(m.cluster, [m.handler])];
        case Some(j) =>
          grouped := grouped[j := Group(grouped[j].tag, grouped[j].handlers + [m.handler])];
      }
      assert handlers[..|handlers|] == handlers;
    }

    /** `executeHandlersForCluster(handlers, event)`: one group, in order, each call isolated. */
    method ExecuteHandlersForCluster(handlers: seq<Handler<D>>, event: Event<D>)
      requires processing && Consistent()
      modifies this
      ensures processing && Consistent()
      ensures State() == InvokeAll(cfg, old(State()), event, handlers)
      decreases 0, 4
    {
      ghost var s0 := State();
      for i := 0 to |handlers|
        invariant processing && Consistent()
        invariant State() == InvokeAll(cfg, s0, event, handlers[..i])
      {
        assert handlers[..i + 1][..i] == handlers[..i];
        InvokeIsolated(event, handlers[i]);
      }
      assert handlers[..|handlers|] == handlers;
    }

    /**
     * `try { handler(event.data) } catch (error) { handleError(error, event, handler) }`:
     * the handler runs its publishes (which only queue, the bus being busy),
     * and a throw goes to the error callback instead of the caller.
     */
    method InvokeIsolated(event: Event<D>, handler: Handler<D>)
      requires processing && Consistent()
      modifies this
      ensures processing && Consistent()
      ensures State() == Invoke(cfg, old(State()), event, handler)
      decreases 0, 3
    {
      trace := trace + [Invoked(handler, event.data)];
      PublishAllBusy(handler.script);
      match handler.failure
      case Some(err) =>
        trace := trace + [Reported(err, event, handler)];
      case None =>
    }

    /** The publishes a handler makes during a drain, in order: each only queues its item. */
    method PublishAllBusy(calls: seq<PublishCall<D>>)
      requires processing && Consistent()
      modifies this
      ensures processing && Consistent()
      ensures State() == EnqueueAll(cfg, old(State()), calls)
      decreases 0, 2
    {
      ghost var start := State();
      for i := 0 to |calls|
        invariant processing && Consistent()
        invariant State() == EnqueueAll(cfg, start, calls[..i])
      {
        assert calls[..i + 1][..i] == calls[..i];
        Publish(calls[i]);
      }
      assert calls[..|calls|] == calls;
    }

    /**
     * `deliverPersistedEventsToHandler(eventType, clusterKey, handler)`: the
     * handler is called outside any drain, so each of its publishes drains
     * before the next, and a throw is not caught (it becomes the outcome).
     */
    method DeliverPersistedEventsToHandler(eventType: string, clusterKey: string, handler: Handler<D>) returns (outcome: Outcome)
      requires Valid() && !processing
      requires Replay(cfg, State(), eventType, clusterKey, handler).Some?
      modifies this
      ensures Valid() && !processing
      ensures Reply(State(), outcome) == Replay(cfg, old(State()), eventType, clusterKey, handler).value
    {
      outcome := Done;
      if eventType in persistedEvents {
        var persistedEventsMap := persistedEvents[eventType];
        if clusterKey in persistedEventsMap {
          var event := persistedEventsMap[clusterKey];
          trace := trace + [Invoked(handler, event.data)];
          ghost var start := State();
          for i := 0 to |handler.script|
            invariant Valid() && !processing
            invariant RunScript(cfg, State(), handler.script[i..]) == RunScript(cfg, start, handler.script)
          {
            assert handler.script[i..][1..] == handler.script[i + 1..];
            Publish(handler.script[i]);
          }
          if handler.failure.Some? {
            outcome := Failed(ReplayThrew(handler.failure.value));
          }
        }
      }
    }

    /** `subscribe(event, handler, cluster)`. */
    method Subscribe(event: Event<D>, handler: Handler<D>, cluster: Option<string>) returns (outcome: Outcome)
      requires Valid() && !processing
      requires SubscribeSpec(cfg, State(), event, handler, cluster).Some?
      modifies this
      ensures Valid() && !processing
      ensures Reply(State(), outcome) == SubscribeSpec(cfg, old(State()), event, handler, cluster).value
    {
      var eventType := event.eventType;
      var clusterKey := cluster.GetOr(Wildcard);
      outcome := ValidateHandler(handler);
      if outcome.Failed? {
        return;
      }
      GetOrCreateEffect(subscriptions, eventType, clusterKey);
      var clusterMap := GetOrCreateClusterMap(eventType, clusterKey);
      if HasKey(clusterMap, handler.id) {
        return;
      }
      var elsewhere := IsHandlerRegisteredElsewhere(handler.id, eventType);
      if elsewhere {
        outcome := Failed(DuplicateHandlerAssignment);
        return;
      }
      InsertEffect(subscriptions, eventType, clusterKey, handler);
      subscriptions := Insert(subscriptions, eventType, clusterKey, handler);
      outcome := DeliverPersistedEventsToHandler(eventType, clusterKey, handler);
    }

    /** `unsubscribe(event, handler)`. */
    method Unsubscribe(event: Event<D>, handler: Handler<D>) returns (outcome: Outcome)
      requires Valid()
      modifies this
      ensures Valid() && processing == old(processing)
      ensures Reply(State(), outcome) == UnsubscribeSpec(old(State()), event, handler)
    {
      UnsubscribeEffect(subscriptions, event.eventType, handler.id);
      var found := RemoveHandlerFromAllClusters(event.eventType, handler);
      if !found {
        outcome := Failed(HandlerNotFound);
      } else {
        outcome := Done;
      }
    }

    /** `request({targetEvent, handler, cluster}, clustersToPublishRequestEvent)`. */
    method Request(targetEvent: Event<D>, handler: Handler<D>, cluster: string, clustersToPublishRequestEvent: seq<string>)
      returns (outcome: Outcome)
      requires Valid() && !processing
      requires RequestSpec(cfg, State(), targetEvent, handler, cluster, clustersToPublishRequestEvent).Some?
      modifies this
      ensures Valid() && !processing
      ensures Reply(State(), outcome) == RequestSpec(cfg, old(State()), targetEvent, handler, cluster, clustersToPublishRequestEvent).value
    {
      outcome := Subscribe(targetEvent, handler, Some(cluster));
      if outcome.Failed? {
        return;
      }
      var requestEvent := RequestEvent(targetEvent, handler, cluster);
      Publish(PublishCall(requestEvent, clustersToPublishRequestEvent, Some(true)));
    }
  }
}
