/** Properties of the public operations `subscribe`, `unsubscribe` and `request`. */
module Operations {
  import opened Wrappers
  import opened Events
  import opened Registry
  import opened Matcher
  import opened Store
  import opened Batch
  import opened Engine
  import opened Seqs

  /** The bucket `c` of event type `e` before a subscribe (empty when it does not exist yet). */
  function BucketBefore<D>(subs: Subscriptions<D>, e: string, c: string): seq<Handler<D>> {
    if e in subs then BucketOf(subs[e], c) else []
  }

  lemma BucketOfFresh<D>(subs: Subscriptions<D>, e: string, c: string)
    ensures e in GetOrCreate(subs, e, c)
    ensures BucketOf(GetOrCreate(subs, e, c)[e], c) == BucketBefore(subs, e, c)
  {
    var cm := if e in subs then subs[e] else [];
    if !HasBucket(cm, c) {
      var cm' := cm + [Bucket(c, [])];
      assert GetOrCreate(subs, e, c)[e] == cm';
      var j := BucketIndex(cm', c).value;
      assert j == |cm| by {
        assert cm'[|cm|].cluster == c;
        assert forall i | 0 <= i < |cm| :: cm'[i].cluster == cm[i].cluster;
      }
    }
  }

  /** A replay leaves the registry as it found it and the bus idle. */
  lemma ReplayEffect<D>(cfg: Config, st: Bus<D>, e: string, c: string, h: Handler<D>)
    requires Accounted(st) && st.queue == [] && Replay(cfg, st, e, c, h).Some?
    ensures var rep := Replay(cfg, st, e, c, h).value;
      && rep.bus.subs == st.subs && rep.bus.queue == [] && Accounted(rep.bus)
      && (rep.outcome == Done || rep.outcome.error.ReplayThrew?)
  {
    match Slot(st.store, e, c)
    case None =>
    case Some(pe) =>
      RunScriptEffect(cfg, st.(trace := st.trace + [Invoked(h, pe.data)]), h.script);
  }

  /**
   * Subscribe keeps the registry invariant and the bus idle, and leaves `h`
   * registered in cluster `c` of the event type exactly when it does not
   * reject the handler; it rejects it as invalid exactly when it is not
   * callable or has no id, and as a duplicate assignment exactly when it is
   * valid and bound under another event type.
   */
  lemma SubscribeOutcome<D>(cfg: Config, st: Bus<D>, ev: Event<D>, h: Handler<D>, cluster: Option<string>)
    requires Valid(st.subs) && Accounted(st) && st.queue == []
    requires SubscribeSpec(cfg, st, ev, h, cluster).Some?
    ensures var rep := SubscribeSpec(cfg, st, ev, h, cluster).value;
      && Valid(rep.bus.subs) && rep.bus.queue == [] && Accounted(rep.bus)
      && ((rep.outcome == Done || rep.outcome.error.ReplayThrew?) <==>
          Registrable(h) && Bound(rep.bus.subs, ev.eventType, cluster.GetOr(Wildcard), h.id))
      && (rep.outcome == Failed(InvalidHandler) <==> !Registrable(h))
      && (rep.outcome == Failed(DuplicateHandlerAssignment) <==> Registrable(h) && RegisteredElsewhere(st.subs, h.id, ev.eventType))
  {
    var e := ev.eventType;
    var c := cluster.GetOr(Wildcard);
    if Registrable(h) {
      var subs := GetOrCreate(st.subs, e, c);
      GetOrCreateEffect(st.subs, e, c);
      BoundAtBucketOf(subs[e], c, h.id);
      if HasKey(BucketOf(subs[e], c), h.id) {
        BoundHereNotElsewhere(st.subs, e, c, h.id);
      }
      if !HasKey(BucketOf(subs[e], c), h.id) && !RegisteredElsewhere(subs, h.id, e) {
        InsertEffect(subs, e, c, h);
        ReplayEffect(cfg, st.(subs := Insert(subs, e, c, h)), e, c, h);
      }
    }
  }

  /** Subscribing a handler that is already registered there changes nothing and replays nothing. */
  lemma SubscribeIdempotent<D>(cfg: Config, st: Bus<D>, ev: Event<D>, h: Handler<D>, cluster: Option<string>)
    requires Registrable(h) && Valid(st.subs)
    requires Bound(st.subs, ev.eventType, cluster.GetOr(Wildcard), h.id)
    ensures SubscribeSpec(cfg, st, ev, h, cluster) == Some(Reply(st, Done))
  {
    var e := ev.eventType;
    var c := cluster.GetOr(Wildcard);
    var i :| 0 <= i < |st.subs[e]| && st.subs[e][i].cluster == c && HasKey(st.subs[e][i].handlers, h.id);
    assert HasBucket(st.subs[e], c);
    BoundAtBucketOf(st.subs[e], c, h.id);
  }

  /**
   * A handler bound to another event type is rejected; the registry keeps
   * every binding it had (at most an empty bucket appears) and stays valid.
   */
  lemma SubscribeRejectsSecondEventType<D>(cfg: Config, st: Bus<D>, ev: Event<D>, h: Handler<D>, cluster: Option<string>, f: string)
    requires Valid(st.subs) && Registrable(h)
    requires f in st.subs && f != ev.eventType && BoundIn(st.subs[f], h.id)
    ensures var r := SubscribeSpec(cfg, st, ev, h, cluster);
      && r.Some? && r.value.outcome == Failed(DuplicateHandlerAssignment)
      && r.value.bus == st.(subs := r.value.bus.subs)
      && r.value.bus.subs == GetOrCreate(st.subs, ev.eventType, cluster.GetOr(Wildcard))
      && (forall e, c, k :: Bound(r.value.bus.subs, e, c, k) <==> Bound(st.subs, e, c, k))
      && Valid(r.value.bus.subs)
  {
    var e := ev.eventType;
    var c := cluster.GetOr(Wildcard);
    var subs := GetOrCreate(st.subs, e, c);
    GetOrCreateEffect(st.subs, e, c);
    assert e in st.subs ==> !BoundIn(st.subs[e], h.id);
    assert !Bound(st.subs, e, c, h.id);
    BoundAtBucketOf(subs[e], c, h.id);
    assert RegisteredElsewhere(st.subs, h.id, e);
  }

  /** A handler bound under event type `e` is, in a valid registry, bound under no other type. */
  lemma BoundHereNotElsewhere<D>(subs: Subscriptions<D>, e: string, c: string, key: Option<HandlerId>)
    requires Valid(subs) && Bound(subs, e, c, key)
    ensures !RegisteredElsewhere(subs, key, e)
  {
    var i :| 0 <= i < |subs[e]| && subs[e][i].cluster == c && HasKey(subs[e][i].handlers, key);
    assert BoundIn(subs[e], key);
  }

  /** A handler bound in no slot is bound under no other event type. */
  lemma UnboundNotElsewhere<D>(subs: Subscriptions<D>, e: string, key: Option<HandlerId>)
    requires forall e', c :: !Bound(subs, e', c, key)
    ensures !RegisteredElsewhere(subs, key, e)
  {
    forall other | other in subs && other != e ensures !BoundIn(subs[other], key) {
      forall i | 0 <= i < |subs[other]| ensures !HasKey(subs[other][i].handlers, key) {
        assert !Bound(subs, other, subs[other][i].cluster, key);
      }
    }
  }

  /**
   * A valid handler that is neither bound in the slot (e, c) nor under another
   * event type passes both of `subscribe`'s checks: it is inserted into its
   * bucket and the replay follows. It may already be bound under `e` in other
   * clusters; it then gets one more binding.
   */
  lemma AcceptedHandlerIsInserted<D>(cfg: Config, st: Bus<D>, ev: Event<D>, h: Handler<D>, cluster: Option<string>)
    requires Valid(st.subs) && Registrable(h)
    requires !Bound(st.subs, ev.eventType, cluster.GetOr(Wildcard), h.id) && !RegisteredElsewhere(st.subs, h.id, ev.eventType)
    ensures var e := ev.eventType;
      var c := cluster.GetOr(Wildcard);
      var subs := GetOrCreate(st.subs, e, c);
      && !HasKey(BucketOf(subs[e], c), h.id)
      && !RegisteredElsewhere(subs, h.id, e)
      && SubscribeSpec(cfg, st, ev, h, cluster) == Replay(cfg, st.(subs := Insert(subs, e, c, h)), e, c, h)
  {
    var e := ev.eventType;
    var c := cluster.GetOr(Wildcard);
    var subs := GetOrCreate(st.subs, e, c);
    GetOrCreateEffect(st.subs, e, c);
    BoundAtBucketOf(subs[e], c, h.id);
    assert !Bound(subs, e, c, h.id);
  }

  /**
   * Subscribing a handler that is not yet in slot (e, c) and not bound under
   * another event type (it may be bound under `e` in other clusters) adds
   * exactly the one binding (e, c, h.id), appends `h` at the end of bucket `c`,
   * and keeps the registry invariant.
   */
  lemma SubscribeRegisters<D>(cfg: Config, st: Bus<D>, ev: Event<D>, h: Handler<D>, cluster: Option<string>)
    requires Valid(st.subs) && Accounted(st) && st.queue == [] && Registrable(h)
    requires !Bound(st.subs, ev.eventType, cluster.GetOr(Wildcard), h.id) && !RegisteredElsewhere(st.subs, h.id, ev.eventType)
    requires SubscribeSpec(cfg, st, ev, h, cluster).Some?
    ensures var rep := SubscribeSpec(cfg, st, ev, h, cluster).value;
      var e := ev.eventType;
      var c := cluster.GetOr(Wildcard);
      && (rep.outcome == Done || rep.outcome.error.ReplayThrew?)
      && Valid(rep.bus.subs)
      && (forall e', c', k :: Bound(rep.bus.subs, e', c', k) <==> Bound(st.subs, e', c', k) || (e' == e && c' == c && k == h.id))
      && e in rep.bus.subs && BucketOf(rep.bus.subs[e], c) == BucketBefore(st.subs, e, c) + [h]
  {
    var e := ev.eventType;
    var c := cluster.GetOr(Wildcard);
    var subs := GetOrCreate(st.subs, e, c);
    AcceptedHandlerIsInserted(cfg, st, ev, h, cluster);
    GetOrCreateEffect(st.subs, e, c);
    BucketOfFresh(st.subs, e, c);
    InsertEffect(subs, e, c, h);
    ReplayEffect(cfg, st.(subs := Insert(subs, e, c, h)), e, c, h);
  }

  /**
   * The replay of a new subscription: when an event was persisted in exactly
   * the slot (e, c), the handler is called first, once, with that event's data,
   * and a throw surfaces as the outcome; otherwise nothing but the registry
   * changes. A handler that publishes nothing is called exactly once.
   */
  lemma SubscribeReplays<D>(cfg: Config, st: Bus<D>, ev: Event<D>, h: Handler<D>, cluster: Option<string>)
    requires Valid(st.subs) && Accounted(st) && st.queue == [] && Registrable(h)
    requires !Bound(st.subs, ev.eventType, cluster.GetOr(Wildcard), h.id) && !RegisteredElsewhere(st.subs, h.id, ev.eventType)
    requires SubscribeSpec(cfg, st, ev, h, cluster).Some?
    ensures var rep := SubscribeSpec(cfg, st, ev, h, cluster).value;
      match Slot(st.store, ev.eventType, cluster.GetOr(Wildcard))
      case None => rep.outcome == Done && rep.bus == st.(subs := rep.bus.subs)
      case Some(pe) =>
        && rep.outcome == (if h.failure.Some? then Failed(ReplayThrew(h.failure.value)) else Done)
        && |rep.bus.trace| > |st.trace| && rep.bus.trace[|st.trace|] == Invoked(h, pe.data)
        && rep.bus.trace[..|st.trace|] == st.trace
        && (h.script == [] ==> rep.bus.trace == st.trace + [Invoked(h, pe.data)])
  {
    var e := ev.eventType;
    var c := cluster.GetOr(Wildcard);
    AcceptedHandlerIsInserted(cfg, st, ev, h, cluster);
    var st2 := st.(subs := Insert(GetOrCreate(st.subs, e, c), e, c, h));
    match Slot(st.store, e, c)
    case None =>
    case Some(pe) =>
      var st3 := st2.(trace := st.trace + [Invoked(h, pe.data)]);
      RunScriptEffect(cfg, st3, h.script);
      var r := RunScript(cfg, st3, h.script).value;
      PrefixThen(r.trace, st.trace, Invoked(h, pe.data));
  }

  /**
   * After `unsubscribe(ev, h)` no publish of the event type matches `h`, every
   * other registration of the event type and every other event type is kept,
   * the invariant holds, and the outcome reports whether `h` was found.
   */
  lemma UnsubscribeStopsDelivery<D>(st: Bus<D>, ev: Event<D>, h: Handler<D>)
    requires Valid(st.subs)
    ensures var rep := UnsubscribeSpec(st, ev, h);
      var e := ev.eventType;
      && (rep.outcome == Done <==> e in st.subs && BoundIn(st.subs[e], h.id))
      && (rep.outcome != Done ==> rep.outcome == Failed(HandlerNotFound))
      && rep.bus == st.(subs := rep.bus.subs)
      && Valid(rep.bus.subs)
      && (forall cs, m | m in Matching(rep.bus.subs, e, cs) :: m.handler.id != h.id)
      && (forall c, k | k != h.id :: Bound(rep.bus.subs, e, c, k) <==> Bound(st.subs, e, c, k))
      && (forall other | other != e :: (other in rep.bus.subs <==> other in st.subs) &&
                                       (other in rep.bus.subs ==> rep.bus.subs[other] == st.subs[other]))
  {
    var e := ev.eventType;
    var r := Unsubscribed(st.subs, e, h.id);
    UnsubscribeEffect(st.subs, e, h.id);
    forall cs, m | m in Matching(r, e, cs) ensures m.handler.id != h.id {
      BoundIfMatched(r, e, cs, m);
    }
  }

  /**
   * Unsubscribe undoes subscribe: for a handler registered nowhere, a
   * successful subscribe followed by an unsubscribe leaves exactly the
   * bindings there were before.
   */
  lemma SubscribeUnsubscribeRoundTrip<D>(cfg: Config, st: Bus<D>, ev: Event<D>, h: Handler<D>, cluster: Option<string>)
    requires Valid(st.subs) && Accounted(st) && st.queue == [] && Registrable(h)
    requires forall e, c :: !Bound(st.subs, e, c, h.id)
    requires SubscribeSpec(cfg, st, ev, h, cluster).Some?
    ensures var mid := SubscribeSpec(cfg, st, ev, h, cluster).value.bus;
      var fin := UnsubscribeSpec(mid, ev, h);
      && fin.outcome == Done
      && forall e, c, k :: Bound(fin.bus.subs, e, c, k) <==> Bound(st.subs, e, c, k)
  {
    var e := ev.eventType;
    var mid := SubscribeSpec(cfg, st, ev, h, cluster).value.bus;
    UnboundNotElsewhere(st.subs, e, h.id);
    SubscribeRegisters(cfg, st, ev, h, cluster);
    UnsubscribeStopsDelivery(mid, ev, h);
    var fin := UnsubscribeSpec(mid, ev, h);
    assert Bound(mid.subs, e, cluster.GetOr(Wildcard), h.id);
    forall e', c, k ensures Bound(fin.bus.subs, e', c, k) <==> Bound(st.subs, e', c, k) {
      if e' == e {
        if k == h.id {
          assert !Bound(fin.bus.subs, e', c, k) by {
            UnsubscribeEffect(mid.subs, e, h.id);
          }
        }
      } else {
        assert Bound(fin.bus.subs, e', c, k) <==> Bound(mid.subs, e', c, k);
      }
    }
  }

  /** When the subscription of a request fails, nothing is published. */
  lemma RequestStopsAtFailedSubscribe<D>(cfg: Config, st: Bus<D>, target: Event<D>, h: Handler<D>, cluster: string, cs: seq<string>)
    requires SubscribeSpec(cfg, st, target, h, Some(cluster)).Some?
    requires SubscribeSpec(cfg, st, target, h, Some(cluster)).value.outcome.Failed?
    ensures RequestSpec(cfg, st, target, h, cluster, cs) == SubscribeSpec(cfg, st, target, h, Some(cluster))
  {
  }

  /**
   * A request that subscribed its handler publishes the REQUEST_EVENT, with
   * the descriptor as data and persisted, as the first item of the drain; the
   * event lands in every target slot, and, unless the target event type is
   * REQUEST_EVENT itself, none of the handlers it reaches is the requesting
   * handler (bound to the target event type).
   */
  lemma RequestPublishesDescriptor<D>(cfg: Config, st: Bus<D>, target: Event<D>, h: Handler<D>, cluster: string, cs: seq<string>)
    requires Valid(st.subs) && Accounted(st) && st.queue == []
    requires SubscribeSpec(cfg, st, target, h, Some(cluster)).Some?
    requires SubscribeSpec(cfg, st, target, h, Some(cluster)).value.outcome == Done
    requires RequestSpec(cfg, st, target, h, cluster, cs).Some?
    ensures var rep := SubscribeSpec(cfg, st, target, h, Some(cluster)).value;
      var it := MakeItem(cfg, RequestCall(target, h, cluster, cs));
      var st1 := Enqueue(cfg, rep.bus, RequestCall(target, h, cluster, cs));
      var fin := RequestSpec(cfg, st, target, h, cluster, cs).value;
      && it.persist && it.event == RequestEvent(target, h, cluster)
      && fin.outcome == Done
      && |fin.bus.processed| > |rep.bus.processed| && fin.bus.processed[|rep.bus.processed|] == it
      && (forall c | c in it.clusters :: Slot(Step(cfg, st1).store, RequestEventType, c) == Some(it.event))
      && (target.eventType != RequestEventType ==>
            forall g | g in DeliveryOrder(cfg, Matching(rep.bus.subs, RequestEventType, it.clusters)) :: g.id != h.id)
  {
    var rep := SubscribeSpec(cfg, st, target, h, Some(cluster)).value;
    var call := RequestCall(target, h, cluster, cs);
    var it := MakeItem(cfg, call);
    var st1 := Enqueue(cfg, rep.bus, call);
    SubscribeOutcome(cfg, st, target, h, Some(cluster));
    assert |RequestSpec(cfg, st, target, h, cluster, cs).value.bus.processed| > |rep.bus.processed| by {
      PublishedFirst(cfg, rep.bus, call);
    }
    assert st1.queue == [it];
    assert forall c | c in it.clusters :: Slot(Step(cfg, st1).store, RequestEventType, c) == Some(it.event) by {
      StepEffect(cfg, st1);
    }
    var ms := Matching(rep.bus.subs, RequestEventType, it.clusters);
    if target.eventType != RequestEventType {
      OtherEventNeverMatched(rep.bus.subs, RequestEventType, target.eventType, it.clusters, h.id);
      DeliveryOrderFrom(cfg, ms);
      assert forall g | g in DeliveryOrder(cfg, ms) :: g.id != h.id;
    }
    var fin := RequestSpec(cfg, st, target, h, cluster, cs).value;
    assert it.persist && it.event == RequestEvent(target, h, cluster);
    assert fin.outcome == Done;
    assert |fin.bus.processed| > |rep.bus.processed|;
    assert fin.bus.processed[|rep.bus.processed|] == it by {
      PublishedFirst(cfg, rep.bus, call);
    }
    assert forall c | c in it.clusters :: Slot(Step(cfg, st1).store, RequestEventType, c) == Some(it.event);
  }
}
