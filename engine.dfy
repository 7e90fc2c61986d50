/**
 * The bus as a value: what one publish, one drain step, one subscribe,
 * unsubscribe or request does to the registry, the persisted-event store,
 * the queue and the trace of handler invocations and reported errors.
 * The class `EventBus.Eventuality` is proved against these definitions.
 */
module Engine {
  import opened Wrappers
  import opened Events
  import opened Registry
  import opened Matcher
  import opened Store
  import opened Batch
  import opened Seqs

  /** An `EventQueueItem`: the event, its target clusters (a set, in insertion order) and the persist flag. */
  datatype Item<D> = Item(event: Event<D>, clusters: seq<string>, persist: bool)

  /** What can be observed of a delivery: a handler called with a payload, or an error passed to the error callback. */
  datatype Effect<D> =
    | Invoked(handler: Handler<D>, payload: Payload<D>)
    | Reported(error: HandlerError, event: Event<D>, handler: Handler<D>)

  /**
   * The state of one bus. `enqueued` and `processed` are bookkeeping only:
   * every item ever queued, and every item ever taken off the queue.
   */
  datatype Bus<D> = Bus(
    subs: Subscriptions<D>,
    store: PersistedEvents<D>,
    queue: seq<Item<D>>,
    trace: seq<Effect<D>>,
    enqueued: seq<Item<D>>,
    processed: seq<Item<D>>)

  datatype Reply<D> = Reply(bus: Bus<D>, outcome: Outcome)

  /** Every item ever queued was either taken off the queue or is still on it, in order. */
  ghost predicate Accounted<D>(st: Bus<D>) {
    st.enqueued == st.processed + st.queue
  }

  /** The item `publish` queues. */
  function MakeItem<D>(cfg: Config, call: PublishCall<D>): Item<D> {
    var cs := Dedup(call.clusters);
    Item(call.event, if cs == [] then [Wildcard] else cs, call.persist.GetOr(cfg.defaultPersist))
  }

  /**
   * The queued item carries the event unchanged; its target clusters form a
   * set, with the wildcard standing in for an empty one; `persist` defaults
   * to the bus's `defaultPersist`.
   */
  lemma MakeItemShape<D>(cfg: Config, call: PublishCall<D>)
    ensures var it := MakeItem(cfg, call);
      && it.event == call.event
      && it.clusters != [] && (forall i, j | 0 <= i < j < |it.clusters| :: it.clusters[i] != it.clusters[j])
      && (call.clusters == [] ==> it.clusters == [Wildcard])
      && (call.clusters != [] ==> forall c :: c in it.clusters <==> c in call.clusters)
      && (it.persist <==> call.persist == Some(true) || (call.persist == None && cfg.defaultPersist))
  {
    assert call.clusters != [] ==> call.clusters[0] in Dedup(call.clusters);
  }

  /** The items a sequence of publishes queues, in call order. */
  function Items<D>(cfg: Config, calls: seq<PublishCall<D>>): seq<Item<D>> {
    if calls == [] then [] else Items(cfg, calls[..|calls| - 1]) + [MakeItem(cfg, calls[|calls| - 1])]
  }

  /** `eventQueue.push(item)`. */
  function Enqueue<D>(cfg: Config, st: Bus<D>, call: PublishCall<D>): Bus<D> {
    var it := MakeItem(cfg, call);
    st.(queue := st.queue + [it], enqueued := st.enqueued + [it])
  }

  /** The publishes a handler makes while the bus is busy: each only queues its item. */
  function EnqueueAll<D>(cfg: Config, st: Bus<D>, calls: seq<PublishCall<D>>): Bus<D> {
    if calls == [] then st else Enqueue(cfg, EnqueueAll(cfg, st, calls[..|calls| - 1]), calls[|calls| - 1])
  }

  /** `try { handler(event.data) } catch (error) { handleError(error, event, handler) }` on a busy bus. */
  function Invoke<D>(cfg: Config, st: Bus<D>, ev: Event<D>, h: Handler<D>): Bus<D> {
    var called := EnqueueAll(cfg, st.(trace := st.trace + [Invoked(h, ev.data)]), h.script);
    match h.failure
    case None => called
    case Some(err) => called.(trace := called.trace + [Reported(err, ev, h)])
  }

  /** The isolated invocation of each handler of `hs`, in order. */
  function InvokeAll<D>(cfg: Config, st: Bus<D>, ev: Event<D>, hs: seq<Handler<D>>): Bus<D> {
    if hs == [] then st else Invoke(cfg, InvokeAll(cfg, st, ev, hs[..|hs| - 1]), ev, hs[|hs| - 1])
  }

  /** `deliverEventToHandlers`: the order the matched handlers are called in, by delivery mode. */
  function DeliveryOrder<D>(cfg: Config, ms: seq<Match<D>>): seq<Handler<D>> {
    if cfg.mode == Individual then HandlersOf(ms) else BatchOrder(ms)
  }

  /**
   * Whatever the delivery mode, every matched handler is called once per
   * match and no other handler is called: the order is a permutation of the
   * matches, list order in individual mode.
   */
  lemma DeliveryOrderFrom<D>(cfg: Config, ms: seq<Match<D>>)
    ensures multiset(DeliveryOrder(cfg, ms)) == multiset(HandlersOf(ms))
    ensures cfg.mode == Individual ==> DeliveryOrder(cfg, ms) == HandlersOf(ms)
    ensures forall g | g in DeliveryOrder(cfg, ms) :: exists m | m in ms :: m.handler == g
  {
    if cfg.mode != Individual {
      BatchPermutation(ms);
    }
    forall g | g in DeliveryOrder(cfg, ms) ensures exists m | m in ms :: m.handler == g {
      if cfg.mode != Individual {
        BatchPermutation(ms);
        assert g in multiset(HandlersOf(ms));
      }
      assert g in HandlersOf(ms);
      var i :| 0 <= i < |ms| && HandlersOf(ms)[i] == g;
      assert ms[i] in ms;
    }
  }

  /** One iteration of the `processQueue` loop: take the head item, deliver it, then persist it if flagged. */
  function Step<D>(cfg: Config, st: Bus<D>): Bus<D>
    requires st.queue != []
  {
    var it := st.queue[0];
    var popped := st.(queue := st.queue[1..], processed := st.processed + [it]);
    var delivered := InvokeAll(cfg, popped, it.event, DeliveryOrder(cfg, Matching(st.subs, it.event.eventType, it.clusters)));
    if it.persist then delivered.(store := Persisted(delivered.store, it.event, it.clusters)) else delivered
  }

  /** `processQueue` with at most `fuel` iterations; None when the queue is still not empty after them. */
  function Drain<D>(cfg: Config, st: Bus<D>, fuel: nat): Option<Bus<D>>
    decreases fuel
  {
    if st.queue == [] then Some(st)
    else if fuel == 0 then None
    else Drain(cfg, Step(cfg, st), fuel - 1)
  }

  /** The drain loop stops: handlers do not keep publishing forever. */
  ghost predicate DrainEnds<D>(cfg: Config, st: Bus<D>) {
    exists fuel: nat :: Drain(cfg, st, fuel).Some?
  }

  /** The state `processQueue` leaves behind. */
  ghost function Drained<D>(cfg: Config, st: Bus<D>): Bus<D>
    requires DrainEnds(cfg, st)
  {
    var fuel: nat :| Drain(cfg, st, fuel).Some?;
    Drain(cfg, st, fuel).value
  }

  /** More fuel than a drain needs changes nothing. */
  lemma {:induction false} DrainMoreFuel<D>(cfg: Config, st: Bus<D>, fuel: nat, more: nat)
    requires Drain(cfg, st, fuel).Some? && fuel <= more
    ensures Drain(cfg, st, more) == Drain(cfg, st, fuel)
    decreases fuel
  {
    if st.queue != [] {
      DrainMoreFuel(cfg, Step(cfg, st), fuel - 1, more - 1);
    }
  }

  /** Any fuel that suffices gives the drained state. */
  lemma DrainedByAnyFuel<D>(cfg: Config, st: Bus<D>, fuel: nat)
    requires Drain(cfg, st, fuel).Some?
    ensures DrainEnds(cfg, st) && Drained(cfg, st) == Drain(cfg, st, fuel).value
  {
    var f: nat :| Drain(cfg, st, f).Some? && Drained(cfg, st) == Drain(cfg, st, f).value;
    if f <= fuel {
      DrainMoreFuel(cfg, st, f, fuel);
    } else {
      DrainMoreFuel(cfg, st, fuel, f);
    }
  }

  /** One step taken first, then the rest of the drain. */
  lemma DrainedStep<D>(cfg: Config, st: Bus<D>)
    requires DrainEnds(cfg, st) && st.queue != []
    ensures DrainEnds(cfg, Step(cfg, st)) && Drained(cfg, Step(cfg, st)) == Drained(cfg, st)
  {
    var fuel: nat :| Drain(cfg, st, fuel).Some?;
    DrainedByAnyFuel(cfg, st, fuel);
    DrainedByAnyFuel(cfg, Step(cfg, st), fuel - 1);
  }

  /** An idle bus drains to itself. */
  lemma DrainedIdle<D>(cfg: Config, st: Bus<D>)
    requires st.queue == []
    ensures DrainEnds(cfg, st) && Drained(cfg, st) == st
  {
    DrainedByAnyFuel(cfg, st, 0);
  }

  // ----- what one delivery does -----

  /** The effects of invoking `h` with `ev`: the call, then the report of its error if it throws. */
  function HandlerEffects<D>(ev: Event<D>, h: Handler<D>): seq<Effect<D>> {
    [Invoked(h, ev.data)] + (if h.failure.Some? then [Reported(h.failure.value, ev, h)] else [])
  }

  function EffectsOf<D>(ev: Event<D>, hs: seq<Handler<D>>): seq<Effect<D>> {
    if hs == [] then [] else EffectsOf(ev, hs[..|hs| - 1]) + HandlerEffects(ev, hs[|hs| - 1])
  }

  /** The items the publishes of `hs` queue, handler after handler. */
  function ScriptItems<D>(cfg: Config, hs: seq<Handler<D>>): seq<Item<D>> {
    if hs == [] then [] else ScriptItems(cfg, hs[..|hs| - 1]) + Items(cfg, hs[|hs| - 1].script)
  }

  lemma {:induction false} EnqueueAllEffect<D>(cfg: Config, st: Bus<D>, calls: seq<PublishCall<D>>)
    ensures var r := EnqueueAll(cfg, st, calls);
      && r.subs == st.subs && r.store == st.store && r.trace == st.trace && r.processed == st.processed
      && r.queue == st.queue + Items(cfg, calls) && r.enqueued == st.enqueued + Items(cfg, calls)
  {
    if calls != [] {
      var init := calls[..|calls| - 1];
      var it := MakeItem(cfg, calls[|calls| - 1]);
      EnqueueAllEffect(cfg, st, init);
      var mid := EnqueueAll(cfg, st, init);
      assert mid.queue + [it] == st.queue + Items(cfg, calls) by {
        Regroup(st.queue, Items(cfg, init), [], [it]);
      }
      assert mid.enqueued + [it] == st.enqueued + Items(cfg, calls) by {
        Regroup(st.enqueued, Items(cfg, init), [], [it]);
      }
    }
  }

  /** One isolated invocation: its effects are appended and its publishes queued. */
  lemma InvokeEffect<D>(cfg: Config, st: Bus<D>, ev: Event<D>, h: Handler<D>)
    ensures var r := Invoke(cfg, st, ev, h);
      && r.subs == st.subs && r.store == st.store && r.processed == st.processed
      && r.trace == st.trace + HandlerEffects(ev, h)
      && r.queue == st.queue + Items(cfg, h.script) && r.enqueued == st.enqueued + Items(cfg, h.script)
  {
    EnqueueAllEffect(cfg, st.(trace := st.trace + [Invoked(h, ev.data)]), h.script);
  }

  lemma {:induction false} InvokeAllFrame<D>(cfg: Config, st: Bus<D>, ev: Event<D>, hs: seq<Handler<D>>)
    ensures var r := InvokeAll(cfg, st, ev, hs);
      r.subs == st.subs && r.store == st.store && r.processed == st.processed
  {
    if hs != [] {
      InvokeAllFrame(cfg, st, ev, hs[..|hs| - 1]);
      InvokeEffect(cfg, InvokeAll(cfg, st, ev, hs[..|hs| - 1]), ev, hs[|hs| - 1]);
    }
  }

  lemma {:induction false} InvokeAllTrace<D>(cfg: Config, st: Bus<D>, ev: Event<D>, hs: seq<Handler<D>>)
    ensures InvokeAll(cfg, st, ev, hs).trace == st.trace + EffectsOf(ev, hs)
  {
    if hs != [] {
      var init := hs[..|hs| - 1];
      InvokeAllTrace(cfg, st, ev, init);
      InvokeEffect(cfg, InvokeAll(cfg, st, ev, init), ev, hs[|hs| - 1]);
      assert st.trace + EffectsOf(ev, hs) == st.trace + EffectsOf(ev, init) + HandlerEffects(ev, hs[|hs| - 1]);
    }
  }

  lemma {:induction false} InvokeAllQueue<D>(cfg: Config, st: Bus<D>, ev: Event<D>, hs: seq<Handler<D>>)
    ensures InvokeAll(cfg, st, ev, hs).queue == st.queue + ScriptItems(cfg, hs)
  {
    if hs != [] {
      var init := hs[..|hs| - 1];
      var mid := InvokeAll(cfg, st, ev, init);
      var a, b := ScriptItems(cfg, init), Items(cfg, hs[|hs| - 1].script);
      assert mid.queue == st.queue + a by {
        InvokeAllQueue(cfg, st, ev, init);
      }
      assert InvokeAll(cfg, st, ev, hs).queue == mid.queue + b by {
        assert InvokeAll(cfg, st, ev, hs) == Invoke(cfg, mid, ev, hs[|hs| - 1]);
        InvokeEffect(cfg, mid, ev, hs[|hs| - 1]);
      }
      assert ScriptItems(cfg, hs) == a + b;
      Assoc(st.queue, a, b);
    }
  }

  lemma {:induction false} InvokeAllEnqueued<D>(cfg: Config, st: Bus<D>, ev: Event<D>, hs: seq<Handler<D>>)
    ensures InvokeAll(cfg, st, ev, hs).enqueued == st.enqueued + ScriptItems(cfg, hs)
  {
    if hs != [] {
      var init := hs[..|hs| - 1];
      var mid := InvokeAll(cfg, st, ev, init);
      var a, b := ScriptItems(cfg, init), Items(cfg, hs[|hs| - 1].script);
      assert mid.enqueued == st.enqueued + a by {
        InvokeAllEnqueued(cfg, st, ev, init);
      }
      assert InvokeAll(cfg, st, ev, hs).enqueued == mid.enqueued + b by {
        assert InvokeAll(cfg, st, ev, hs) == Invoke(cfg, mid, ev, hs[|hs| - 1]);
        InvokeEffect(cfg, mid, ev, hs[|hs| - 1]);
      }
      assert ScriptItems(cfg, hs) == a + b;
      Assoc(st.enqueued, a, b);
    }
  }

  /**
   * Delivering to `hs` on a busy bus leaves the registry and the store alone,
   * appends each handler's effects in order, and queues the handlers'
   * publishes behind the items already waiting.
   */
  lemma InvokeAllEffect<D>(cfg: Config, st: Bus<D>, ev: Event<D>, hs: seq<Handler<D>>)
    ensures var r := InvokeAll(cfg, st, ev, hs);
      && r.subs == st.subs && r.store == st.store && r.processed == st.processed
      && r.trace == st.trace + EffectsOf(ev, hs)
      && r.queue == st.queue + ScriptItems(cfg, hs)
      && r.enqueued == st.enqueued + ScriptItems(cfg, hs)
  {
    InvokeAllFrame(cfg, st, ev, hs);
    InvokeAllTrace(cfg, st, ev, hs);
    InvokeAllQueue(cfg, st, ev, hs);
    InvokeAllEnqueued(cfg, st, ev, hs);
  }

  lemma {:induction false} InvokeAllAppend<D>(cfg: Config, st: Bus<D>, ev: Event<D>, a: seq<Handler<D>>, b: seq<Handler<D>>)
    ensures InvokeAll(cfg, st, ev, a + b) == InvokeAll(cfg, InvokeAll(cfg, st, ev, a), ev, b)
  {
    if b == [] {
      assert a + b == a;
    } else {
      assert (a + b)[..|a + b| - 1] == a + b[..|b| - 1];
      InvokeAllAppend(cfg, st, ev, a, b[..|b| - 1]);
    }
  }

  /** The handlers called in a trace, in call order. */
  function Invocations<D>(t: seq<Effect<D>>): seq<Handler<D>> {
    if t == [] then []
    else Invocations(t[..|t| - 1]) + (if t[|t| - 1].Invoked? then [t[|t| - 1].handler] else [])
  }

  /** The errors passed to the error callback in a trace, in order. */
  function Reports<D>(t: seq<Effect<D>>): seq<Effect<D>> {
    if t == [] then [] else Reports(t[..|t| - 1]) + (if t[|t| - 1].Reported? then [t[|t| - 1]] else [])
  }

  /** One report per handler of `hs` that throws, in order. */
  function FailuresOf<D>(ev: Event<D>, hs: seq<Handler<D>>): seq<Effect<D>> {
    if hs == [] then []
    else
      var h := hs[|hs| - 1];
      FailuresOf(ev, hs[..|hs| - 1]) + (if h.failure.Some? then [Reported(h.failure.value, ev, h)] else [])
  }

  lemma {:induction false} InvocationsAppend<D>(a: seq<Effect<D>>, b: seq<Effect<D>>)
    ensures Invocations(a + b) == Invocations(a) + Invocations(b)
    ensures Reports(a + b) == Reports(a) + Reports(b)
  {
    if b == [] {
      assert a + b == a;
    } else {
      assert (a + b)[..|a + b| - 1] == a + b[..|b| - 1];
      InvocationsAppend(a, b[..|b| - 1]);
    }
  }

  lemma HandlerEffectsSplit<D>(ev: Event<D>, h: Handler<D>)
    ensures Invocations(HandlerEffects(ev, h)) == [h]
    ensures Reports(HandlerEffects(ev, h)) == if h.failure.Some? then [Reported(h.failure.value, ev, h)] else []
  {
    var call: seq<Effect<D>> := [Invoked(h, ev.data)];
    assert call[..0] == [];
    if h.failure.Some? {
      var report: seq<Effect<D>> := [Reported(h.failure.value, ev, h)];
      assert report[..0] == [];
      InvocationsAppend(call, report);
    }
  }

  /** Failure isolation: every handler of the list is called, in order, whether or not an earlier one threw. */
  lemma {:induction false} EveryHandlerInvoked<D>(ev: Event<D>, hs: seq<Handler<D>>)
    ensures Invocations(EffectsOf(ev, hs)) == hs
  {
    if hs != [] {
      var init := hs[..|hs| - 1];
      var last := hs[|hs| - 1];
      EveryHandlerInvoked(ev, init);
      InvocationsAppend(EffectsOf(ev, init), HandlerEffects(ev, last));
      HandlerEffectsSplit(ev, last);
      SplitLast(hs);
    }
  }

  /** The error callback receives exactly one report, with the event and the handler, per handler that threw. */
  lemma {:induction false} EveryFailureReported<D>(ev: Event<D>, hs: seq<Handler<D>>)
    ensures Reports(EffectsOf(ev, hs)) == FailuresOf(ev, hs)
  {
    if hs != [] {
      var init := hs[..|hs| - 1];
      EveryFailureReported(ev, init);
      InvocationsAppend(EffectsOf(ev, init), HandlerEffects(ev, hs[|hs| - 1]));
      HandlerEffectsSplit(ev, hs[|hs| - 1]);
    }
  }

  /** Every handler called during a delivery is called with the event's data. */
  lemma {:induction false} EffectsPayload<D>(ev: Event<D>, hs: seq<Handler<D>>)
    ensures forall f | f in EffectsOf(ev, hs) && f.Invoked? :: f.payload == ev.data
    ensures forall f | f in EffectsOf(ev, hs) && f.Reported? :: f.event == ev
  {
    if hs != [] {
      EffectsPayload(ev, hs[..|hs| - 1]);
    }
  }

  /**
   * One drain step: the head item leaves the queue, its matched handlers are
   * called in delivery order with its data, their publishes join the tail of
   * the queue, and only then is the item persisted (in every target cluster)
   * when its flag is set; the registry is not touched.
   */
  lemma StepEffect<D>(cfg: Config, st: Bus<D>)
    requires st.queue != []
    ensures var it := st.queue[0];
      var order := DeliveryOrder(cfg, Matching(st.subs, it.event.eventType, it.clusters));
      var r := Step(cfg, st);
      && r.subs == st.subs
      && r.store == (if it.persist then Persisted(st.store, it.event, it.clusters) else st.store)
      && r.trace == st.trace + EffectsOf(it.event, order)
      && r.queue == st.queue[1..] + ScriptItems(cfg, order)
      && r.processed == st.processed + [it]
      && r.enqueued == st.enqueued + ScriptItems(cfg, order)
  {
    var it := st.queue[0];
    var popped := st.(queue := st.queue[1..], processed := st.processed + [it]);
    InvokeAllEffect(cfg, popped, it.event, DeliveryOrder(cfg, Matching(st.subs, it.event.eventType, it.clusters)));
  }

  /** A step keeps the queue accounted for and only ever extends the queue history and the trace. */
  lemma StepAccounted<D>(cfg: Config, st: Bus<D>)
    requires Accounted(st) && st.queue != []
    ensures var s := Step(cfg, st);
      && Accounted(s) && s.subs == st.subs
      && |st.enqueued| <= |s.enqueued| && s.enqueued[..|st.enqueued|] == st.enqueued
      && |st.trace| <= |s.trace| && s.trace[..|st.trace|] == st.trace
  {
    var s := Step(cfg, st);
    var it := st.queue[0];
    var extra := ScriptItems(cfg, DeliveryOrder(cfg, Matching(st.subs, it.event.eventType, it.clusters)));
    assert s.queue == st.queue[1..] + extra && s.processed == st.processed + [it] && s.enqueued == st.enqueued + extra by {
      StepEffect(cfg, st);
    }
    var p, q := st.processed, st.queue[1..];
    assert st.queue == [it] + q;
    Regroup(p, [it], q, extra);
    assert s.enqueued == s.processed + s.queue;
    assert s.subs == st.subs && s.trace[..|st.trace|] == st.trace by {
      StepEffect(cfg, st);
    }
  }

  /**
   * First-in, first-out: a drain empties the queue, takes items off it in
   * exactly the order they were queued (the items waiting first, then those
   * handlers published meanwhile), keeps the trace and the queue history as
   * prefixes, and never touches the registry.
   */
  lemma {:induction false} DrainFifo<D>(cfg: Config, st: Bus<D>, fuel: nat)
    requires Accounted(st) && Drain(cfg, st, fuel).Some?
    ensures var r := Drain(cfg, st, fuel).value;
      && r.queue == []
      && r.processed == r.enqueued
      && r.subs == st.subs
      && |st.enqueued| <= |r.enqueued| && r.enqueued[..|st.enqueued|] == st.enqueued
      && |st.trace| <= |r.trace| && r.trace[..|st.trace|] == st.trace
    decreases fuel
  {
    if st.queue != [] {
      var s := Step(cfg, st);
      StepAccounted(cfg, st);
      DrainFifo(cfg, s, fuel - 1);
      assert Drain(cfg, st, fuel) == Drain(cfg, s, fuel - 1);
      var r := Drain(cfg, s, fuel - 1).value;
      assert r.enqueued[..|st.enqueued|] == r.enqueued[..|s.enqueued|][..|st.enqueued|];
      assert r.trace[..|st.trace|] == r.trace[..|s.trace|][..|st.trace|];
    }
  }

  lemma DrainedFifo<D>(cfg: Config, st: Bus<D>)
    requires Accounted(st) && DrainEnds(cfg, st)
    ensures var r := Drained(cfg, st);
      && r.queue == []
      && r.processed == r.enqueued
      && r.subs == st.subs
      && |st.enqueued| <= |r.enqueued| && r.enqueued[..|st.enqueued|] == st.enqueued
      && |st.trace| <= |r.trace| && r.trace[..|st.trace|] == st.trace
  {
    var fuel: nat :| Drain(cfg, st, fuel).Some?;
    DrainedByAnyFuel(cfg, st, fuel);
    DrainFifo(cfg, st, fuel);
  }

  /**
   * A publish on an idle bus: its item is the first one processed, every item
   * handlers publish while it is delivered is processed after it in the order
   * it was queued, and the bus ends idle.
   */
  lemma PublishedFirst<D>(cfg: Config, st: Bus<D>, call: PublishCall<D>)
    requires Accounted(st) && st.queue == [] && DrainEnds(cfg, Enqueue(cfg, st, call))
    ensures var r := Drained(cfg, Enqueue(cfg, st, call));
      && r.queue == [] && Accounted(r) && r.subs == st.subs
      && |r.processed| > |st.processed|
      && r.processed[..|st.processed|] == st.processed
      && r.processed[|st.processed|] == MakeItem(cfg, call)
  {
    var s := Enqueue(cfg, st, call);
    var it := MakeItem(cfg, call);
    DrainedFifo(cfg, s);
    var r := Drained(cfg, s);
    assert s.enqueued == st.processed + [it] by {
      assert st.enqueued == st.processed + [];
    }
    assert r.processed[..|st.processed| + 1] == st.processed + [it] by {
      assert r.processed == r.enqueued;
    }
    PrefixThen(r.processed, st.processed, it);
  }

  // ----- subscribe, unsubscribe, request -----

  /** Top-level publishes, one after the other, each drained before the next starts. */
  ghost function RunScript<D>(cfg: Config, st: Bus<D>, calls: seq<PublishCall<D>>): Option<Bus<D>>
    decreases |calls|
  {
    if calls == [] then Some(st)
    else
      var st1 := Enqueue(cfg, st, calls[0]);
      if DrainEnds(cfg, st1) then RunScript(cfg, Drained(cfg, st1), calls[1..]) else None
  }

  lemma {:induction false} RunScriptEffect<D>(cfg: Config, st: Bus<D>, calls: seq<PublishCall<D>>)
    requires Accounted(st) && st.queue == [] && RunScript(cfg, st, calls).Some?
    ensures var r := RunScript(cfg, st, calls).value;
      && r.queue == [] && Accounted(r) && r.subs == st.subs
      && |st.trace| <= |r.trace| && r.trace[..|st.trace|] == st.trace
    decreases |calls|
  {
    if calls != [] {
      var st1 := Enqueue(cfg, st, calls[0]);
      DrainedFifo(cfg, st1);
      var s := Drained(cfg, st1);
      RunScriptEffect(cfg, s, calls[1..]);
      var r := RunScript(cfg, s, calls[1..]).value;
      assert r.trace[..|st.trace|] == r.trace[..|s.trace|][..|st.trace|];
    }
  }

  /**
   * `deliverPersistedEventsToHandler(e, c, h)`: when an event was persisted
   * in exactly the slot (e, c), `h` is called with its data at top level, so
   * each of its publishes is drained before the next; a throw is not caught.
   */
  ghost function Replay<D>(cfg: Config, st: Bus<D>, e: string, c: string, h: Handler<D>): Option<Reply<D>> {
    match Slot(st.store, e, c)
    case None => Some(Reply(st, Done))
    case Some(pe) =>
      (match RunScript(cfg, st.(trace := st.trace + [Invoked(h, pe.data)]), h.script)
       case None => None
       case Some(r) => Some(Reply(r, if h.failure.Some? then Failed(ReplayThrew(h.failure.value)) else Done)))
  }

  /** `subscribe(event, h, cluster)` on an idle bus; None when a replayed publish never stops. */
  ghost function SubscribeSpec<D>(cfg: Config, st: Bus<D>, ev: Event<D>, h: Handler<D>, cluster: Option<string>): Option<Reply<D>> {
    var e := ev.eventType;
    var c := cluster.GetOr(Wildcard);
    if ValidateHandler(h).Failed? then Some(Reply(st, ValidateHandler(h)))
    else
      var subs := GetOrCreate(st.subs, e, c);
      if HasKey(BucketOf(subs[e], c), h.id) then Some(Reply(st.(subs := subs), Done))
      else if RegisteredElsewhere(subs, h.id, e) then Some(Reply(st.(subs := subs), Failed(DuplicateHandlerAssignment)))
      else Replay(cfg, st.(subs := Insert(subs, e, c, h)), e, c, h)
  }

  /** `unsubscribe(event, h)`. */
  function UnsubscribeSpec<D>(st: Bus<D>, ev: Event<D>, h: Handler<D>): Reply<D> {
    Reply(st.(subs := Unsubscribed(st.subs, ev.eventType, h.id)),
          if Found(st.subs, ev.eventType, h.id) then Done else Failed(HandlerNotFound))
  }

  /** The publish `request` makes once the subscription is in place. */
  function RequestCall<D>(target: Event<D>, h: Handler<D>, cluster: string, cs: seq<string>): PublishCall<D> {
    PublishCall(RequestEvent(target, h, cluster), cs, Some(true))
  }

  /** `request({targetEvent, handler, cluster}, cs)` on an idle bus. */
  ghost function RequestSpec<D>(cfg: Config, st: Bus<D>, target: Event<D>, h: Handler<D>, cluster: string, cs: seq<string>): Option<Reply<D>> {
    match SubscribeSpec(cfg, st, target, h, Some(cluster))
    case None => None
    case Some(rep) =>
      if rep.outcome.Failed? then Some(rep)
      else
        var st1 := Enqueue(cfg, rep.bus, RequestCall(target, h, cluster, cs));
        if DrainEnds(cfg, st1) then Some(Reply(Drained(cfg, st1), Done)) else None
  }
}
