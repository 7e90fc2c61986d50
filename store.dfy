/** The persisted-event store: event type -> cluster -> last event published there with persist set. */
module Store {
  import opened Wrappers
  import opened Events

  type PersistedEvents<D> = map<string, map<string, Event<D>>>

  /** The slot for (e, c), if one was ever written. */
  function Slot<D>(store: PersistedEvents<D>, e: string, c: string): Option<Event<D>> {
    if e in store && c in store[e] then Some(store[e][c]) else None
  }

  /** `for (const cluster of clusters) map.set(cluster, event)`. */
  function SetAll<D>(slots: map<string, Event<D>>, cs: seq<string>, ev: Event<D>): (r: map<string, Event<D>>)
    ensures forall c :: c in r <==> c in slots || c in cs
    ensures forall c | c in r :: r[c] == if c in cs then ev else slots[c]
  {
    if cs == [] then slots
    else
      var init := cs[..|cs| - 1];
      assert forall c :: c in cs <==> c in init || c == cs[|cs| - 1];
      SetAll(slots, init, ev)[cs[|cs| - 1] := ev]
  }

  /**
   * `persistEvent(event, clusters)`: the slot of every literal cluster in
   * `cs` now holds `ev`; every other slot is as it was.
   */
  function Persisted<D>(store: PersistedEvents<D>, ev: Event<D>, cs: seq<string>): (r: PersistedEvents<D>)
    ensures forall e, c :: Slot(r, e, c) == if e == ev.eventType && c in cs then Some(ev) else Slot(store, e, c)
    ensures r.Keys == store.Keys + {ev.eventType}
  {
    var slots := if ev.eventType in store then store[ev.eventType] else map[];
    store[ev.eventType := SetAll(slots, cs, ev)]
  }
}
