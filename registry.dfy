/**
 * The subscription registry: event type -> cluster -> handler id -> handler.
 *
 * The outer level is a map (its order is never observed). A cluster map keeps
 * its buckets in creation order and a bucket keeps its handlers in insertion
 * order, as JavaScript's `Map` does; both orders decide delivery order.
 */
module Registry {
  import opened Wrappers
  import opened Events

  /** One cluster's handlers, keyed by handler id, in insertion order. */
  datatype Bucket<D> = Bucket(cluster: string, handlers: seq<Handler<D>>)

  type ClusterMap<D> = seq<Bucket<D>>

  type Subscriptions<D> = map<string, ClusterMap<D>>

  /** `handlersMap.has(key)`. */
  predicate HasKey<D>(hs: seq<Handler<D>>, key: Option<HandlerId>) {
    exists i | 0 <= i < |hs| :: hs[i].id == key
  }

  /** Ids are the map's keys, so no two handlers in a bucket share one. */
  predicate DistinctIds<D>(hs: seq<Handler<D>>) {
    forall i, j | 0 <= i < j < |hs| :: hs[i].id != hs[j].id
  }

  predicate AllRegistrable<D>(hs: seq<Handler<D>>) {
    forall i | 0 <= i < |hs| :: Registrable(hs[i])
  }

  /** `handlersMap.delete(key)`: drops the entry for `key`, keeping the others in order. */
  function Without<D>(hs: seq<Handler<D>>, key: Option<HandlerId>): seq<Handler<D>> {
    if hs == [] then [] else (if hs[0].id == key then [] else [hs[0]]) + Without(hs[1..], key)
  }

  lemma HasKeyHead<D>(hs: seq<Handler<D>>, k: Option<HandlerId>)
    requires hs != []
    ensures HasKey(hs, k) <==> hs[0].id == k || HasKey(hs[1..], k)
  {
    if HasKey(hs, k) && hs[0].id != k {
      var i :| 0 <= i < |hs| && hs[i].id == k;
      assert hs[1..][i - 1].id == k;
    }
    if HasKey(hs[1..], k) {
      var i :| 0 <= i < |hs[1..]| && hs[1..][i].id == k;
      assert hs[i + 1].id == k;
    }
  }

  lemma DistinctIdsHead<D>(hs: seq<Handler<D>>)
    requires hs != []
    ensures DistinctIds(hs) <==> !HasKey(hs[1..], hs[0].id) && DistinctIds(hs[1..])
  {
    if DistinctIds(hs) {
      forall i, j | 0 <= i < j < |hs[1..]| ensures hs[1..][i].id != hs[1..][j].id {
        assert hs[1..][i] == hs[i + 1] && hs[1..][j] == hs[j + 1];
      }
      forall i | 0 <= i < |hs[1..]| ensures hs[1..][i].id != hs[0].id {
        assert hs[1..][i] == hs[i + 1];
      }
    }
    if !HasKey(hs[1..], hs[0].id) && DistinctIds(hs[1..]) {
      forall i, j | 0 <= i < j < |hs| ensures hs[i].id != hs[j].id {
        if i == 0 {
          assert hs[1..][j - 1] == hs[j];
        } else {
          assert hs[1..][i - 1] == hs[i] && hs[1..][j - 1] == hs[j];
        }
      }
    }
  }

  /** Deleting `key` removes it and no other id, and is a no-op when `key` is absent. */
  lemma {:induction false} WithoutKeys<D>(hs: seq<Handler<D>>, key: Option<HandlerId>)
    ensures !HasKey(Without(hs, key), key)
    ensures forall k | k != key :: HasKey(Without(hs, key), k) <==> HasKey(hs, k)
    ensures !HasKey(hs, key) ==> Without(hs, key) == hs
  {
    if hs != [] {
      var tail := hs[1..];
      var rest := Without(tail, key);
      var r := Without(hs, key);
      WithoutKeys(tail, key);
      forall k ensures HasKey(hs, k) <==> hs[0].id == k || HasKey(tail, k) {
        HasKeyHead(hs, k);
      }
      if hs[0].id == key {
        assert r == rest;
      } else {
        assert r == [hs[0]] + rest;
        assert r[1..] == rest;
        forall k ensures HasKey(r, k) <==> hs[0].id == k || HasKey(rest, k) {
          HasKeyHead(r, k);
        }
        assert !HasKey(hs, key) ==> r == hs by {
          if !HasKey(hs, key) {
            assert rest == tail;
          }
        }
      }
    }
  }

  /** Deleting keeps only entries that were there, and keeps ids distinct. */
  lemma {:induction false} WithoutSubset<D>(hs: seq<Handler<D>>, key: Option<HandlerId>)
    ensures forall h | h in Without(hs, key) :: h in hs
    ensures DistinctIds(hs) ==> DistinctIds(Without(hs, key))
  {
    if hs != [] {
      var tail := hs[1..];
      var rest := Without(tail, key);
      var r := Without(hs, key);
      WithoutSubset(tail, key);
      DistinctIdsHead(hs);
      if hs[0].id == key {
        assert r == rest;
      } else {
        assert r == [hs[0]] + rest;
        assert r[1..] == rest;
        assert DistinctIds(hs) ==> !HasKey(rest, hs[0].id) by {
          WithoutKeys(tail, key);
        }
        DistinctIdsHead(r);
      }
    }
  }

  /** The position of the bucket for cluster `c` (`eventMap.get(c)`), if there is one. */
  function BucketIndex<D>(cm: ClusterMap<D>, c: string): (r: Option<nat>)
    ensures r.Some? ==> r.value < |cm| && cm[r.value].cluster == c
    ensures r.Some? ==> forall j | 0 <= j < r.value :: cm[j].cluster != c
    ensures r.None? <==> forall j | 0 <= j < |cm| :: cm[j].cluster != c
  {
    if cm == [] then None
    else if cm[0].cluster == c then Some(0)
    else
      match BucketIndex(cm[1..], c)
      case None => None
      case Some(j) => Some(j + 1)
  }

  /** The handlers of cluster `c`, in insertion order; an absent bucket contributes none. */
  function BucketOf<D>(cm: ClusterMap<D>, c: string): seq<Handler<D>> {
    match BucketIndex(cm, c)
    case None => []
    case Some(j) => cm[j].handlers
  }

  predicate HasBucket<D>(cm: ClusterMap<D>, c: string) {
    BucketIndex(cm, c).Some?
  }

  /** `key` is registered in the bucket of cluster `c`. */
  predicate BoundAt<D>(cm: ClusterMap<D>, c: string, key: Option<HandlerId>) {
    exists i | 0 <= i < |cm| :: cm[i].cluster == c && HasKey(cm[i].handlers, key)
  }

  /** `handlerExistsInAnyCluster`: `key` is registered in some bucket. */
  predicate BoundIn<D>(cm: ClusterMap<D>, key: Option<HandlerId>) {
    exists i | 0 <= i < |cm| :: HasKey(cm[i].handlers, key)
  }

  /** `key` is registered for event type `e` in cluster `c`. */
  predicate Bound<D>(subs: Subscriptions<D>, e: string, c: string, key: Option<HandlerId>) {
    e in subs && BoundAt(subs[e], c, key)
  }

  /** `isHandlerRegisteredElsewhere`: `key` is registered under an event type other than `e`. */
  predicate RegisteredElsewhere<D>(subs: Subscriptions<D>, key: Option<HandlerId>, e: string) {
    exists other | other in subs && other != e :: BoundIn(subs[other], key)
  }

  predicate DistinctClusters<D>(cm: ClusterMap<D>) {
    forall i, j | 0 <= i < j < |cm| :: cm[i].cluster != cm[j].cluster
  }

  /** Shape of one event type's cluster map: a key per cluster, a key per handler id, validated handlers only. */
  predicate WellFormed<D>(cm: ClusterMap<D>) {
    && DistinctClusters(cm)
    && forall i | 0 <= i < |cm| :: DistinctIds(cm[i].handlers) && AllRegistrable(cm[i].handlers)
  }

  /** A handler id is bound to at most one event type. */
  ghost predicate OneEventType<D>(subs: Subscriptions<D>) {
    forall e1, e2, key | e1 in subs && e2 in subs && BoundIn(subs[e1], key) && BoundIn(subs[e2], key) :: e1 == e2
  }

  /** The registry invariant every operation keeps. */
  ghost predicate Valid<D>(subs: Subscriptions<D>) {
    && (forall e | e in subs :: WellFormed(subs[e]))
    && OneEventType(subs)
  }

  /** Under distinct cluster names, being bound in cluster `c` is being a key of `c`'s bucket. */
  lemma BoundAtBucketOf<D>(cm: ClusterMap<D>, c: string, key: Option<HandlerId>)
    requires DistinctClusters(cm)
    ensures BoundAt(cm, c, key) <==> HasKey(BucketOf(cm, c), key)
  {
    if BoundAt(cm, c, key) {
      var i :| 0 <= i < |cm| && cm[i].cluster == c && HasKey(cm[i].handlers, key);
      var j := BucketIndex(cm, c).value;
      assert i == j;
    }
  }

  /**
   * Replacing event type `e`'s cluster map by a well-formed one keeps the
   * invariant when every id bound in the new map is either already bound
   * under `e` or bound under no other event type.
   */
  lemma ReplaceKeepsValid<D>(subs: Subscriptions<D>, e: string, cm: ClusterMap<D>)
    requires Valid(subs) && WellFormed(cm)
    requires forall k | BoundIn(cm, k) :: (e in subs && BoundIn(subs[e], k)) || !RegisteredElsewhere(subs, k, e)
    ensures Valid(subs[e := cm])
  {
    var r := subs[e := cm];
    forall e1, e2, k | e1 in r && e2 in r && BoundIn(r[e1], k) && BoundIn(r[e2], k)
      ensures e1 == e2
    {
      if e1 != e2 && (e1 == e || e2 == e) {
        var other := if e1 == e then e2 else e1;
        assert BoundIn(subs[other], k);
        assert RegisteredElsewhere(subs, k, e);
      }
    }
  }

  /** Appending an empty bucket for a new cluster binds nothing and keeps the shape. */
  lemma AppendEmptyBucket<D>(cm: ClusterMap<D>, c: string)
    requires !HasBucket(cm, c)
    ensures HasBucket(cm + [Bucket(c, [])], c)
    ensures forall cl, k :: BoundAt(cm + [Bucket(c, [])], cl, k) <==> BoundAt(cm, cl, k)
    ensures forall k :: BoundIn(cm + [Bucket(c, [])], k) <==> BoundIn(cm, k)
    ensures WellFormed(cm) ==> WellFormed(cm + [Bucket(c, [])])
  {
    var cm' := cm + [Bucket(c, [])];
    assert cm'[|cm|].cluster == c;
    forall cl, k ensures BoundAt(cm', cl, k) <==> BoundAt(cm, cl, k) {
      if BoundAt(cm', cl, k) {
        var i :| 0 <= i < |cm'| && cm'[i].cluster == cl && HasKey(cm'[i].handlers, k);
        assert i < |cm| && cm'[i] == cm[i];
      }
      if BoundAt(cm, cl, k) {
        var i :| 0 <= i < |cm| && cm[i].cluster == cl && HasKey(cm[i].handlers, k);
        assert cm'[i] == cm[i];
      }
    }
    forall k ensures BoundIn(cm', k) <==> BoundIn(cm, k) {
      if BoundIn(cm', k) {
        var i :| 0 <= i < |cm'| && HasKey(cm'[i].handlers, k);
        assert i < |cm| && cm'[i] == cm[i];
      }
      if BoundIn(cm, k) {
        var i :| 0 <= i < |cm| && HasKey(cm[i].handlers, k);
        assert cm'[i] == cm[i];
      }
    }
  }

  /**
   * `getOrCreateClusterMap`: makes sure event type `e` has an entry and that
   * entry a bucket for `c`, creating them (empty, at the end) when missing.
   */
  function GetOrCreate<D>(subs: Subscriptions<D>, e: string, c: string): (r: Subscriptions<D>)
    ensures e in r && HasBucket(r[e], c)
    ensures e in subs && HasBucket(subs[e], c) ==> r == subs
    ensures forall other | other != e :: (other in r <==> other in subs) && (other in r ==> r[other] == subs[other])
  {
    var cm := if e in subs then subs[e] else [];
    if HasBucket(cm, c) then subs
    else
      AppendEmptyBucket(cm, c);
      subs[e := cm + [Bucket(c, [])]]
  }

  /**
   * What `getOrCreateClusterMap` leaves behind: no binding is created or lost
   * (at most an empty bucket appears), so the invariant is kept.
   */
  lemma GetOrCreateEffect<D>(subs: Subscriptions<D>, e: string, c: string)
    ensures var r := GetOrCreate(subs, e, c);
      && (forall other, cl, k :: Bound(r, other, cl, k) <==> Bound(subs, other, cl, k))
      && (forall k :: RegisteredElsewhere(r, k, e) <==> RegisteredElsewhere(subs, k, e))
      && (Valid(subs) ==> Valid(r))
  {
    var cm := if e in subs then subs[e] else [];
    if !HasBucket(cm, c) {
      AppendEmptyBucket(cm, c);
      var r := GetOrCreate(subs, e, c);
      assert r == subs[e := cm + [Bucket(c, [])]];
      if Valid(subs) {
        assert forall k | BoundIn(cm + [Bucket(c, [])], k) :: e in subs && BoundIn(subs[e], k);
        ReplaceKeepsValid(subs, e, cm + [Bucket(c, [])]);
      }
    }
  }

  /** `clusterMap.set(h.id, h)` on the existing bucket `c` of event type `e`, for an id not yet in it. */
  function Insert<D>(subs: Subscriptions<D>, e: string, c: string, h: Handler<D>): Subscriptions<D>
    requires e in subs && HasBucket(subs[e], c)
  {
    var cm := subs[e];
    var j := BucketIndex(cm, c).value;
    subs[e := cm[j := Bucket(c, cm[j].handlers + [h])]]
  }

  /** Appending `h` to bucket `j` adds exactly the binding (cluster of `j`, `h.id`). */
  lemma AppendToBucket<D>(cm: ClusterMap<D>, j: nat, h: Handler<D>)
    requires j < |cm|
    ensures var cm' := cm[j := Bucket(cm[j].cluster, cm[j].handlers + [h])];
      && (forall cl, k :: BoundAt(cm', cl, k) <==> BoundAt(cm, cl, k) || (cl == cm[j].cluster && k == h.id))
      && (forall k :: BoundIn(cm', k) <==> BoundIn(cm, k) || k == h.id)
  {
    var b := Bucket(cm[j].cluster, cm[j].handlers + [h]);
    var cm' := cm[j := b];
    assert forall k :: HasKey(b.handlers, k) <==> HasKey(cm[j].handlers, k) || k == h.id by {
      forall k ensures HasKey(b.handlers, k) <==> HasKey(cm[j].handlers, k) || k == h.id {
        if HasKey(b.handlers, k) {
          var m :| 0 <= m < |b.handlers| && b.handlers[m].id == k;
          if m < |cm[j].handlers| { assert cm[j].handlers[m].id == k; }
        }
        if HasKey(cm[j].handlers, k) {
          var m :| 0 <= m < |cm[j].handlers| && cm[j].handlers[m].id == k;
          assert b.handlers[m].id == k;
        }
        assert b.handlers[|cm[j].handlers|].id == h.id;
      }
    }
    forall cl, k ensures BoundAt(cm', cl, k) <==> BoundAt(cm, cl, k) || (cl == cm[j].cluster && k == h.id) {
      if BoundAt(cm', cl, k) {
        var i :| 0 <= i < |cm'| && cm'[i].cluster == cl && HasKey(cm'[i].handlers, k);
      }
      if BoundAt(cm, cl, k) {
        var i :| 0 <= i < |cm| && cm[i].cluster == cl && HasKey(cm[i].handlers, k);
        assert cm'[i].cluster == cl && HasKey(cm'[i].handlers, k);
      }
      if cl == cm[j].cluster && k == h.id {
        assert cm'[j].cluster == cl && HasKey(cm'[j].handlers, k);
      }
    }
    forall k ensures BoundIn(cm', k) <==> BoundIn(cm, k) || k == h.id {
      if BoundIn(cm', k) {
        var i :| 0 <= i < |cm'| && HasKey(cm'[i].handlers, k);
      }
      if BoundIn(cm, k) {
        var i :| 0 <= i < |cm| && HasKey(cm[i].handlers, k);
        assert HasKey(cm'[i].handlers, k);
      }
      if k == h.id {
        assert HasKey(cm'[j].handlers, k);
      }
    }
  }

  /**
   * Inserting a new handler adds exactly the binding (e, c, h.id), appends `h`
   * at the end of its bucket, and keeps the invariant when the id is bound
   * under no other event type.
   */
  /** Appending a validated handler whose id is new to its bucket keeps the cluster map's shape. */
  lemma AppendKeepsWellFormed<D>(cm: ClusterMap<D>, j: nat, h: Handler<D>)
    requires WellFormed(cm) && j < |cm| && Registrable(h) && !HasKey(cm[j].handlers, h.id)
    ensures WellFormed(cm[j := Bucket(cm[j].cluster, cm[j].handlers + [h])])
  {
    var b := Bucket(cm[j].cluster, cm[j].handlers + [h]);
    var cm' := cm[j := b];
    assert DistinctIds(b.handlers) by {
      assert DistinctIds(cm[j].handlers);
      forall p, q | 0 <= p < q < |b.handlers| ensures b.handlers[p].id != b.handlers[q].id {
        if q == |cm[j].handlers| {
          assert b.handlers[p] == cm[j].handlers[p];
        }
      }
    }
    assert AllRegistrable(b.handlers) by {
      assert AllRegistrable(cm[j].handlers);
      forall m | 0 <= m < |b.handlers| ensures Registrable(b.handlers[m]) {
        if m < |cm[j].handlers| {
          assert b.handlers[m] == cm[j].handlers[m];
        }
      }
    }
    forall i | 0 <= i < |cm'| ensures DistinctIds(cm'[i].handlers) && AllRegistrable(cm'[i].handlers) {
      if i != j {
        assert cm'[i] == cm[i];
      }
    }
    assert DistinctClusters(cm') by {
      forall p, q | 0 <= p < q < |cm'| ensures cm'[p].cluster != cm'[q].cluster {
        assert cm'[p].cluster == cm[p].cluster && cm'[q].cluster == cm[q].cluster;
      }
    }
  }

  lemma InsertEffect<D>(subs: Subscriptions<D>, e: string, c: string, h: Handler<D>)
    requires Valid(subs) && e in subs && HasBucket(subs[e], c)
    requires Registrable(h) && !HasKey(BucketOf(subs[e], c), h.id)
    ensures var r := Insert(subs, e, c, h);
      && r.Keys == subs.Keys
      && (forall other | other in subs && other != e :: r[other] == subs[other])
      && BucketOf(r[e], c) == BucketOf(subs[e], c) + [h]
      && (forall other, cl, k :: Bound(r, other, cl, k) <==>
            (Bound(subs, other, cl, k) || (other == e && cl == c && k == h.id)))
      && (!RegisteredElsewhere(subs, h.id, e) ==> Valid(r))
  {
    var cm := subs[e];
    var j := BucketIndex(cm, c).value;
    var b := Bucket(c, cm[j].handlers + [h]);
    var cm' := cm[j := b];
    AppendToBucket(cm, j, h);
    assert forall i | 0 <= i < |cm'| :: cm'[i].cluster == cm[i].cluster;
    assert BucketIndex(cm', c) == Some(j) by {
      var k := BucketIndex(cm', c);
      assert k.Some? by { assert cm'[j].cluster == c; }
      assert k.value == j;
    }
    assert WellFormed(cm') by {
      assert BucketOf(cm, c) == cm[j].handlers;
      AppendKeepsWellFormed(cm, j, h);
    }
    if !RegisteredElsewhere(subs, h.id, e) {
      ReplaceKeepsValid(subs, e, cm');
    }
  }

  /** The buckets of `cm` after `handlersMap.delete(key)` on each of them. */
  function Deleted<D>(cm: ClusterMap<D>, key: Option<HandlerId>): ClusterMap<D> {
    seq(|cm|, i requires 0 <= i < |cm| => Bucket(cm[i].cluster, Without(cm[i].handlers, key)))
  }

  /** `cleanEmptyClusters` on one cluster map: the non-empty buckets, in order. */
  function CleanEmpty<D>(cm: ClusterMap<D>): ClusterMap<D> {
    if cm == [] then []
    else
      var init := cm[..|cm| - 1];
      var last := cm[|cm| - 1];
      CleanEmpty(init) + (if |last.handlers| == 0 then [] else [last])
  }

  /** Exactly the non-empty buckets are kept, and cluster names stay distinct. */
  lemma {:induction false} CleanEmptyKeeps<D>(cm: ClusterMap<D>)
    ensures forall b | b in CleanEmpty(cm) :: b in cm && |b.handlers| > 0
    ensures forall b | b in cm && |b.handlers| > 0 :: b in CleanEmpty(cm)
    ensures DistinctClusters(cm) ==> DistinctClusters(CleanEmpty(cm))
  {
    if cm != [] {
      var init := cm[..|cm| - 1];
      var last := cm[|cm| - 1];
      var rest := CleanEmpty(init);
      CleanEmptyKeeps(init);
      assert cm == init + [last];
      if |last.handlers| > 0 {
        assert CleanEmpty(cm) == rest + [last];
        assert DistinctClusters(cm) ==> DistinctClusters(rest + [last]) by {
          if DistinctClusters(cm) {
            assert DistinctClusters(init);
            forall i | 0 <= i < |rest| ensures rest[i].cluster != last.cluster {
              assert rest[i] in init;
              var m :| 0 <= m < |init| && init[m] == rest[i];
            }
          }
        }
      } else {
        assert CleanEmpty(cm) == rest;
      }
    }
  }

  /** `removeHandlerFromAllClusters` followed by `cleanEmptyClusters` on `subs`. */
  function Unsubscribed<D>(subs: Subscriptions<D>, e: string, key: Option<HandlerId>): Subscriptions<D> {
    if e !in subs then subs
    else
      var cm := CleanEmpty(Deleted(subs[e], key));
      if |cm| == 0 then subs - {e} else subs[e := cm]
  }

  /** Whether `removeHandlerFromAllClusters` found the id under `e`. */
  predicate Found<D>(subs: Subscriptions<D>, e: string, key: Option<HandlerId>) {
    e in subs && BoundIn(subs[e], key)
  }

  lemma DeletedBindings<D>(cm: ClusterMap<D>, key: Option<HandlerId>)
    ensures |Deleted(cm, key)| == |cm|
    ensures forall i | 0 <= i < |cm| :: Deleted(cm, key)[i].cluster == cm[i].cluster
    ensures forall cl, k :: BoundAt(Deleted(cm, key), cl, k) <==> BoundAt(cm, cl, k) && k != key
    ensures WellFormed(cm) ==> WellFormed(Deleted(cm, key))
  {
    DeletedBoundAt(cm, key);
    if WellFormed(cm) {
      DeletedWellFormed(cm, key);
    }
  }

  lemma DeletedBoundAt<D>(cm: ClusterMap<D>, key: Option<HandlerId>)
    ensures forall cl, k :: BoundAt(Deleted(cm, key), cl, k) <==> BoundAt(cm, cl, k) && k != key
  {
    var d := Deleted(cm, key);
    forall cl, k ensures BoundAt(d, cl, k) <==> BoundAt(cm, cl, k) && k != key {
      if BoundAt(d, cl, k) {
        var i :| 0 <= i < |d| && d[i].cluster == cl && HasKey(d[i].handlers, k);
        assert d[i].handlers == Without(cm[i].handlers, key);
        WithoutKeys(cm[i].handlers, key);
        assert cm[i].cluster == cl && HasKey(cm[i].handlers, k);
      }
      if BoundAt(cm, cl, k) && k != key {
        var i :| 0 <= i < |cm| && cm[i].cluster == cl && HasKey(cm[i].handlers, k);
        assert d[i] == Bucket(cl, Without(cm[i].handlers, key));
        WithoutKeys(cm[i].handlers, key);
        assert HasKey(d[i].handlers, k);
      }
    }
  }

  lemma DeletedWellFormed<D>(cm: ClusterMap<D>, key: Option<HandlerId>)
    requires WellFormed(cm)
    ensures WellFormed(Deleted(cm, key))
  {
    var d := Deleted(cm, key);
    forall i | 0 <= i < |d| ensures DistinctIds(d[i].handlers) && AllRegistrable(d[i].handlers) {
      WithoutSubset(cm[i].handlers, key);
      assert DistinctIds(cm[i].handlers) && AllRegistrable(cm[i].handlers);
      forall m | 0 <= m < |d[i].handlers| ensures Registrable(d[i].handlers[m]) {
        assert d[i].handlers[m] in cm[i].handlers;
      }
    }
  }

  lemma CleanEmptyBindings<D>(cm: ClusterMap<D>)
    ensures forall cl, k :: BoundAt(CleanEmpty(cm), cl, k) <==> BoundAt(cm, cl, k)
    ensures forall k :: BoundIn(CleanEmpty(cm), k) <==> BoundIn(cm, k)
    ensures WellFormed(cm) ==> WellFormed(CleanEmpty(cm))
  {
    var r := CleanEmpty(cm);
    CleanEmptyKeeps(cm);
    forall cl, k ensures BoundAt(r, cl, k) <==> BoundAt(cm, cl, k) {
      if BoundAt(r, cl, k) {
        var i :| 0 <= i < |r| && r[i].cluster == cl && HasKey(r[i].handlers, k);
        assert r[i] in cm;
      }
      if BoundAt(cm, cl, k) {
        var i :| 0 <= i < |cm| && cm[i].cluster == cl && HasKey(cm[i].handlers, k);
        assert cm[i] in r;
      }
    }
    forall k ensures BoundIn(r, k) <==> BoundIn(cm, k) {
      if BoundIn(r, k) {
        var i :| 0 <= i < |r| && HasKey(r[i].handlers, k);
        assert BoundAt(r, r[i].cluster, k);
      }
      if BoundIn(cm, k) {
        var i :| 0 <= i < |cm| && HasKey(cm[i].handlers, k);
        assert BoundAt(cm, cm[i].cluster, k);
      }
    }
    if WellFormed(cm) {
      forall i | 0 <= i < |r| ensures DistinctIds(r[i].handlers) && AllRegistrable(r[i].handlers) {
        assert r[i] in cm;
      }
    }
  }

  /**
   * `unsubscribe(e, key)` on the registry: `key` is no longer bound under `e`,
   * every other binding under `e` is kept, no empty bucket is left under `e`
   * (and no empty entry for `e`), other event types are untouched, and the
   * registry invariant is kept.
   */
  lemma UnsubscribeEffect<D>(subs: Subscriptions<D>, e: string, key: Option<HandlerId>)
    ensures var r := Unsubscribed(subs, e, key);
      && (forall cl :: !Bound(r, e, cl, key))
      && (forall cl, k | k != key :: Bound(r, e, cl, k) <==> Bound(subs, e, cl, k))
      && (e in r ==> |r[e]| > 0 && forall i | 0 <= i < |r[e]| :: |r[e][i].handlers| > 0)
      && (forall other | other != e :: (other in r <==> other in subs) && (other in r ==> r[other] == subs[other]))
      && (Valid(subs) ==> Valid(r))
  {
    if e in subs {
      UnsubscribedBucketMap(subs[e], key);
      var cm := CleanEmpty(Deleted(subs[e], key));
      var r := Unsubscribed(subs, e, key);
      if |cm| == 0 {
        assert e !in r;
        assert forall cl, k :: !BoundAt(cm, cl, k);
      } else {
        assert r[e] == cm;
        forall cl ensures !Bound(r, e, cl, key) {
          assert BoundAt(cm, cl, key) <==> BoundAt(subs[e], cl, key) && key != key;
          assert !BoundAt(cm, cl, key);
        }
        assert NoEmptyBucket(r[e]);
      }
      if Valid(subs) {
        UnsubscribeValid(subs, e, key);
      }
    }
  }

  predicate NoEmptyBucket<D>(cm: ClusterMap<D>) {
    forall i | 0 <= i < |cm| :: |cm[i].handlers| > 0
  }

  /** The cluster map of `e` after `removeHandlerFromAllClusters`. */
  lemma UnsubscribedBucketMap<D>(cm: ClusterMap<D>, key: Option<HandlerId>)
    ensures var r := CleanEmpty(Deleted(cm, key));
      && (forall cl, k :: BoundAt(r, cl, k) <==> BoundAt(cm, cl, k) && k != key)
      && (forall k :: BoundIn(r, k) ==> BoundIn(cm, k))
      && NoEmptyBucket(r)
      && (WellFormed(cm) ==> WellFormed(r))
  {
    var d := Deleted(cm, key);
    var r := CleanEmpty(d);
    DeletedBindings(cm, key);
    CleanEmptyBindings(d);
    CleanEmptyKeeps(d);
    forall i | 0 <= i < |r| ensures |r[i].handlers| > 0 {
      assert r[i] in r;
    }
    forall k | BoundIn(r, k) ensures BoundIn(cm, k) {
      var i :| 0 <= i < |r| && HasKey(r[i].handlers, k);
      assert BoundAt(r, r[i].cluster, k);
      var j :| 0 <= j < |cm| && cm[j].cluster == r[i].cluster && HasKey(cm[j].handlers, k);
    }
  }

  lemma UnsubscribeValid<D>(subs: Subscriptions<D>, e: string, key: Option<HandlerId>)
    requires Valid(subs) && e in subs
    ensures Valid(Unsubscribed(subs, e, key))
  {
    var r := Unsubscribed(subs, e, key);
    UnsubscribedBucketMap(subs[e], key);
    var cm := CleanEmpty(Deleted(subs[e], key));
    forall other | other in r ensures WellFormed(r[other]) {
      if other == e {
        assert r[other] == cm;
      }
    }
    forall e1, e2, k | e1 in r && e2 in r && BoundIn(r[e1], k) && BoundIn(r[e2], k)
      ensures e1 == e2
    {
      assert BoundIn(subs[e1], k) && BoundIn(subs[e2], k);
    }
  }

  /** One more bucket seen by `cleanEmptyClusters`: kept exactly when it is not empty. */
  lemma CleanEmptySnoc<D>(cm: ClusterMap<D>, b: Bucket<D>)
    ensures CleanEmpty(cm + [b]) == CleanEmpty(cm) + (if |b.handlers| > 0 then [b] else [])
  {
    assert (cm + [b])[..|cm|] == cm;
  }

  /**
   * One more bucket visited by the loop of `cleanEmptyClusters`, which walks the
   * cluster map with `cm[..i]` the buckets kept so far and `cm[i..]` the ones
   * not yet visited: the bucket at `i` is the next one of the original map.
   */
  lemma CleanEmptyVisit<D>(cm: ClusterMap<D>, i: nat, original: ClusterMap<D>, seen: nat)
    requires i < |cm| && seen <= |original|
    requires cm[..i] == CleanEmpty(original[..seen]) && cm[i..] == original[seen..]
    ensures seen < |original| && cm[i] == original[seen]
    ensures cm[i + 1..] == original[seen + 1..]
    ensures CleanEmpty(original[..seen + 1]) == cm[..i] + (if |cm[i].handlers| > 0 then [cm[i]] else [])
  {
    var b := cm[i];
    assert b == original[seen] && seen < |original| by {
      assert cm[i..][0] == original[seen..][0];
    }
    assert cm[i + 1..] == original[seen + 1..] by {
      assert cm[i + 1..] == cm[i..][1..];
      assert original[seen + 1..] == original[seen..][1..];
    }
    assert original[..seen + 1] == original[..seen] + [b];
    CleanEmptySnoc(original[..seen], b);
  }

  /** `removeHandlerFromAllClusters` in its two steps: delete in every bucket, then `cleanEmptyClusters`. */
  lemma UnsubscribedSteps<D>(subs: Subscriptions<D>, e: string, key: Option<HandlerId>)
    requires e in subs
    ensures var s1 := subs[e := Deleted(subs[e], key)];
      var cm := CleanEmpty(s1[e]);
      Unsubscribed(subs, e, key) == if |cm| == 0 then s1 - {e} else s1[e := cm]
  {
    var s1 := subs[e := Deleted(subs[e], key)];
    var cm := CleanEmpty(s1[e]);
    assert s1 - {e} == subs - {e};
    assert s1[e := cm] == subs[e := cm];
  }
}
