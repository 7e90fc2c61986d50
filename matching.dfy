/**
 * Match resolution (`getMatchingHandlers`): which handlers one queue item
 * reaches, in which order, and through which cluster tag.
 */
module Matcher {
  import opened Wrappers
  import opened Events
  import opened Registry

  /** A matched handler with the cluster tag it was matched through. */
  datatype Match<D> = Match(handler: Handler<D>, cluster: string)

  /** `addHandlers(map, tag)`: the bucket's handlers, in order, each labelled `tag`. */
  function Labelled<D>(hs: seq<Handler<D>>, tag: string): seq<Match<D>> {
    seq(|hs|, i requires 0 <= i < |hs| => Match(hs[i], tag))
  }

  /** What one target cluster `c` contributes: bucket `c`, then the wildcard bucket. */
  function ClusterBlock<D>(cm: ClusterMap<D>, c: string): seq<Match<D>> {
    Labelled(BucketOf(cm, c), c) + Labelled(BucketOf(cm, Wildcard), Wildcard)
  }

  /** The first loop of `getMatchingHandlers`, over the target clusters in set order. */
  function PerCluster<D>(cm: ClusterMap<D>, cs: seq<string>): seq<Match<D>> {
    if cs == [] then [] else PerCluster(cm, cs[..|cs| - 1]) + ClusterBlock(cm, cs[|cs| - 1])
  }

  /** The second loop: every bucket, in creation order, labelled with its own cluster. */
  function AllBuckets<D>(cm: ClusterMap<D>): seq<Match<D>> {
    if cm == [] then [] else AllBuckets(cm[..|cm| - 1]) + Labelled(cm[|cm| - 1].handlers, cm[|cm| - 1].cluster)
  }

  /** `getMatchingHandlers(e, cs)`. */
  function Matching<D>(subs: Subscriptions<D>, e: string, cs: seq<string>): seq<Match<D>> {
    if e !in subs then []
    else PerCluster(subs[e], cs) + (if Wildcard in cs then AllBuckets(subs[e]) else [])
  }

  /** One more target cluster visited by the first loop. */
  lemma PerClusterSnoc<D>(cm: ClusterMap<D>, cs: seq<string>, i: nat)
    requires i < |cs|
    ensures PerCluster(cm, cs[..i + 1]) == PerCluster(cm, cs[..i]) + ClusterBlock(cm, cs[i])
  {
    assert cs[..i + 1][..i] == cs[..i];
  }

  /** `h` is an entry of a bucket of cluster `c`. */
  predicate InBucket<D>(cm: ClusterMap<D>, c: string, h: Handler<D>) {
    exists j | 0 <= j < |cm| :: cm[j].cluster == c && h in cm[j].handlers
  }

  lemma InBucketOf<D>(cm: ClusterMap<D>, c: string, h: Handler<D>)
    requires h in BucketOf(cm, c)
    ensures InBucket(cm, c, h)
  {
    var j := BucketIndex(cm, c).value;
    assert cm[j].cluster == c && h in cm[j].handlers;
  }

  lemma PerClusterOrigin<D>(cm: ClusterMap<D>, cs: seq<string>)
    ensures forall m | m in PerCluster(cm, cs) :: InBucket(cm, m.cluster, m.handler) && (m.cluster in cs || m.cluster == Wildcard)
  {
    if cs != [] {
      var c := cs[|cs| - 1];
      PerClusterOrigin(cm, cs[..|cs| - 1]);
      forall m | m in ClusterBlock(cm, c) ensures InBucket(cm, m.cluster, m.handler) && (m.cluster in cs || m.cluster == Wildcard) {
        if m in Labelled(BucketOf(cm, c), c) {
          var i :| 0 <= i < |BucketOf(cm, c)| && Labelled(BucketOf(cm, c), c)[i] == m;
          InBucketOf(cm, c, m.handler);
        } else {
          var i :| 0 <= i < |BucketOf(cm, Wildcard)| && Labelled(BucketOf(cm, Wildcard), Wildcard)[i] == m;
          InBucketOf(cm, Wildcard, m.handler);
        }
      }
    }
  }

  lemma AllBucketsOrigin<D>(cm: ClusterMap<D>)
    ensures forall m | m in AllBuckets(cm) :: InBucket(cm, m.cluster, m.handler)
  {
    if cm != [] {
      var init := cm[..|cm| - 1];
      var last := cm[|cm| - 1];
      AllBucketsOrigin(init);
      forall m | m in AllBuckets(cm) ensures InBucket(cm, m.cluster, m.handler) {
        if m in AllBuckets(init) {
          var j :| 0 <= j < |init| && init[j].cluster == m.cluster && m.handler in init[j].handlers;
          assert cm[j] == init[j];
        } else {
          var i :| 0 <= i < |last.handlers| && Labelled(last.handlers, last.cluster)[i] == m;
          assert cm[|cm| - 1].cluster == m.cluster && m.handler in cm[|cm| - 1].handlers;
        }
      }
    }
  }

  /**
   * Every match comes from a bucket of the published event type, and is
   * labelled with that bucket's cluster, which is a target cluster, the
   * wildcard, or any cluster when the wildcard is a target. So a handler
   * registered only under another event type is never matched.
   */
  lemma MatchOrigin<D>(subs: Subscriptions<D>, e: string, cs: seq<string>)
    ensures forall m | m in Matching(subs, e, cs) ::
      && e in subs
      && InBucket(subs[e], m.cluster, m.handler)
      && (m.cluster in cs || m.cluster == Wildcard || Wildcard in cs)
  {
    if e in subs {
      PerClusterOrigin(subs[e], cs);
      AllBucketsOrigin(subs[e]);
    }
  }

  lemma {:induction false} PerClusterCovers<D>(cm: ClusterMap<D>, cs: seq<string>, i: nat)
    requires i < |cs|
    ensures forall m | m in ClusterBlock(cm, cs[i]) :: m in PerCluster(cm, cs)
  {
    if i < |cs| - 1 {
      PerClusterCovers(cm, cs[..|cs| - 1], i);
    }
  }

  lemma {:induction false} AllBucketsCovers<D>(cm: ClusterMap<D>, j: nat)
    requires j < |cm|
    ensures forall m | m in Labelled(cm[j].handlers, cm[j].cluster) :: m in AllBuckets(cm)
  {
    if j < |cm| - 1 {
      AllBucketsCovers(cm[..|cm| - 1], j);
    }
  }

  /** A bucket holding `key` contributes a match carrying `key`. */
  lemma LabelledHasKey<D>(hs: seq<Handler<D>>, tag: string, key: Option<HandlerId>)
    requires HasKey(hs, key)
    ensures exists m | m in Labelled(hs, tag) :: m.handler.id == key
  {
    var i :| 0 <= i < |hs| && hs[i].id == key;
    assert Labelled(hs, tag)[i].handler.id == key;
  }

  /** A bound handler is matched when its cluster is targeted, directly or through the wildcard. */
  lemma MatchedIfBound<D>(subs: Subscriptions<D>, e: string, cs: seq<string>, c: string, key: Option<HandlerId>)
    requires e in subs ==> WellFormed(subs[e])
    requires Bound(subs, e, c, key) && (c in cs || (c == Wildcard && cs != []) || Wildcard in cs)
    ensures exists m | m in Matching(subs, e, cs) :: m.handler.id == key
  {
    var cm := subs[e];
    var tail := if Wildcard in cs then AllBuckets(cm) else [];
    assert Matching(subs, e, cs) == PerCluster(cm, cs) + tail;
    if c in cs {
      var i :| 0 <= i < |cs| && cs[i] == c;
      PerClusterCovers(cm, cs, i);
      BoundAtBucketOf(cm, c, key);
      LabelledHasKey(BucketOf(cm, c), c, key);
      var m :| m in Labelled(BucketOf(cm, c), c) && m.handler.id == key;
      assert m in PerCluster(cm, cs);
    } else if c == Wildcard && cs != [] {
      PerClusterCovers(cm, cs, 0);
      BoundAtBucketOf(cm, c, key);
      LabelledHasKey(BucketOf(cm, Wildcard), Wildcard, key);
      var m :| m in Labelled(BucketOf(cm, Wildcard), Wildcard) && m.handler.id == key;
      assert m in PerCluster(cm, cs);
    } else {
      var j :| 0 <= j < |cm| && cm[j].cluster == c && HasKey(cm[j].handlers, key);
      AllBucketsCovers(cm, j);
      LabelledHasKey(cm[j].handlers, cm[j].cluster, key);
      var m :| m in Labelled(cm[j].handlers, cm[j].cluster) && m.handler.id == key;
      assert m in tail;
    }
  }

  /** A matched handler is bound under `e` in a cluster the publish targets. */
  lemma BoundIfMatched<D>(subs: Subscriptions<D>, e: string, cs: seq<string>, m: Match<D>)
    requires m in Matching(subs, e, cs)
    ensures Bound(subs, e, m.cluster, m.handler.id)
    ensures m.cluster in cs || (m.cluster == Wildcard && cs != []) || Wildcard in cs
  {
    MatchOrigin(subs, e, cs);
    var j :| 0 <= j < |subs[e]| && subs[e][j].cluster == m.cluster && m.handler in subs[e][j].handlers;
    var p :| 0 <= p < |subs[e][j].handlers| && subs[e][j].handlers[p] == m.handler;
    assert HasKey(subs[e][j].handlers, m.handler.id);
    if e in subs && m.cluster == Wildcard && m.cluster !in cs && Wildcard !in cs {
      assert m in PerCluster(subs[e], cs);
    }
  }

  /**
   * A handler id is matched by a publish of `e` to `cs` exactly when it is
   * bound under `e` in a target cluster, or in the wildcard cluster (for a
   * non-empty target set), or in any cluster when the wildcard is a target.
   */
  lemma MatchedIff<D>(subs: Subscriptions<D>, e: string, cs: seq<string>, key: Option<HandlerId>)
    requires e in subs ==> WellFormed(subs[e])
    ensures (exists m | m in Matching(subs, e, cs) :: m.handler.id == key) <==>
      (exists c :: Bound(subs, e, c, key) && (c in cs || (c == Wildcard && cs != []) || Wildcard in cs))
  {
    if m :| m in Matching(subs, e, cs) && m.handler.id == key {
      BoundIfMatched(subs, e, cs, m);
    }
    if c :| Bound(subs, e, c, key) && (c in cs || (c == Wildcard && cs != []) || Wildcard in cs) {
      MatchedIfBound(subs, e, cs, c, key);
    }
  }

  /** Under the registry invariant a handler id bound under `f` is never matched by a publish of `e != f`. */
  lemma OtherEventNeverMatched<D>(subs: Subscriptions<D>, e: string, f: string, cs: seq<string>, key: Option<HandlerId>)
    requires Valid(subs) && f in subs && f != e && BoundIn(subs[f], key)
    ensures forall m | m in Matching(subs, e, cs) :: m.handler.id != key
  {
    MatchOrigin(subs, e, cs);
    forall m | m in Matching(subs, e, cs) ensures m.handler.id != key {
      var j :| 0 <= j < |subs[e]| && subs[e][j].cluster == m.cluster && m.handler in subs[e][j].handlers;
      var p :| 0 <= p < |subs[e][j].handlers| && subs[e][j].handlers[p] == m.handler;
      assert HasKey(subs[e][j].handlers, m.handler.id);
      assert BoundIn(subs[e], m.handler.id);
    }
  }

  /** Number of matches carrying handler id `key`. */
  function CountId<D>(ms: seq<Match<D>>, key: Option<HandlerId>): nat {
    if ms == [] then 0 else CountId(ms[..|ms| - 1], key) + (if ms[|ms| - 1].handler.id == key then 1 else 0)
  }

  /** Number of handlers carrying id `key`. */
  function CountIds<D>(hs: seq<Handler<D>>, key: Option<HandlerId>): nat {
    if hs == [] then 0 else CountIds(hs[..|hs| - 1], key) + (if hs[|hs| - 1].id == key then 1 else 0)
  }

  /** Number of times `c` occurs in `cs`. */
  function Occurrences(cs: seq<string>, c: string): nat {
    if cs == [] then 0 else Occurrences(cs[..|cs| - 1], c) + (if cs[|cs| - 1] == c then 1 else 0)
  }

  lemma {:induction false} CountIdAppend<D>(a: seq<Match<D>>, b: seq<Match<D>>, key: Option<HandlerId>)
    ensures CountId(a + b, key) == CountId(a, key) + CountId(b, key)
  {
    if b != [] {
      assert (a + b)[..|a + b| - 1] == a + b[..|b| - 1];
      CountIdAppend(a, b[..|b| - 1], key);
    } else {
      assert a + b == a;
    }
  }

  lemma {:induction false} CountLabelled<D>(hs: seq<Handler<D>>, tag: string, key: Option<HandlerId>)
    ensures CountId(Labelled(hs, tag), key) == CountIds(hs, key)
  {
    if hs != [] {
      var init := hs[..|hs| - 1];
      assert Labelled(hs, tag)[..|hs| - 1] == Labelled(init, tag);
      CountLabelled(init, tag, key);
    }
  }

  /** With distinct ids, a key occurs once in a bucket holding it and never otherwise. */
  lemma {:induction false} CountIdsDistinct<D>(hs: seq<Handler<D>>, key: Option<HandlerId>)
    requires DistinctIds(hs)
    ensures CountIds(hs, key) == if HasKey(hs, key) then 1 else 0
  {
    if hs != [] {
      var init := hs[..|hs| - 1];
      assert DistinctIds(init);
      CountIdsDistinct(init, key);
      if HasKey(init, key) {
        var i :| 0 <= i < |init| && init[i].id == key;
        assert hs[i].id == key;
        assert HasKey(hs, key);
      }
      if HasKey(hs, key) {
        var i :| 0 <= i < |hs| && hs[i].id == key;
        if i < |init| { assert init[i].id == key; }
      }
    }
  }

  /** `key` is bound under exactly one cluster of `cm`, namely `c0`. */
  ghost predicate SoleCluster<D>(cm: ClusterMap<D>, c0: string, key: Option<HandlerId>) {
    forall c :: BoundAt(cm, c, key) <==> c == c0
  }

  lemma CountBucketOf<D>(cm: ClusterMap<D>, c0: string, key: Option<HandlerId>, c: string)
    requires WellFormed(cm) && SoleCluster(cm, c0, key)
    ensures CountIds(BucketOf(cm, c), key) == if c == c0 then 1 else 0
  {
    BoundAtBucketOf(cm, c, key);
    match BucketIndex(cm, c)
    case None =>
    case Some(j) => CountIdsDistinct(cm[j].handlers, key);
  }

  lemma {:induction false} PerClusterCount<D>(cm: ClusterMap<D>, cs: seq<string>, c0: string, key: Option<HandlerId>)
    requires WellFormed(cm) && SoleCluster(cm, c0, key)
    ensures CountId(PerCluster(cm, cs), key) == Occurrences(cs, c0) + (if c0 == Wildcard then |cs| else 0)
  {
    if cs != [] {
      var c := cs[|cs| - 1];
      PerClusterCount(cm, cs[..|cs| - 1], c0, key);
      CountIdAppend(PerCluster(cm, cs[..|cs| - 1]), ClusterBlock(cm, c), key);
      CountIdAppend(Labelled(BucketOf(cm, c), c), Labelled(BucketOf(cm, Wildcard), Wildcard), key);
      CountLabelled(BucketOf(cm, c), c, key);
      CountLabelled(BucketOf(cm, Wildcard), Wildcard, key);
      CountBucketOf(cm, c0, key, c);
      CountBucketOf(cm, c0, key, Wildcard);
    }
  }

  lemma {:induction false} AllBucketsCountNone<D>(cm: ClusterMap<D>, key: Option<HandlerId>)
    requires !BoundIn(cm, key)
    ensures CountId(AllBuckets(cm), key) == 0
  {
    if cm != [] {
      var init := cm[..|cm| - 1];
      var last := cm[|cm| - 1];
      forall i | 0 <= i < |init| ensures !HasKey(init[i].handlers, key) {
        assert init[i] == cm[i];
      }
      AllBucketsCountNone(init, key);
      CountIdAppend(AllBuckets(init), Labelled(last.handlers, last.cluster), key);
      CountLabelled(last.handlers, last.cluster, key);
      CountIdsNone(last.handlers, key);
    }
  }

  lemma {:induction false} CountIdsNone<D>(hs: seq<Handler<D>>, key: Option<HandlerId>)
    requires !HasKey(hs, key)
    ensures CountIds(hs, key) == 0
  {
    if hs != [] {
      var init := hs[..|hs| - 1];
      forall i | 0 <= i < |init| ensures init[i].id != key {
        assert init[i] == hs[i];
      }
      CountIdsNone(init, key);
      assert hs[|hs| - 1].id != key;
    }
  }

  lemma {:induction false} AllBucketsCount<D>(cm: ClusterMap<D>, c0: string, key: Option<HandlerId>)
    requires WellFormed(cm) && SoleCluster(cm, c0, key)
    ensures CountId(AllBuckets(cm), key) == 1
  {
    assert BoundAt(cm, c0, key);
    var init := cm[..|cm| - 1];
    var last := cm[|cm| - 1];
    assert WellFormed(init);
    CountIdAppend(AllBuckets(init), Labelled(last.handlers, last.cluster), key);
    CountLabelled(last.handlers, last.cluster, key);
    CountIdsDistinct(last.handlers, key);
    if HasKey(last.handlers, key) {
      assert BoundAt(cm, last.cluster, key);
      forall i | 0 <= i < |init| ensures !HasKey(init[i].handlers, key) {
        assert init[i] == cm[i];
        assert init[i].cluster != c0;
        assert !BoundAt(cm, init[i].cluster, key);
      }
      AllBucketsCountNone(init, key);
    } else {
      assert SoleCluster(init, c0, key) by {
        forall c ensures BoundAt(init, c, key) <==> c == c0 {
          if BoundAt(init, c, key) {
            var i :| 0 <= i < |init| && init[i].cluster == c && HasKey(init[i].handlers, key);
            assert cm[i] == init[i];
            assert BoundAt(cm, c, key);
          }
          if c == c0 {
            var i :| 0 <= i < |cm| && cm[i].cluster == c && HasKey(cm[i].handlers, key);
            assert i < |init|;
            assert init[i] == cm[i];
          }
        }
      }
      AllBucketsCount(init, c0, key);
    }
  }

  /**
   * How often a handler bound in exactly one cluster `c0` of event type `e` is
   * matched by a publish of `e` to `cs`: once per occurrence of `c0` in `cs`,
   * plus once per target cluster when `c0` is the wildcard, plus once more when
   * the wildcard is itself a target. No deduplication happens.
   */
  lemma SoleSubscriptionCount<D>(subs: Subscriptions<D>, e: string, cs: seq<string>, c0: string, key: Option<HandlerId>)
    requires e in subs && WellFormed(subs[e]) && SoleCluster(subs[e], c0, key)
    ensures CountId(Matching(subs, e, cs), key) ==
      Occurrences(cs, c0) + (if c0 == Wildcard then |cs| else 0) + (if Wildcard in cs then 1 else 0)
  {
    PerClusterCount(subs[e], cs, c0, key);
    CountIdAppend(PerCluster(subs[e], cs), if Wildcard in cs then AllBuckets(subs[e]) else [], key);
    if Wildcard in cs { AllBucketsCount(subs[e], c0, key); }
  }

  /** A wildcard subscriber reached by a default publish (target set {"*"}) is invoked three times. */
  lemma DefaultPublishReachesWildcardThrice<D>(subs: Subscriptions<D>, e: string, key: Option<HandlerId>)
    requires e in subs && WellFormed(subs[e]) && SoleCluster(subs[e], Wildcard, key)
    ensures CountId(Matching(subs, e, [Wildcard]), key) == 3
  {
    SoleSubscriptionCount(subs, e, [Wildcard], Wildcard, key);
    assert [Wildcard][..0] == [];
  }

  /** A subscriber of a literal cluster `a` is not reached by a publish to other literal clusters. */
  lemma LiteralSubscriberMissedElsewhere<D>(subs: Subscriptions<D>, e: string, cs: seq<string>, a: string, key: Option<HandlerId>)
    requires e in subs && WellFormed(subs[e]) && SoleCluster(subs[e], a, key)
    requires a != Wildcard && a !in cs && Wildcard !in cs
    ensures CountId(Matching(subs, e, cs), key) == 0
  {
    SoleSubscriptionCount(subs, e, cs, a, key);
    OccurrencesAbsent(cs, a);
  }

  lemma {:induction false} OccurrencesAbsent(cs: seq<string>, c: string)
    requires c !in cs
    ensures Occurrences(cs, c) == 0
  {
    if cs != [] {
      assert c !in cs[..|cs| - 1];
      OccurrencesAbsent(cs[..|cs| - 1], c);
    }
  }
}
