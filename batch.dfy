/**
 * Batch delivery (`executeHandlersBatch`): matched handlers grouped by the
 * cluster label they were matched through, the groups visited in the order a
 * `for...in` loop visits the keys of a plain object.
 */
module Batch {
  import opened Wrappers
  import opened Events
  import opened Matcher

  /** `grouped[tag]`: the handlers matched through cluster label `tag`, in list order. */
  datatype Group<D> = Group(tag: string, handlers: seq<Handler<D>>)

  /** The handlers of a match list, in order. */
  function HandlersOf<D>(ms: seq<Match<D>>): seq<Handler<D>> {
    seq(|ms|, i requires 0 <= i < |ms| => ms[i].handler)
  }

  /** The position of the group for `tag`, if it exists. */
  function GroupIndex<D>(gs: seq<Group<D>>, tag: string): (r: Option<nat>)
    ensures r.Some? ==> r.value < |gs| && gs[r.value].tag == tag
    ensures r.None? <==> forall j | 0 <= j < |gs| :: gs[j].tag != tag
  {
    if gs == [] then None
    else if gs[0].tag == tag then Some(0)
    else
      match GroupIndex(gs[1..], tag)
      case None => None
      case Some(j) => Some(j + 1)
  }

  /** One step of the grouping loop: create the group when missing, then push. */
  function AddTo<D>(gs: seq<Group<D>>, m: Match<D>): seq<Group<D>> {
    match GroupIndex(gs, m.cluster)
    case None => gs + [Group(m.cluster, [m.handler])]
    case Some(j) => gs[j := Group(gs[j].tag, gs[j].handlers + [m.handler])]
  }

  /** The grouping loop over the whole match list, groups in creation order. */
  function Groups<D>(ms: seq<Match<D>>): seq<Group<D>> {
    if ms == [] then [] else AddTo(Groups(ms[..|ms| - 1]), ms[|ms| - 1])
  }

  /** The handlers of the groups, group after group. */
  function Flatten<D>(gs: seq<Group<D>>): seq<Handler<D>> {
    if gs == [] then [] else Flatten(gs[..|gs| - 1]) + gs[|gs| - 1].handlers
  }

  function TagsOf<D>(ms: seq<Match<D>>): seq<string> {
    seq(|ms|, i requires 0 <= i < |ms| => ms[i].cluster)
  }

  function Tags<D>(gs: seq<Group<D>>): seq<string> {
    seq(|gs|, i requires 0 <= i < |gs| => gs[i].tag)
  }

  /** The handlers of the matches labelled `tag`, in list order. */
  function Tagged<D>(ms: seq<Match<D>>, tag: string): seq<Handler<D>> {
    if ms == [] then []
    else Tagged(ms[..|ms| - 1], tag) + (if ms[|ms| - 1].cluster == tag then [ms[|ms| - 1].handler] else [])
  }

  lemma {:induction false} TaggedAbsent<D>(ms: seq<Match<D>>, tag: string)
    requires tag !in TagsOf(ms)
    ensures Tagged(ms, tag) == []
  {
    if ms != [] {
      var init := ms[..|ms| - 1];
      assert TagsOf(init) == TagsOf(ms)[..|ms| - 1];
      assert ms[|ms| - 1].cluster == TagsOf(ms)[|ms| - 1];
      TaggedAbsent(init, tag);
    }
  }

  /**
   * The grouping loop creates one group per distinct label, in order of the
   * label's first appearance in the match list, and each group holds exactly
   * the handlers matched through its label, in list order.
   */
  lemma GroupsShape<D>(ms: seq<Match<D>>)
    ensures Tags(Groups(ms)) == Dedup(TagsOf(ms))
    ensures forall i | 0 <= i < |Groups(ms)| :: Groups(ms)[i].handlers == Tagged(ms, Groups(ms)[i].tag)
  {
    GroupsTags(ms);
    GroupsHandlers(ms);
  }

  lemma TagsSnoc<D>(gs: seq<Group<D>>, g: Group<D>)
    ensures Tags(gs + [g]) == Tags(gs) + [g.tag]
  {
  }

  lemma TagsUpdate<D>(gs: seq<Group<D>>, j: nat, g: Group<D>)
    requires j < |gs| && g.tag == gs[j].tag
    ensures Tags(gs[j := g]) == Tags(gs)
  {
  }

  lemma {:induction false} GroupsTags<D>(ms: seq<Match<D>>)
    ensures Tags(Groups(ms)) == Dedup(TagsOf(ms))
  {
    if ms != [] {
      var init := ms[..|ms| - 1];
      var m := ms[|ms| - 1];
      var gs := Groups(init);
      var t := TagsOf(ms);
      var d := Dedup(TagsOf(init));
      GroupsTags(init);
      assert t[..|t| - 1] == TagsOf(init) && t[|t| - 1] == m.cluster;
      assert Dedup(t) == if m.cluster in d then d else d + [m.cluster];
      match GroupIndex(gs, m.cluster)
      case None =>
        assert m.cluster !in Tags(gs) by {
          forall i | 0 <= i < |gs| ensures Tags(gs)[i] != m.cluster { }
        }
        TagsSnoc(gs, Group(m.cluster, [m.handler]));
      case Some(j) =>
        assert Tags(gs)[j] == m.cluster;
        TagsUpdate(gs, j, Group(gs[j].tag, gs[j].handlers + [m.handler]));
    }
  }

  lemma {:induction false} GroupsHandlers<D>(ms: seq<Match<D>>)
    ensures forall i | 0 <= i < |Groups(ms)| :: Groups(ms)[i].handlers == Tagged(ms, Groups(ms)[i].tag)
  {
    if ms != [] {
      var init := ms[..|ms| - 1];
      var m := ms[|ms| - 1];
      var gs := Groups(init);
      GroupsHandlers(init);
      GroupsTags(init);
      var r := Groups(ms);
      assert r == AddTo(gs, m);
      match GroupIndex(gs, m.cluster)
      case None =>
        assert m.cluster !in TagsOf(init) by {
          assert m.cluster !in Tags(gs) by {
            forall i | 0 <= i < |gs| ensures Tags(gs)[i] != m.cluster { }
          }
        }
        TaggedAbsent(init, m.cluster);
        assert r == gs + [Group(m.cluster, [m.handler])];
        forall i | 0 <= i < |r| ensures r[i].handlers == Tagged(ms, r[i].tag) {
          if i < |gs| {
            assert r[i] == gs[i];
            assert gs[i].tag == Tags(gs)[i];
          }
        }
      case Some(j) =>
        forall i | 0 <= i < |r| ensures r[i].handlers == Tagged(ms, r[i].tag) {
          if i != j {
            assert r[i] == gs[i];
            assert Tags(gs)[i] != Tags(gs)[j];
          }
        }
    }
  }

  lemma {:induction false} FlattenAppend<D>(a: seq<Group<D>>, b: seq<Group<D>>)
    ensures Flatten(a + b) == Flatten(a) + Flatten(b)
  {
    if b == [] {
      assert a + b == a;
    } else {
      assert (a + b)[..|a + b| - 1] == a + b[..|b| - 1];
      FlattenAppend(a, b[..|b| - 1]);
    }
  }

  /** One more group visited by the delivery loop of `executeHandlersBatch`. */
  lemma FlattenSnoc<D>(gs: seq<Group<D>>, k: nat)
    requires k < |gs|
    ensures Flatten(gs[..k + 1]) == Flatten(gs[..k]) + gs[k].handlers
  {
    assert gs[..k + 1][..k] == gs[..k];
  }

  lemma FlattenCons<D>(g: Group<D>, gs: seq<Group<D>>)
    ensures Flatten([g] + gs) == g.handlers + Flatten(gs)
  {
    FlattenAppend([g], gs);
    assert [g][..0] == [];
  }

  /** Pushing `h` onto group `j` adds `h` to the flattened contents and nothing else. */
  lemma {:induction false} FlattenPush<D>(gs: seq<Group<D>>, j: nat, h: Handler<D>)
    requires j < |gs|
    ensures multiset(Flatten(gs[j := Group(gs[j].tag, gs[j].handlers + [h])])) == multiset(Flatten(gs)) + multiset{h}
  {
    var gs' := gs[j := Group(gs[j].tag, gs[j].handlers + [h])];
    var n := |gs| - 1;
    if j == n {
      assert gs'[..n] == gs[..n];
    } else {
      assert gs'[..n] == gs[..n][j := Group(gs[j].tag, gs[j].handlers + [h])];
      FlattenPush(gs[..n], j, h);
    }
  }

  lemma {:induction false} GroupsPermutation<D>(ms: seq<Match<D>>)
    ensures multiset(Flatten(Groups(ms))) == multiset(HandlersOf(ms))
  {
    if ms != [] {
      var init := ms[..|ms| - 1];
      var m := ms[|ms| - 1];
      var gs := Groups(init);
      assert multiset(HandlersOf(ms)) == multiset(HandlersOf(init)) + multiset{m.handler} by {
        assert HandlersOf(ms) == HandlersOf(init) + [m.handler];
      }
      assert multiset(Flatten(Groups(ms))) == multiset(Flatten(gs)) + multiset{m.handler} by {
        match GroupIndex(gs, m.cluster)
        case None =>
          var g := Group(m.cluster, [m.handler]);
          assert Groups(ms) == gs + [g];
          assert (gs + [g])[..|gs|] == gs;
          assert Flatten(gs + [g]) == Flatten(gs) + [m.handler];
        case Some(j) =>
          FlattenPush(gs, j, m.handler);
      }
      GroupsPermutation(init);
    }
  }

  /** A canonical array index in JavaScript: the decimal form of an integer below 2^32 - 1. */
  predicate IsDigit(ch: char) {
    '0' <= ch <= '9'
  }

  function DecimalValue(s: string): nat
    requires forall i | 0 <= i < |s| :: IsDigit(s[i])
  {
    if s == [] then 0
    else
      assert IsDigit(s[|s| - 1]);
      DecimalValue(s[..|s| - 1]) * 10 + ((s[|s| - 1] as int) - ('0' as int))
  }

  predicate IsArrayIndex(s: string) {
    && |s| > 0
    && (forall i | 0 <= i < |s| :: IsDigit(s[i]))
    && (s[0] != '0' || |s| == 1)
    && DecimalValue(s) < 0xFFFF_FFFF
  }

  function IndexGroups<D>(gs: seq<Group<D>>): seq<Group<D>> {
    if gs == [] then []
    else IndexGroups(gs[..|gs| - 1]) + (if IsArrayIndex(gs[|gs| - 1].tag) then [gs[|gs| - 1]] else [])
  }

  function NamedGroups<D>(gs: seq<Group<D>>): seq<Group<D>> {
    if gs == [] then []
    else NamedGroups(gs[..|gs| - 1]) + (if IsArrayIndex(gs[|gs| - 1].tag) then [] else [gs[|gs| - 1]])
  }

  function IndexOf<D>(g: Group<D>): nat {
    if IsArrayIndex(g.tag) then DecimalValue(g.tag) else 0
  }

  function InsertByIndex<D>(g: Group<D>, sorted: seq<Group<D>>): seq<Group<D>> {
    if sorted == [] then [g]
    else if IndexOf(g) <= IndexOf(sorted[0]) then [g] + sorted
    else [sorted[0]] + InsertByIndex(g, sorted[1..])
  }

  function SortByIndex<D>(gs: seq<Group<D>>): seq<Group<D>> {
    if gs == [] then [] else InsertByIndex(gs[0], SortByIndex(gs[1..]))
  }

  /**
   * The order in which `for (const cluster in grouped)` visits the groups:
   * array-index labels in ascending numeric order, then all other labels in
   * creation order (the own-property order of an ordinary object).
   */
  function ForInOrder<D>(gs: seq<Group<D>>): seq<Group<D>> {
    SortByIndex(IndexGroups(gs)) + NamedGroups(gs)
  }

  /** The order batch mode invokes the matched handlers in. */
  function BatchOrder<D>(ms: seq<Match<D>>): seq<Handler<D>> {
    Flatten(ForInOrder(Groups(ms)))
  }

  lemma Shuffle<T>(a: multiset<T>, b: multiset<T>, c: multiset<T>, d: multiset<T>)
    requires b == c + d
    ensures a + b == c + (a + d)
  {
  }

  lemma {:induction false} InsertPermutation<D>(g: Group<D>, sorted: seq<Group<D>>)
    ensures multiset(Flatten(InsertByIndex(g, sorted))) == multiset(g.handlers) + multiset(Flatten(sorted))
  {
    if sorted == [] {
      FlattenCons(g, []);
    } else if IndexOf(g) <= IndexOf(sorted[0]) {
      FlattenCons(g, sorted);
    } else {
      var head := sorted[0];
      var rest := InsertByIndex(g, sorted[1..]);
      var a, b := multiset(head.handlers), multiset(Flatten(rest));
      var c, d := multiset(g.handlers), multiset(Flatten(sorted[1..]));
      assert multiset(Flatten(InsertByIndex(g, sorted))) == a + b by {
        FlattenCons(head, rest);
      }
      assert multiset(Flatten(sorted)) == a + d by {
        FlattenCons(head, sorted[1..]);
        assert [head] + sorted[1..] == sorted;
      }
      assert b == c + d by {
        InsertPermutation(g, sorted[1..]);
      }
      Shuffle(a, b, c, d);
    }
  }

  lemma {:induction false} SortPermutation<D>(gs: seq<Group<D>>)
    ensures multiset(Flatten(SortByIndex(gs))) == multiset(Flatten(gs))
  {
    if gs != [] {
      SortPermutation(gs[1..]);
      InsertPermutation(gs[0], SortByIndex(gs[1..]));
      FlattenCons(gs[0], gs[1..]);
      assert [gs[0]] + gs[1..] == gs;
    }
  }

  lemma {:induction false} SplitPermutation<D>(gs: seq<Group<D>>)
    ensures multiset(Flatten(IndexGroups(gs))) + multiset(Flatten(NamedGroups(gs))) == multiset(Flatten(gs))
  {
    if gs != [] {
      var init := gs[..|gs| - 1];
      var last := gs[|gs| - 1];
      SplitPermutation(init);
      if IsArrayIndex(last.tag) {
        FlattenAppend(IndexGroups(init), [last]);
        assert NamedGroups(gs) == NamedGroups(init);
      } else {
        FlattenAppend(NamedGroups(init), [last]);
        assert IndexGroups(gs) == IndexGroups(init);
      }
      assert Flatten([last]) == last.handlers by { assert [last][..0] == []; }
    }
  }

  /** Batch mode invokes exactly the matched handlers, each as often as it was matched. */
  lemma BatchPermutation<D>(ms: seq<Match<D>>)
    ensures multiset(BatchOrder(ms)) == multiset(HandlersOf(ms))
  {
    var gs := Groups(ms);
    FlattenAppend(SortByIndex(IndexGroups(gs)), NamedGroups(gs));
    SortPermutation(IndexGroups(gs));
    SplitPermutation(gs);
    GroupsPermutation(ms);
  }

  lemma {:induction false} NoIndexGroups<D>(gs: seq<Group<D>>)
    requires forall i | 0 <= i < |gs| :: !IsArrayIndex(gs[i].tag)
    ensures IndexGroups(gs) == [] && NamedGroups(gs) == gs
  {
    if gs != [] {
      var init := gs[..|gs| - 1];
      assert !IsArrayIndex(gs[|gs| - 1].tag);
      NoIndexGroups(init);
      assert NamedGroups(gs) == init + [gs[|gs| - 1]];
    }
  }

  /**
   * When no label is an array index, batch mode visits the groups in order of
   * each label's first appearance, and each group's handlers in list order.
   */
  lemma BatchOrderByFirstAppearance<D>(ms: seq<Match<D>>)
    requires forall i | 0 <= i < |ms| :: !IsArrayIndex(ms[i].cluster)
    ensures BatchOrder(ms) == Flatten(Groups(ms))
    ensures Tags(Groups(ms)) == Dedup(TagsOf(ms))
    ensures forall i | 0 <= i < |Groups(ms)| :: Groups(ms)[i].handlers == Tagged(ms, Groups(ms)[i].tag)
  {
    var gs := Groups(ms);
    GroupsShape(ms);
    forall i | 0 <= i < |gs| ensures !IsArrayIndex(gs[i].tag) {
      assert gs[i].tag == Tags(gs)[i];
      assert gs[i].tag in TagsOf(ms);
    }
    NoIndexGroups(gs);
    assert ForInOrder(gs) == gs;
  }

  /** Own-property names every plain object inherits from `Object.prototype`. */
  const ObjectPrototypeNames: set<string> := {
    "constructor", "hasOwnProperty", "isPrototypeOf", "propertyIsEnumerable",
    "toString", "toLocaleString", "valueOf", "__proto__",
    "__defineGetter__", "__defineSetter__", "__lookupGetter__", "__lookupSetter__"
  }

  /**
   * The grouping loop as written, on a plain object literal: `grouped[tag]`
   * finds an own group, else an inherited `Object.prototype` member (truthy,
   * so no group is created, and it has no `push`: a TypeError, None here),
   * else nothing (a group is created).
   */
  function GroupsAsWritten<D>(ms: seq<Match<D>>): Option<seq<Group<D>>> {
    if ms == [] then Some([])
    else
      match GroupsAsWritten(ms[..|ms| - 1])
      case None => None
      case Some(gs) =>
        var m := ms[|ms| - 1];
        match GroupIndex(gs, m.cluster)
        case Some(j) => Some(gs[j := Group(gs[j].tag, gs[j].handlers + [m.handler])])
        case None => if m.cluster in ObjectPrototypeNames then None else Some(gs + [Group(m.cluster, [m.handler])])
  }

  /** Some label of the match list names an `Object.prototype` member. */
  predicate NamesPrototypeMember<D>(ms: seq<Match<D>>) {
    exists i | 0 <= i < |ms| :: ms[i].cluster in ObjectPrototypeNames
  }

  /**
   * The grouping as written throws exactly when some label names an
   * `Object.prototype` member, and otherwise agrees with `Groups`.
   */
  lemma {:induction false} GroupsAsWrittenFailsOnPrototypeNames<D>(ms: seq<Match<D>>)
    ensures GroupsAsWritten(ms) == if NamesPrototypeMember(ms) then None else Some(Groups(ms))
  {
    if ms != [] {
      var init := ms[..|ms| - 1];
      var m := ms[|ms| - 1];
      GroupsAsWrittenFailsOnPrototypeNames(init);
      assert NamesPrototypeMember(ms) <==> NamesPrototypeMember(init) || m.cluster in ObjectPrototypeNames by {
        if NamesPrototypeMember(init) {
          var i :| 0 <= i < |init| && init[i].cluster in ObjectPrototypeNames;
          assert ms[i] == init[i];
        }
        if NamesPrototypeMember(ms) && m.cluster !in ObjectPrototypeNames {
          var i :| 0 <= i < |ms| && ms[i].cluster in ObjectPrototypeNames;
          assert init[i] == ms[i];
        }
      }
      if !NamesPrototypeMember(init) && m.cluster in ObjectPrototypeNames {
        var gs := Groups(init);
        GroupsTags(init);
        assert GroupIndex(gs, m.cluster).None? by {
          forall j | 0 <= j < |gs| ensures gs[j].tag != m.cluster {
            assert gs[j].tag == Tags(gs)[j];
            assert gs[j].tag in TagsOf(init);
            var i :| 0 <= i < |init| && TagsOf(init)[i] == gs[j].tag;
          }
        }
      }
    }
  }

  /** A handler subscribed to cluster "constructor" breaks batch delivery of a publish to that cluster. */
  lemma ConstructorLabelBreaksBatch<D>(h: Handler<D>)
    ensures GroupsAsWritten([Match(h, "constructor")]) == None
    ensures Groups([Match(h, "constructor")]) == [Group("constructor", [h])]
  {
    var ms := [Match(h, "constructor")];
    assert ms[..0] == [];
  }
}
