/**
 In which order a lineage diff lists what it reports
 (crates/phlo-transform-core/src/lineage_diff.rs). Every list is documented as
 sorted by its identity fields; the list of removed edges is not always, as the
 pair of graphs in `BuiltDiffs` shows.
 */
module DiffOrder {
  import opened Wrappers
  import opened Collections
  import opened Ordering
  import opened Lineage
  import opened LineageDiff

  /** No later item has a smaller key. */
  ghost predicate InOrder<X>(key: X -> EdgeKey, items: seq<X>) {
    forall i, j :: 0 <= i < j < |items| ==> !KeyLess(key(items[j]), key(items[i]))
  }

  function ChangeKey(change: EdgeChange): EdgeKey {
    change.key
  }

  ghost predicate Places<X(!new)>(key: X -> EdgeKey, f: EdgeKey -> seq<X>) {
    forall k, x :: x in f(k) ==> key(x) == k
  }

  lemma {:induction false} CollectMembers<X>(keys: seq<EdgeKey>, f: EdgeKey -> seq<X>, x: X)
    ensures x in Collect(keys, f) <==> exists k :: k in keys && x in f(k)
  {
    if keys != [] {
      var rest, last := keys[..|keys| - 1], keys[|keys| - 1];
      CollectMembers(rest, f, x);
      assert keys == rest + [last];
    }
  }

  lemma AppendInOrder<X>(key: X -> EdgeKey, a: seq<X>, b: seq<X>)
    requires InOrder(key, a) && InOrder(key, b)
    requires forall x, y :: x in a && y in b ==> !KeyLess(key(y), key(x))
    ensures InOrder(key, a + b)
  {
  }

  /** Collecting along sorted keys keeps their order. */
  lemma {:induction false} CollectInOrder<X(!new)>(key: X -> EdgeKey, keys: seq<EdgeKey>, f: EdgeKey -> seq<X>)
    requires Sorted(KeyLess, keys) && Places(key, f)
    ensures InOrder(key, Collect(keys, f))
  {
    if keys != [] {
      var rest, last := keys[..|keys| - 1], keys[|keys| - 1];
      CollectInOrder(key, rest, f);
      KeyLessTotal();
      forall x, y | x in Collect(rest, f) && y in f(last) ensures !KeyLess(key(y), key(x)) {
        CollectMembers(rest, f, x);
        var k :| k in rest && x in f(k);
        var i :| 0 <= i < |rest| && rest[i] == k;
        assert keys[i] == k && keys[|keys| - 1] == last;
      }
      AppendInOrder(key, Collect(rest, f), f(last));
    }
  }

  lemma EdgeKeysSorted(g: GraphView)
    ensures Sorted(KeyLess, EdgeKeys(g))
  {
    KeyLessTotal();
    SortedSetIsSet(KeyLess, KeysOf(g.edges));
  }

  lemma {:induction false} ChangesPlaced(key: EdgeKey, changed: seq<(Edge, Edge)>, change: EdgeChange)
    ensures change in PlacedChanges(key, changed)
       <==> change.key == key && (change.base, change.candidate) in changed
            && change.changes == EdgeChanges(change.base, change.candidate)
  {
    if changed != [] {
      ChangesPlaced(key, changed[1..], change);
      var (b, c) := changed[0];
      var first, pair := EdgeChange(key, b, c, EdgeChanges(b, c)), (change.base, change.candidate);
      assert PlacedChanges(key, changed) == [first] + PlacedChanges(key, changed[1..]);
      assert changed == [(b, c)] + changed[1..];
      assert pair == (b, c) <==> change.base == b && change.candidate == c;
      assert pair in changed <==> pair == (b, c) || pair in changed[1..];
    }
  }

  /** Added and changed edges are listed in key order, whatever the graphs. */
  lemma AddedAndChangedInOrder(base: GraphView, candidate: GraphView)
    ensures InOrder(KeyOf, DiffOf(base, candidate).edgesAdded)
    ensures InOrder(ChangeKey, DiffOf(base, candidate).edgesChanged)
  {
    EdgeKeysSorted(candidate);
    PlacesOwn(base, candidate);
    assert Places(KeyOf, AddedAt(base, candidate));
    CollectInOrder(KeyOf, EdgeKeys(candidate), AddedAt(base, candidate));
    forall k, change | change in ChangedAt(base, candidate)(k) ensures ChangeKey(change) == k {
      ChangesPlaced(k, DeltaAt(base, candidate, k).changed, change);
    }
    CollectInOrder(ChangeKey, EdgeKeys(candidate), ChangedAt(base, candidate));
  }

  lemma {:induction false} MissingInOrder(nodes: seq<LineageNode>, meta: map<LineageNode, NodeMeta>)
    requires Sorted(NodeLess, nodes)
    ensures Sorted(NodeLess, Missing(nodes, meta))
    ensures forall n :: n in Missing(nodes, meta) ==> n in nodes
  {
    if nodes != [] {
      var rest, last := nodes[..|nodes| - 1], nodes[|nodes| - 1];
      MissingInOrder(rest, meta);
      forall n | n in Missing(rest, meta) ensures !NodeLess(last, n) {
        var i :| 0 <= i < |rest| && rest[i] == n;
        assert nodes[i] == n;
      }
    }
  }

  /** No later change is one of a smaller node. */
  ghost predicate ChangesInOrder(changes: seq<NodeChange>) {
    forall i, j :: 0 <= i < j < |changes| ==> !NodeLess(changes[j].node, changes[i].node)
  }

  lemma {:induction false} ChangedNodesInOrder(
    nodes: seq<LineageNode>, base: map<LineageNode, NodeMeta>, candidate: map<LineageNode, NodeMeta>)
    requires Sorted(NodeLess, nodes)
    ensures ChangesInOrder(ChangedNodes(nodes, base, candidate))
    ensures forall change :: change in ChangedNodes(nodes, base, candidate) ==> change.node in nodes
  {
    if nodes != [] {
      var rest, last := nodes[..|nodes| - 1], nodes[|nodes| - 1];
      ChangedNodesInOrder(rest, base, candidate);
      forall change | change in ChangedNodes(rest, base, candidate) ensures !NodeLess(last, change.node) {
        var i :| 0 <= i < |rest| && rest[i] == change.node;
        assert nodes[i] == change.node;
      }
    }
  }

  /** So are added, removed and changed nodes. */
  lemma NodesInOrder(base: GraphView, candidate: GraphView)
    requires IsView(base) && IsView(candidate)
    ensures Sorted(NodeLess, DiffOf(base, candidate).nodesAdded)
    ensures Sorted(NodeLess, DiffOf(base, candidate).nodesRemoved)
    ensures ChangesInOrder(DiffOf(base, candidate).nodesChanged)
  {
    MissingInOrder(candidate.nodes, base.meta);
    MissingInOrder(base.nodes, candidate.meta);
    ChangedNodesInOrder(candidate.nodes, base.meta, candidate.meta);
  }

  // -- Removed edges ------------------------------------------------------------------------------------

  lemma LeftoverCount(base: seq<Edge>, candidate: seq<Edge>)
    ensures Delta(base, candidate).removed != [] <==> |base| > |candidate|
  {
    var d := Delta(base, candidate);
    DeltaIsExact(base, candidate);
    assert |multiset(base)| == |base| && |multiset(candidate)| == |candidate|;
    assert |Reported(Firsts(d.changed), d.removed)| == |d.changed| + |d.removed|;
    assert |Reported(Seconds(d.changed), d.added)| == |d.changed| + |d.added|;
  }

  /** Edges are removed at a key exactly when the base has more there. */
  lemma RemovedExactly(base: GraphView, candidate: GraphView, key: EdgeKey)
    ensures RemovedAt(base, candidate)(key) != [] <==> |BagAt(base, key)| > |BagAt(candidate, key)|
  {
    LeftoverCount(BagAt(base, key), BagAt(candidate, key));
  }

  /** A key the candidate lacks comes before a key both have and where the base has more edges. */
  ghost predicate OvertakenKey(base: GraphView, candidate: GraphView, shared: EdgeKey, only: EdgeKey) {
    && shared in EdgeKeys(candidate) && |BagAt(base, shared)| > |BagAt(candidate, shared)|
    && only in EdgeKeys(base) && only !in EdgeKeys(candidate)
    && KeyLess(only, shared)
  }

  lemma {:induction false} WithoutSorted(keys: seq<EdgeKey>, others: seq<EdgeKey>)
    requires Sorted(KeyLess, keys)
    ensures Sorted(KeyLess, Without(keys, others))
  {
    if keys != [] {
      var rest, last := keys[..|keys| - 1], keys[|keys| - 1];
      WithoutSorted(rest, others);
      forall k | k in Without(rest, others) ensures !KeyLess(last, k) {
        WithoutMembers(rest, others, k);
        var i :| 0 <= i < |rest| && rest[i] == k;
        assert keys[i] == k;
      }
    }
  }

  lemma OnlyBaseHas(base: GraphView, candidate: GraphView, key: EdgeKey)
    requires key in EdgeKeys(base) && key !in EdgeKeys(candidate)
    ensures |BagAt(base, key)| > |BagAt(candidate, key)|
  {
    NoEdgesAt(base, key);
    NoEdgesAt(candidate, key);
  }

  lemma OvertakenIsUnsorted(base: GraphView, candidate: GraphView, shared: EdgeKey, only: EdgeKey)
    requires OvertakenKey(base, candidate, shared, only)
    ensures !InOrder(KeyOf, DiffOf(base, candidate).edgesRemoved)
  {
    var f, keys := RemovedAt(base, candidate), EdgeKeys(candidate);
    var rest := Without(EdgeKeys(base), keys);
    OnlyBaseHas(base, candidate, only);
    var x := FirstRemoved(base, candidate, shared);
    var y := FirstRemoved(base, candidate, only);
    WithoutMembers(EdgeKeys(base), keys, only);
    CollectMembers(keys, f, x);
    CollectMembers(rest, f, y);
    CollectAppend(keys, rest, f);
    AppendOutOfOrder(KeyOf, Collect(keys, f), Collect(rest, f), x, y);
  }

  lemma FirstRemoved(base: GraphView, candidate: GraphView, key: EdgeKey) returns (x: GraphEdge)
    requires |BagAt(base, key)| > |BagAt(candidate, key)|
    ensures x in RemovedAt(base, candidate)(key) && KeyOf(x) == key
  {
    RemovedExactly(base, candidate, key);
    PlacesOwn(base, candidate);
    x := RemovedAt(base, candidate)(key)[0];
  }

  lemma AppendOutOfOrder<X>(key: X -> EdgeKey, a: seq<X>, b: seq<X>, x: X, y: X)
    requires x in a && y in b && KeyLess(key(y), key(x))
    ensures !InOrder(key, a + b)
  {
    var i :| 0 <= i < |a| && a[i] == x;
    var j :| 0 <= j < |b| && b[j] == y;
    assert (a + b)[i] == x && (a + b)[|a| + j] == y;
  }

  lemma SortedUnlessOvertaken(base: GraphView, candidate: GraphView)
    requires forall shared, only :: !OvertakenKey(base, candidate, shared, only)
    ensures InOrder(KeyOf, DiffOf(base, candidate).edgesRemoved)
  {
    var f, keys := RemovedAt(base, candidate), EdgeKeys(candidate);
    var rest := Without(EdgeKeys(base), keys);
    EdgeKeysSorted(base);
    EdgeKeysSorted(candidate);
    WithoutSorted(EdgeKeys(base), keys);
    PlacesOwn(base, candidate);
    assert Places(KeyOf, f);
    CollectInOrder(KeyOf, keys, f);
    CollectInOrder(KeyOf, rest, f);
    CollectAppend(keys, rest, f);
    forall x, y | x in Collect(keys, f) && y in Collect(rest, f) ensures !KeyLess(KeyOf(y), KeyOf(x)) {
      CollectMembers(keys, f, x);
      CollectMembers(rest, f, y);
      var shared :| shared in keys && x in f(shared);
      var only :| only in rest && y in f(only);
      WithoutMembers(EdgeKeys(base), keys, only);
      RemovedExactly(base, candidate, shared);
      assert !OvertakenKey(base, candidate, shared, only);
    }
    AppendInOrder(KeyOf, Collect(keys, f), Collect(rest, f));
  }

  /**
   Removed edges are listed in key order if and only if no key of the base alone
   comes before a shared key where the base has more edges.
   */
  lemma RemovedInOrderExactly(base: GraphView, candidate: GraphView)
    ensures InOrder(KeyOf, DiffOf(base, candidate).edgesRemoved)
       <==> !exists shared, only :: OvertakenKey(base, candidate, shared, only)
  {
    if shared, only :| OvertakenKey(base, candidate, shared, only) {
      OvertakenIsUnsorted(base, candidate, shared, only);
    } else {
      SortedUnlessOvertaken(base, candidate);
    }
  }

  // -- Both directions ------------------------------------------------------------------------------------

  function Flipped(change: EdgeChange): EdgeChange {
    EdgeChange(change.key, change.candidate, change.base, change.changes)
  }

  lemma PairsFlip(base: seq<Edge>, candidate: seq<Edge>, b: Edge, c: Edge)
    ensures (b, c) in Delta(base, candidate).changed ==> (c, b) in Delta(candidate, base).changed
  {
    var changed, back := Delta(base, candidate).changed, Delta(candidate, base).changed;
    if (b, c) in changed {
      var i :| 0 <= i < |changed| && changed[i] == (b, c);
      assert back[i] == (c, b);
    }
  }

  lemma ChangeFlips(base: GraphView, candidate: GraphView, key: EdgeKey, change: EdgeChange)
    requires change in ChangedAt(base, candidate)(key)
    ensures Flipped(change) in ChangedAt(candidate, base)(key)
  {
    ChangesPlaced(key, DeltaAt(base, candidate, key).changed, change);
    PairsFlip(BagAt(base, key), BagAt(candidate, key), change.base, change.candidate);
    ChangesPlaced(key, DeltaAt(candidate, base, key).changed, Flipped(change));
  }

  lemma ChangedIsShared(base: GraphView, candidate: GraphView, key: EdgeKey)
    requires key in EdgeKeys(candidate) && ChangedAt(base, candidate)(key) != []
    ensures key in EdgeKeys(base)
  {
    if key !in EdgeKeys(base) {
      NoEdgesAt(base, key);
      OneSidedKey(BagAt(candidate, key));
    }
  }

  lemma ChangeIsReportedBack(base: GraphView, candidate: GraphView, change: EdgeChange)
    requires change in DiffOf(base, candidate).edgesChanged
    ensures Flipped(change) in DiffOf(candidate, base).edgesChanged
  {
    CollectMembers(EdgeKeys(candidate), ChangedAt(base, candidate), change);
    var key :| key in EdgeKeys(candidate) && change in ChangedAt(base, candidate)(key);
    ChangeFlips(base, candidate, key, change);
    ChangedIsShared(base, candidate, key);
    CollectMembers(EdgeKeys(base), ChangedAt(candidate, base), Flipped(change));
  }

  /** Swapping the graphs turns every reported change of an edge round, and reports no other. */
  lemma SwapFlipsChanges(base: GraphView, candidate: GraphView, change: EdgeChange)
    ensures change in DiffOf(base, candidate).edgesChanged
       <==> Flipped(change) in DiffOf(candidate, base).edgesChanged
  {
    if change in DiffOf(base, candidate).edgesChanged {
      ChangeIsReportedBack(base, candidate, change);
    }
    if Flipped(change) in DiffOf(candidate, base).edgesChanged {
      ChangeIsReportedBack(candidate, base, Flipped(change));
      assert Flipped(Flipped(change)) == change;
    }
  }
}
