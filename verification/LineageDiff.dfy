/**
 Semantic diff between two lineage graphs
 (crates/phlo-transform-core/src/lineage_diff.rs).
 */
module LineageDiff {
  import opened Wrappers
  import opened Collections
  import opened Ordering
  import opened Lineage

  // -- Bags of parallel edges ----------------------------------------------------------------

  /** What is left of `s` when elements found in `bag` are cancelled one for one. */
  function Subtract(s: seq<Edge>, bag: multiset<Edge>): seq<Edge> {
    if s == [] then []
    else if s[0] in bag then Subtract(s[1..], bag - multiset{s[0]})
    else [s[0]] + Subtract(s[1..], bag)
  }

  lemma {:induction false} SubtractIsDifference(s: seq<Edge>, bag: multiset<Edge>)
    ensures multiset(Subtract(s, bag)) == multiset(s) - bag
  {
    if s != [] {
      SplitBag(s);
      if s[0] in bag {
        SubtractIsDifference(s[1..], bag - multiset{s[0]});
      } else {
        SubtractIsDifference(s[1..], bag);
      }
    }
  }

  lemma {:induction false} SubtractIgnores(s: seq<Edge>, bag: multiset<Edge>, x: Edge)
    requires x !in s
    ensures Subtract(s, bag + multiset{x}) == Subtract(s, bag)
  {
    if s != [] {
      if s[0] in bag {
        assert (bag + multiset{x}) - multiset{s[0]} == (bag - multiset{s[0]}) + multiset{x};
        SubtractIgnores(s[1..], bag - multiset{s[0]}, x);
      } else {
        SubtractIgnores(s[1..], bag, x);
      }
    }
  }

  lemma {:induction false} SubtractNothing(s: seq<Edge>)
    ensures Subtract(s, multiset{}) == s
  {
    if s != [] {
      SubtractNothing(s[1..]);
      assert s == [s[0]] + s[1..];
    }
  }

  /** The two sides' next edges are the same edge, which cancels. */
  lemma CancelNext(base: seq<Edge>, candidate: seq<Edge>, i: nat, j: nat)
    requires i < |base| && j < |candidate| && base[i] == candidate[j]
    ensures Subtract(base[i..], multiset(candidate[j..])) == Subtract(base[i + 1..], multiset(candidate[j + 1..]))
  {
    assert base[i..][1..] == base[i + 1..] && candidate[j..][1..] == candidate[j + 1..];
    SplitBag(candidate[j..]);
    assert multiset(candidate[j..]) - multiset{base[i]} == multiset(candidate[j + 1..]);
  }

  /** The smaller of two next edges has no counterpart left on the other side. */
  lemma KeepNext(base: seq<Edge>, candidate: seq<Edge>, i: nat, j: nat)
    requires Sorted(EdgeLess, candidate) && i < |base| && j <= |candidate|
    requires j < |candidate| ==> base[i] != candidate[j] && !EdgeLess(candidate[j], base[i])
    ensures Subtract(base[i..], multiset(candidate[j..]))
        == [base[i]] + Subtract(base[i + 1..], multiset(candidate[j..]))
    ensures Subtract(candidate[j..], multiset(base[i..])) == Subtract(candidate[j..], multiset(base[i + 1..]))
  {
    var x, rest := base[i], candidate[j..];
    assert base[i..][1..] == base[i + 1..];
    SplitBag(base[i..]);
    EdgeLessTotal();
    forall k | 0 <= k < |rest| ensures rest[k] != x {
      assert EdgeLess(x, candidate[j]);
      assert k > 0 ==> !EdgeLess(candidate[j + k], candidate[j]);
    }
    assert x !in multiset(rest);
    assert multiset(base[i..]) == multiset(base[i + 1..]) + multiset{x};
    SubtractIgnores(rest, multiset(base[i + 1..]), x);
  }

  /** What has been kept, and what is still to be cancelled. */
  ghost predicate Merging(
    base: seq<Edge>, candidate: seq<Edge>, i: nat, j: nat, baseLeft: seq<Edge>, candidateLeft: seq<Edge>)
  {
    && i <= |base| && j <= |candidate|
    && baseLeft + Subtract(base[i..], multiset(candidate[j..])) == Subtract(base, multiset(candidate))
    && candidateLeft + Subtract(candidate[j..], multiset(base[i..])) == Subtract(candidate, multiset(base))
  }

  lemma MergeCancels(
    base: seq<Edge>, candidate: seq<Edge>, i: nat, j: nat, baseLeft: seq<Edge>, candidateLeft: seq<Edge>)
    requires Merging(base, candidate, i, j, baseLeft, candidateLeft)
    requires i < |base| && j < |candidate| && base[i] == candidate[j]
    ensures Merging(base, candidate, i + 1, j + 1, baseLeft, candidateLeft)
  {
    CancelNext(base, candidate, i, j);
    CancelNext(candidate, base, j, i);
  }

  lemma MergeKeeps(
    base: seq<Edge>, candidate: seq<Edge>, i: nat, j: nat, baseLeft: seq<Edge>, candidateLeft: seq<Edge>)
    requires Merging(base, candidate, i, j, baseLeft, candidateLeft)
    requires Sorted(EdgeLess, candidate) && i < |base|
    requires j < |candidate| ==> base[i] != candidate[j] && !EdgeLess(candidate[j], base[i])
    ensures Merging(base, candidate, i + 1, j, baseLeft + [base[i]], candidateLeft)
  {
    KeepNext(base, candidate, i, j);
    var rest := Subtract(base[i + 1..], multiset(candidate[j..]));
    assert baseLeft + ([base[i]] + rest) == baseLeft + [base[i]] + rest;
  }

  lemma MergeKeepsCandidate(
    base: seq<Edge>, candidate: seq<Edge>, i: nat, j: nat, baseLeft: seq<Edge>, candidateLeft: seq<Edge>)
    requires Merging(base, candidate, i, j, baseLeft, candidateLeft)
    requires Sorted(EdgeLess, base) && j < |candidate|
    requires i < |base| ==> EdgeLess(candidate[j], base[i])
    ensures Merging(base, candidate, i, j + 1, baseLeft, candidateLeft + [candidate[j]])
  {
    if i < |base| {
      EdgeLessAsymmetric(candidate[j], base[i]);
    }
    MergeKeeps(candidate, base, j, i, candidateLeft, baseLeft);
  }

  lemma MergeStarts(base: seq<Edge>, candidate: seq<Edge>)
    ensures Merging(base, candidate, 0, 0, [], [])
  {
    assert base[0..] == base && candidate[0..] == candidate;
  }

  lemma MergeEnds(base: seq<Edge>, candidate: seq<Edge>, baseLeft: seq<Edge>, candidateLeft: seq<Edge>)
    requires Merging(base, candidate, |base|, |candidate|, baseLeft, candidateLeft)
    ensures baseLeft == Subtract(base, multiset(candidate)) && candidateLeft == Subtract(candidate, multiset(base))
  {
    assert base[|base|..] == [] && candidate[|candidate|..] == [];
  }

  /** Cancel equal edges of two sorted bags; what is left on each side is the exact bag difference. */
  method MergeBags(base: seq<Edge>, candidate: seq<Edge>) returns (baseLeft: seq<Edge>, candidateLeft: seq<Edge>)
    requires Sorted(EdgeLess, base) && Sorted(EdgeLess, candidate)
    ensures baseLeft == Subtract(base, multiset(candidate))
    ensures candidateLeft == Subtract(candidate, multiset(base))
  {
    baseLeft, candidateLeft := [], [];
    var i, j := 0, 0;
    MergeStarts(base, candidate);
    while i < |base| || j < |candidate|
      invariant 0 <= i <= |base| && 0 <= j <= |candidate|
      invariant Merging(base, candidate, i, j, baseLeft, candidateLeft)
      decreases |base| - i + |candidate| - j
    {
      i, j, baseLeft, candidateLeft := MergeStep(base, candidate, i, j, baseLeft, candidateLeft);
    }
    MergeEnds(base, candidate, baseLeft, candidateLeft);
  }

  /** Look at both sides' next edges: cancel equal ones, else keep the smaller. */
  method MergeStep(
    base: seq<Edge>, candidate: seq<Edge>, i0: nat, j0: nat, baseLeft0: seq<Edge>, candidateLeft0: seq<Edge>)
    returns (i: nat, j: nat, baseLeft: seq<Edge>, candidateLeft: seq<Edge>)
    requires Sorted(EdgeLess, base) && Sorted(EdgeLess, candidate)
    requires Merging(base, candidate, i0, j0, baseLeft0, candidateLeft0) && (i0 < |base| || j0 < |candidate|)
    ensures Merging(base, candidate, i, j, baseLeft, candidateLeft)
    ensures i0 <= i && j0 <= j && i0 + j0 < i + j
  {
    i, j, baseLeft, candidateLeft := i0, j0, baseLeft0, candidateLeft0;
    if i < |base| && j < |candidate| && base[i] == candidate[j] {
      MergeCancels(base, candidate, i, j, baseLeft, candidateLeft);
      i, j := i + 1, j + 1;
    } else if i < |base| && (j == |candidate| || !EdgeLess(candidate[j], base[i])) {
      MergeKeeps(base, candidate, i, j, baseLeft, candidateLeft);
      baseLeft := baseLeft + [base[i]];
      i := i + 1;
    } else {
      MergeKeepsCandidate(base, candidate, i, j, baseLeft, candidateLeft);
      candidateLeft := candidateLeft + [candidate[j]];
      j := j + 1;
    }
  }

  lemma EdgeLessAsymmetric(a: Edge, b: Edge)
    requires EdgeLess(a, b)
    ensures a != b && !EdgeLess(b, a)
  {
    EdgeLessTotal();
  }

  // -- One key: changed, removed and added edges -----------------------------------------------

  datatype BagDelta = BagDelta(changed: seq<(Edge, Edge)>, removed: seq<Edge>, added: seq<Edge>)

  function Zip(a: seq<Edge>, b: seq<Edge>): (r: seq<(Edge, Edge)>)
    ensures |r| == if |a| < |b| then |a| else |b|
    ensures forall i :: 0 <= i < |r| ==> r[i] == (a[i], b[i])
  {
    if a == [] || b == [] then [] else [(a[0], b[0])] + Zip(a[1..], b[1..])
  }

  function Skip(s: seq<Edge>, n: nat): seq<Edge> {
    if n <= |s| then s[n..] else []
  }

  /** Leftovers pair up as changes; the excess of one side is removed or added. */
  function Delta(base: seq<Edge>, candidate: seq<Edge>): BagDelta {
    var baseLeft, candidateLeft := Subtract(base, multiset(candidate)), Subtract(candidate, multiset(base));
    BagDelta(Zip(baseLeft, candidateLeft), Skip(baseLeft, |candidateLeft|), Skip(candidateLeft, |baseLeft|))
  }

  function EdgeChanges(base: Edge, candidate: Edge): seq<string> {
    (if base.directness != candidate.directness then ["directness"] else [])
    + (if base.transformation != candidate.transformation then ["transformation"] else [])
    + (if base.confidence != candidate.confidence then ["confidence"] else [])
    + (if base.expression != candidate.expression then ["expression"] else [])
  }

  ghost predicate OfKind(bag: seq<Edge>, kind: EdgeKind) {
    forall i :: 0 <= i < |bag| ==> bag[i].kind == kind
  }

  function Firsts(pairs: seq<(Edge, Edge)>): (r: seq<Edge>)
    ensures |r| == |pairs| && forall i :: 0 <= i < |pairs| ==> r[i] == pairs[i].0
  {
    if pairs == [] then [] else [pairs[0].0] + Firsts(pairs[1..])
  }

  function Seconds(pairs: seq<(Edge, Edge)>): (r: seq<Edge>)
    ensures |r| == |pairs| && forall i :: 0 <= i < |pairs| ==> r[i] == pairs[i].1
  {
    if pairs == [] then [] else [pairs[0].1] + Seconds(pairs[1..])
  }

  lemma FirstsAre(pairs: seq<(Edge, Edge)>, s: seq<Edge>)
    requires |pairs| <= |s| && forall i :: 0 <= i < |pairs| ==> pairs[i].0 == s[i]
    ensures Firsts(pairs) == s[..|pairs|]
  {
  }

  lemma SecondsAre(pairs: seq<(Edge, Edge)>, s: seq<Edge>)
    requires |pairs| <= |s| && forall i :: 0 <= i < |pairs| ==> pairs[i].1 == s[i]
    ensures Seconds(pairs) == s[..|pairs|]
  {
  }

  lemma TakeAndSkip(s: seq<Edge>, n: nat)
    ensures (if n <= |s| then s[..n] else s) + Skip(s, n) == s
  {
  }

  lemma UnzipFirsts(a: seq<Edge>, b: seq<Edge>)
    ensures Firsts(Zip(a, b)) + Skip(a, |b|) == a
  {
    FirstsAre(Zip(a, b), a);
    TakeAndSkip(a, |b|);
    assert a[..|a|] == a;
  }

  lemma UnzipSeconds(a: seq<Edge>, b: seq<Edge>)
    ensures Seconds(Zip(a, b)) + Skip(b, |a|) == b
  {
    SecondsAre(Zip(a, b), b);
    TakeAndSkip(b, |a|);
    assert b[..|b|] == b;
  }

  lemma BagsSplit(a: multiset<Edge>, b: multiset<Edge>)
    ensures a == a * b + (a - b) && b == a * b + (b - a) && (a - b) !! (b - a)
  {
  }

  /** What the delta reports of a bag: its part of the changed pairs, and what was removed or added. */
  function Reported(part: seq<Edge>, rest: seq<Edge>): multiset<Edge> {
    multiset(part + rest)
  }

  /**
   Every edge of either bag is accounted for once: matched, changed, or removed
   respectively added; and no edge is reported on both sides.
   */
  lemma DeltaIsExact(base: seq<Edge>, candidate: seq<Edge>)
    ensures var d := Delta(base, candidate);
            var matched := multiset(base) * multiset(candidate);
            var gone, come := Reported(Firsts(d.changed), d.removed), Reported(Seconds(d.changed), d.added);
            && multiset(base) == matched + gone && multiset(candidate) == matched + come && gone !! come
            && (d.removed == [] || d.added == [])
  {
    var baseLeft, candidateLeft := Subtract(base, multiset(candidate)), Subtract(candidate, multiset(base));
    SubtractIsDifference(base, multiset(candidate));
    SubtractIsDifference(candidate, multiset(base));
    UnzipFirsts(baseLeft, candidateLeft);
    UnzipSeconds(baseLeft, candidateLeft);
    BagsSplit(multiset(base), multiset(candidate));
  }

  /** A reported change always names a field: the source's `debug_assert` cannot fire. */
  lemma ChangesAreDifferences(base: seq<Edge>, candidate: seq<Edge>, kind: EdgeKind, i: nat)
    requires OfKind(base, kind) && OfKind(candidate, kind) && i < |Delta(base, candidate).changed|
    ensures var (b, c) := Delta(base, candidate).changed[i]; b != c && EdgeChanges(b, c) != []
  {
    var baseLeft, candidateLeft := Subtract(base, multiset(candidate)), Subtract(candidate, multiset(base));
    SubtractIsDifference(base, multiset(candidate));
    SubtractIsDifference(candidate, multiset(base));
    var b, c := baseLeft[i], candidateLeft[i];
    assert b in multiset(baseLeft) && c in multiset(candidateLeft);
    assert b in base && c in candidate;
  }

  // -- The whole diff --------------------------------------------------------------------------------

  datatype EdgeKey = EdgeKey(from: LineageNode, to: LineageNode, kind: EdgeKind)

  predicate KeyLess(a: EdgeKey, b: EdgeKey) {
    if a.from != b.from then NodeLess(a.from, b.from)
    else if a.to != b.to then NodeLess(a.to, b.to)
    else KindRank(a.kind) < KindRank(b.kind)
  }

  lemma KeyLessTotal()
    ensures StrictTotal(KeyLess)
  {
    NodeLessTotal();
  }

  function KeyOf(e: GraphEdge): EdgeKey {
    EdgeKey(e.from, e.to, e.edge.kind)
  }

  function KeysOf(edges: seq<GraphEdge>): (keys: seq<EdgeKey>)
    ensures |keys| == |edges| && forall i :: 0 <= i < |edges| ==> keys[i] == KeyOf(edges[i])
  {
    if edges == [] then [] else [KeyOf(edges[0])] + KeysOf(edges[1..])
  }

  /** The keys of the edge map, in order. */
  function EdgeKeys(g: GraphView): seq<EdgeKey> {
    SortedSet(KeyLess, KeysOf(g.edges))
  }

  function EdgesAt(edges: seq<GraphEdge>, key: EdgeKey): seq<Edge> {
    if edges == [] then []
    else (if KeyOf(edges[0]) == key then [edges[0].edge] else []) + EdgesAt(edges[1..], key)
  }

  /** The bag of parallel edges at a key, sorted by metadata. */
  function BagAt(g: GraphView, key: EdgeKey): seq<Edge> {
    Sort(EdgeLess, EdgesAt(g.edges, key))
  }

  function DeltaAt(base: GraphView, candidate: GraphView, key: EdgeKey): BagDelta {
    Delta(BagAt(base, key), BagAt(candidate, key))
  }

  function Placed(key: EdgeKey, bag: seq<Edge>): (r: seq<GraphEdge>)
    ensures |r| == |bag| && forall i :: 0 <= i < |bag| ==> r[i] == GraphEdge(key.from, key.to, bag[i])
  {
    if bag == [] then [] else [GraphEdge(key.from, key.to, bag[0])] + Placed(key, bag[1..])
  }

  datatype EdgeChange = EdgeChange(key: EdgeKey, base: Edge, candidate: Edge, changes: seq<string>)

  function PlacedChanges(key: EdgeKey, changed: seq<(Edge, Edge)>): (r: seq<EdgeChange>)
    ensures |r| == |changed|
  {
    if changed == [] then []
    else
      var (b, c) := changed[0];
      [EdgeChange(key, b, c, EdgeChanges(b, c))] + PlacedChanges(key, changed[1..])
  }

  function Collect<X>(keys: seq<EdgeKey>, f: EdgeKey -> seq<X>): seq<X> {
    if keys == [] then [] else Collect(keys[..|keys| - 1], f) + f(keys[|keys| - 1])
  }

  function AddedAt(base: GraphView, candidate: GraphView): EdgeKey -> seq<GraphEdge> {
    key => Placed(key, DeltaAt(base, candidate, key).added)
  }

  function RemovedAt(base: GraphView, candidate: GraphView): EdgeKey -> seq<GraphEdge> {
    key => Placed(key, DeltaAt(base, candidate, key).removed)
  }

  function ChangedAt(base: GraphView, candidate: GraphView): EdgeKey -> seq<EdgeChange> {
    key => PlacedChanges(key, DeltaAt(base, candidate, key).changed)
  }

  function Without(keys: seq<EdgeKey>, others: seq<EdgeKey>): seq<EdgeKey> {
    if keys == [] then []
    else
      var rest, last := Without(keys[..|keys| - 1], others), keys[|keys| - 1];
      if last in others then rest else rest + [last]
  }

  /** The field of `NodeMeta` that differ, in field order. */
  function MetaChanges(base: NodeMeta, candidate: NodeMeta): seq<string> {
    (if base.path != candidate.path then ["path"] else [])
    + (if base.version != candidate.version then ["version"] else [])
    + (if base.datasetKind != candidate.datasetKind then ["dataset kind"] else [])
    + (if base.target != candidate.target then ["target"] else [])
    + (if base.dataType != candidate.dataType then ["type"] else [])
    + (if base.nullability != candidate.nullability then ["nullability"] else [])
    + (if base.confidence != candidate.confidence then ["confidence"] else [])
    + (if base.generated != candidate.generated then ["generated"] else [])
    + (if base.materialization != candidate.materialization then ["materialization"] else [])
    + (if base.workflow != candidate.workflow then ["workflow"] else [])
  }

  datatype NodeChange = NodeChange(node: LineageNode, changes: seq<string>)

  function Missing(nodes: seq<LineageNode>, meta: map<LineageNode, NodeMeta>): seq<LineageNode> {
    if nodes == [] then []
    else
      var rest, last := Missing(nodes[..|nodes| - 1], meta), nodes[|nodes| - 1];
      if last in meta then rest else rest + [last]
  }

  function ChangedNodes(
    nodes: seq<LineageNode>, base: map<LineageNode, NodeMeta>, candidate: map<LineageNode, NodeMeta>): seq<NodeChange>
  {
    if nodes == [] then []
    else
      var rest, last := ChangedNodes(nodes[..|nodes| - 1], base, candidate), nodes[|nodes| - 1];
      if last in base && last in candidate && MetaChanges(base[last], candidate[last]) != []
      then rest + [NodeChange(last, MetaChanges(base[last], candidate[last]))]
      else rest
  }

  datatype Report = Report(
    nodesAdded: seq<LineageNode>,
    nodesRemoved: seq<LineageNode>,
    nodesChanged: seq<NodeChange>,
    edgesAdded: seq<GraphEdge>,
    edgesRemoved: seq<GraphEdge>,
    edgesChanged: seq<EdgeChange>)

  predicate IsEmpty(report: Report) {
    && report.nodesAdded == [] && report.nodesRemoved == [] && report.nodesChanged == []
    && report.edgesAdded == [] && report.edgesRemoved == [] && report.edgesChanged == []
  }

  /** The keys in the order removed edges are reported: shared keys, then those only the base has. */
  function RemovalKeys(base: GraphView, candidate: GraphView): seq<EdgeKey> {
    EdgeKeys(candidate) + Without(EdgeKeys(base), EdgeKeys(candidate))
  }

  function DiffOf(base: GraphView, candidate: GraphView): Report {
    Report(
      Missing(candidate.nodes, base.meta),
      Missing(base.nodes, candidate.meta),
      ChangedNodes(candidate.nodes, base.meta, candidate.meta),
      Collect(EdgeKeys(candidate), AddedAt(base, candidate)),
      Collect(RemovalKeys(base, candidate), RemovedAt(base, candidate)),
      Collect(EdgeKeys(candidate), ChangedAt(base, candidate)))
  }

  /** The edges of one key that both graphs have. */
  method CompareBags(base: seq<Edge>, candidate: seq<Edge>) returns (delta: BagDelta)
    requires Sorted(EdgeLess, base) && Sorted(EdgeLess, candidate)
    ensures delta == Delta(base, candidate)
  {
    var baseLeft, candidateLeft := MergeBags(base, candidate);
    delta := BagDelta(
      Zip(baseLeft, candidateLeft), Skip(baseLeft, |candidateLeft|), Skip(candidateLeft, |baseLeft|));
  }

  lemma CollectNext<X>(keys: seq<EdgeKey>, i: nat, f: EdgeKey -> seq<X>)
    requires i < |keys|
    ensures Collect(keys[..i + 1], f) == Collect(keys[..i], f) + f(keys[i])
  {
    assert keys[..i + 1][..i] == keys[..i];
  }

  lemma {:induction false} CollectAppend<X>(a: seq<EdgeKey>, b: seq<EdgeKey>, f: EdgeKey -> seq<X>)
    ensures Collect(a + b, f) == Collect(a, f) + Collect(b, f)
  {
    if b == [] {
      assert a + b == a;
    } else {
      CollectAppend(a, b[..|b| - 1], f);
      assert (a + b)[..|a + b| - 1] == a + b[..|b| - 1];
      assert Collect(a, f) + (Collect(b[..|b| - 1], f) + f(b[|b| - 1]))
          == Collect(a, f) + Collect(b[..|b| - 1], f) + f(b[|b| - 1]);
    }
  }

  /** A key only one side has: its whole bag is added, or removed. */
  lemma OneSidedKey(bag: seq<Edge>)
    ensures Delta([], bag) == BagDelta([], [], bag) && Delta(bag, []) == BagDelta([], bag, [])
  {
    var none: seq<Edge> := [];
    SubtractNothing(bag);
    assert multiset(none) == multiset{};
  }

  lemma {:induction false} NoEdgesAt(g: GraphView, key: EdgeKey)
    ensures key !in EdgeKeys(g) <==> EdgesAt(g.edges, key) == []
  {
    KeyLessTotal();
    SortedSetIsSet(KeyLess, KeysOf(g.edges));
    NoEdgesWithoutKey(g.edges, key);
    assert key in EdgeKeys(g) <==> key in Elements(EdgeKeys(g));
  }

  lemma {:induction false} NoEdgesWithoutKey(edges: seq<GraphEdge>, key: EdgeKey)
    ensures key !in Elements(KeysOf(edges)) <==> EdgesAt(edges, key) == []
  {
    if edges != [] {
      NoEdgesWithoutKey(edges[1..], key);
      assert KeysOf(edges) == [KeyOf(edges[0])] + KeysOf(edges[1..]);
    }
  }

  method CompareEdges(base: GraphView, candidate: GraphView, keys: seq<EdgeKey>)
    returns (added: seq<GraphEdge>, removed: seq<GraphEdge>, changed: seq<EdgeChange>)
    ensures added == Collect(keys, AddedAt(base, candidate))
    ensures removed == Collect(keys, RemovedAt(base, candidate))
    ensures changed == Collect(keys, ChangedAt(base, candidate))
  {
    added, removed, changed := [], [], [];
    for i := 0 to |keys|
      invariant added == Collect(keys[..i], AddedAt(base, candidate))
      invariant removed == Collect(keys[..i], RemovedAt(base, candidate))
      invariant changed == Collect(keys[..i], ChangedAt(base, candidate))
    {
      var delta := CompareAt(base, candidate, keys[i]);
      CollectNext(keys, i, AddedAt(base, candidate));
      CollectNext(keys, i, RemovedAt(base, candidate));
      CollectNext(keys, i, ChangedAt(base, candidate));
      added := added + Placed(keys[i], delta.added);
      removed := removed + Placed(keys[i], delta.removed);
      changed := changed + PlacedChanges(keys[i], delta.changed);
    }
    assert keys[..|keys|] == keys;
  }

  method CompareAt(base: GraphView, candidate: GraphView, key: EdgeKey) returns (delta: BagDelta)
    ensures delta == DeltaAt(base, candidate, key)
  {
    EdgeLessTotal();
    SortSorted(EdgeLess, EdgesAt(base.edges, key));
    SortSorted(EdgeLess, EdgesAt(candidate.edges, key));
    if key in EdgeKeys(base) {
      delta := CompareBags(BagAt(base, key), BagAt(candidate, key));
    } else {
      NoEdgesAt(base, key);
      OneSidedKey(BagAt(candidate, key));
      delta := BagDelta([], [], BagAt(candidate, key));
    }
  }

  /** The whole bags of some keys. */
  method PlaceBags(g: GraphView, keys: seq<EdgeKey>, ghost f: EdgeKey -> seq<GraphEdge>)
    returns (placed: seq<GraphEdge>)
    requires forall key :: key in keys ==> f(key) == Placed(key, BagAt(g, key))
    ensures placed == Collect(keys, f)
  {
    placed := [];
    for i := 0 to |keys|
      invariant placed == Collect(keys[..i], f)
    {
      CollectNext(keys, i, f);
      assert keys[i] in keys;
      placed := placed + Placed(keys[i], BagAt(g, keys[i]));
    }
    assert keys[..|keys|] == keys;
  }

  lemma {:induction false} WithoutMembers(keys: seq<EdgeKey>, others: seq<EdgeKey>, key: EdgeKey)
    ensures key in Without(keys, others) <==> key in keys && key !in others
  {
    if keys != [] {
      WithoutMembers(keys[..|keys| - 1], others, key);
      assert keys == keys[..|keys| - 1] + [keys[|keys| - 1]];
    }
  }

  lemma GoneAt(base: GraphView, candidate: GraphView, key: EdgeKey)
    requires key in Without(EdgeKeys(base), EdgeKeys(candidate))
    ensures RemovedAt(base, candidate)(key) == Placed(key, BagAt(base, key))
  {
    WithoutMembers(EdgeKeys(base), EdgeKeys(candidate), key);
    NoEdgesAt(candidate, key);
    OneSidedKey(BagAt(base, key));
  }

  method RemovedKeys(base: GraphView, candidate: GraphView) returns (removed: seq<GraphEdge>)
    ensures removed == Collect(Without(EdgeKeys(base), EdgeKeys(candidate)), RemovedAt(base, candidate))
  {
    var keys := Without(EdgeKeys(base), EdgeKeys(candidate));
    forall key | key in keys ensures RemovedAt(base, candidate)(key) == Placed(key, BagAt(base, key)) {
      GoneAt(base, candidate, key);
    }
    removed := PlaceBags(base, keys, RemovedAt(base, candidate));
  }

  /** The diff of two graphs. */
  method Diff(base: GraphView, candidate: GraphView) returns (report: Report)
    ensures report == DiffOf(base, candidate)
  {
    var keys := EdgeKeys(candidate);
    var added, removed, changed := CompareEdges(base, candidate, keys);
    var gone := RemovedKeys(base, candidate);
    CollectAppend(keys, Without(EdgeKeys(base), keys), RemovedAt(base, candidate));
    report := Report(
      Missing(candidate.nodes, base.meta), Missing(base.nodes, candidate.meta),
      ChangedNodes(candidate.nodes, base.meta, candidate.meta), added, removed + gone, changed);
  }

  // -- The diff counts every edge ------------------------------------------------------------------

  lemma {:induction false} EdgesAtCount(edges: seq<GraphEdge>, key: EdgeKey, e: Edge)
    ensures multiset(EdgesAt(edges, key))[e]
         == if e.kind == key.kind then multiset(edges)[GraphEdge(key.from, key.to, e)] else 0
  {
    if edges != [] {
      EdgesAtCount(edges[1..], key, e);
      SplitBag(edges);
      var first := if KeyOf(edges[0]) == key then [edges[0].edge] else [];
      assert EdgesAt(edges, key) == first + EdgesAt(edges[1..], key);
      assert edges[0] == GraphEdge(edges[0].from, edges[0].to, edges[0].edge);
    }
  }

  lemma {:induction false} PlacedCount(key: EdgeKey, bag: seq<Edge>, g: GraphEdge)
    ensures multiset(Placed(key, bag))[g]
         == if g.from == key.from && g.to == key.to then multiset(bag)[g.edge] else 0
  {
    if bag != [] {
      PlacedCount(key, bag[1..], g);
      SplitBag(bag);
      SplitBag(Placed(key, bag));
    }
  }

  ghost predicate PlacesOwnKey(f: EdgeKey -> seq<GraphEdge>) {
    forall key, g :: g in f(key) ==> KeyOf(g) == key
  }

  lemma {:induction false} CollectCount(keys: seq<EdgeKey>, f: EdgeKey -> seq<GraphEdge>, g: GraphEdge)
    requires Distinct(keys) && PlacesOwnKey(f)
    ensures multiset(Collect(keys, f))[g] == if KeyOf(g) in keys then multiset(f(KeyOf(g)))[g] else 0
  {
    if keys != [] {
      var rest, last := keys[..|keys| - 1], keys[|keys| - 1];
      CollectCount(rest, f, g);
      assert keys == rest + [last];
      if KeyOf(g) != last {
        assert g !in f(last);
        assert multiset(f(last))[g] == 0;
      }
    }
  }

  lemma DeltaKinds(base: GraphView, candidate: GraphView, key: EdgeKey)
    ensures OfKind(BagAt(base, key), key.kind)
    ensures OfKind(DeltaAt(base, candidate, key).removed, key.kind)
    ensures OfKind(DeltaAt(base, candidate, key).added, key.kind)
  {
    BagKind(base, key);
    BagKind(candidate, key);
    SubtractKind(BagAt(base, key), multiset(BagAt(candidate, key)), key.kind);
    SubtractKind(BagAt(candidate, key), multiset(BagAt(base, key)), key.kind);
  }

  lemma BagKind(g: GraphView, key: EdgeKey)
    ensures OfKind(BagAt(g, key), key.kind)
  {
    forall e | e in BagAt(g, key) ensures e.kind == key.kind {
      assert multiset(BagAt(g, key))[e] > 0;
      EdgesAtCount(g.edges, key, e);
    }
  }

  lemma SubtractKind(s: seq<Edge>, bag: multiset<Edge>, kind: EdgeKind)
    requires OfKind(s, kind)
    ensures OfKind(Subtract(s, bag), kind)
  {
    SubtractIsDifference(s, bag);
    forall e | e in Subtract(s, bag) ensures e.kind == kind {
      assert multiset(Subtract(s, bag))[e] > 0;
      assert e in multiset(s);
    }
  }

  lemma PlacesOwn(base: GraphView, candidate: GraphView)
    ensures PlacesOwnKey(AddedAt(base, candidate)) && PlacesOwnKey(RemovedAt(base, candidate))
  {
    forall key, g | g in AddedAt(base, candidate)(key) ensures KeyOf(g) == key {
      DeltaKinds(base, candidate, key);
    }
    forall key, g | g in RemovedAt(base, candidate)(key) ensures KeyOf(g) == key {
      DeltaKinds(base, candidate, key);
    }
  }

  lemma EdgeKeysDistinct(g: GraphView)
    ensures Distinct(EdgeKeys(g))
  {
    KeyLessTotal();
    SortedSetIsSet(KeyLess, KeysOf(g.edges));
  }

  lemma {:induction false} WithoutDistinct(keys: seq<EdgeKey>, others: seq<EdgeKey>)
    requires Distinct(keys)
    ensures Distinct(Without(keys, others))
  {
    if keys != [] {
      var rest, last := keys[..|keys| - 1], keys[|keys| - 1];
      WithoutDistinct(rest, others);
      WithoutMembers(rest, others, last);
    }
  }

  lemma RemovalKeysDistinct(base: GraphView, candidate: GraphView)
    ensures Distinct(RemovalKeys(base, candidate))
    ensures forall key :: key in RemovalKeys(base, candidate) <==> key in EdgeKeys(base) || key in EdgeKeys(candidate)
  {
    EdgeKeysDistinct(base);
    EdgeKeysDistinct(candidate);
    WithoutDistinct(EdgeKeys(base), EdgeKeys(candidate));
    forall key ensures key in RemovalKeys(base, candidate) <==> key in EdgeKeys(base) || key in EdgeKeys(candidate) {
      WithoutMembers(EdgeKeys(base), EdgeKeys(candidate), key);
    }
    forall i, j | 0 <= i < j < |RemovalKeys(base, candidate)|
      ensures RemovalKeys(base, candidate)[i] != RemovalKeys(base, candidate)[j]
    {
      var only := Without(EdgeKeys(base), EdgeKeys(candidate));
      if j >= |EdgeKeys(candidate)| {
        assert only[j - |EdgeKeys(candidate)|] in only;
        WithoutMembers(EdgeKeys(base), EdgeKeys(candidate), only[j - |EdgeKeys(candidate)|]);
      }
    }
  }

  /** How often an edge is reported added, and removed. */
  lemma ReportedCounts(base: GraphView, candidate: GraphView, g: GraphEdge)
    ensures multiset(DiffOf(base, candidate).edgesAdded)[g]
         == multiset(DeltaAt(base, candidate, KeyOf(g)).added)[g.edge]
    ensures multiset(DiffOf(base, candidate).edgesRemoved)[g]
         == multiset(DeltaAt(base, candidate, KeyOf(g)).removed)[g.edge]
  {
    var key := KeyOf(g);
    PlacesOwn(base, candidate);
    EdgeKeysDistinct(candidate);
    RemovalKeysDistinct(base, candidate);
    CollectCount(EdgeKeys(candidate), AddedAt(base, candidate), g);
    CollectCount(RemovalKeys(base, candidate), RemovedAt(base, candidate), g);
    PlacedCount(key, DeltaAt(base, candidate, key).added, g);
    PlacedCount(key, DeltaAt(base, candidate, key).removed, g);
    NoEdgesAt(base, key);
    NoEdgesAt(candidate, key);
    OneSidedKey(BagAt(base, key));
  }

  lemma AddedIsRemovedBack(base: GraphView, candidate: GraphView, g: GraphEdge)
    ensures multiset(DiffOf(base, candidate).edgesAdded)[g] == multiset(DiffOf(candidate, base).edgesRemoved)[g]
  {
    ReportedCounts(base, candidate, g);
    ReportedCounts(candidate, base, g);
  }

  lemma SameCounts<T>(a: multiset<T>, b: multiset<T>)
    requires forall x :: a[x] == b[x]
    ensures a == b
  {
  }

  /** Swapping the graphs swaps what was added and what was removed. */
  lemma SwapExchanges(base: GraphView, candidate: GraphView)
    ensures DiffOf(base, candidate).nodesAdded == DiffOf(candidate, base).nodesRemoved
    ensures multiset(DiffOf(base, candidate).edgesAdded) == multiset(DiffOf(candidate, base).edgesRemoved)
  {
    var added, removed := multiset(DiffOf(base, candidate).edgesAdded), multiset(DiffOf(candidate, base).edgesRemoved);
    forall g ensures added[g] == removed[g] {
      AddedIsRemovedBack(base, candidate, g);
    }
    SameCounts(added, removed);
  }

  // -- An empty diff means equal graphs -----------------------------------------------------------

  lemma {:induction false} CollectEmpty<X>(keys: seq<EdgeKey>, f: EdgeKey -> seq<X>)
    ensures Collect(keys, f) == [] <==> forall i :: 0 <= i < |keys| ==> f(keys[i]) == []
  {
    if keys != [] {
      CollectEmpty(keys[..|keys| - 1], f);
      assert keys == keys[..|keys| - 1] + [keys[|keys| - 1]];
    }
  }

  predicate NoDelta(d: BagDelta) {
    d.changed == [] && d.removed == [] && d.added == []
  }

  /** A key is unreported exactly when both sides have the same bag. */
  lemma NoDeltaExactly(base: seq<Edge>, candidate: seq<Edge>)
    ensures NoDelta(Delta(base, candidate)) <==> multiset(base) == multiset(candidate)
  {
    var baseLeft, candidateLeft := Subtract(base, multiset(candidate)), Subtract(candidate, multiset(base));
    SubtractIsDifference(base, multiset(candidate));
    SubtractIsDifference(candidate, multiset(base));
    BagsSplit(multiset(base), multiset(candidate));
    if NoDelta(Delta(base, candidate)) {
      assert baseLeft == [] && candidateLeft == [];
    } else {
      assert baseLeft != [] || candidateLeft != [];
      assert |multiset(baseLeft)| + |multiset(candidateLeft)| > 0;
    }
  }

  ghost predicate SameBagAt(base: GraphView, candidate: GraphView, key: EdgeKey) {
    multiset(EdgesAt(base.edges, key)) == multiset(EdgesAt(candidate.edges, key))
  }

  lemma SameBagsEverywhere(base: GraphView, candidate: GraphView)
    ensures (forall key :: SameBagAt(base, candidate, key)) <==> multiset(base.edges) == multiset(candidate.edges)
  {
    if forall key :: SameBagAt(base, candidate, key) {
      forall g ensures multiset(base.edges)[g] == multiset(candidate.edges)[g] {
        assert SameBagAt(base, candidate, KeyOf(g));
        EdgesAtCount(base.edges, KeyOf(g), g.edge);
        EdgesAtCount(candidate.edges, KeyOf(g), g.edge);
      }
      SameCounts(multiset(base.edges), multiset(candidate.edges));
    }
    if multiset(base.edges) == multiset(candidate.edges) {
      forall key ensures SameBagAt(base, candidate, key) {
        forall e ensures multiset(EdgesAt(base.edges, key))[e] == multiset(EdgesAt(candidate.edges, key))[e] {
          EdgesAtCount(base.edges, key, e);
          EdgesAtCount(candidate.edges, key, e);
        }
        SameCounts(multiset(EdgesAt(base.edges, key)), multiset(EdgesAt(candidate.edges, key)));
      }
    }
  }

  ghost predicate NoEdgesReported(report: Report) {
    report.edgesAdded == [] && report.edgesRemoved == [] && report.edgesChanged == []
  }

  lemma CollectNone<X>(keys: seq<EdgeKey>, f: EdgeKey -> seq<X>, key: EdgeKey)
    requires Collect(keys, f) == [] && key in keys
    ensures f(key) == []
  {
    CollectEmpty(keys, f);
  }

  lemma SharedKeyUnreported(base: GraphView, candidate: GraphView, key: EdgeKey)
    requires NoEdgesReported(DiffOf(base, candidate)) && key in EdgeKeys(candidate)
    ensures NoDelta(DeltaAt(base, candidate, key))
  {
    CollectNone(EdgeKeys(candidate), AddedAt(base, candidate), key);
    CollectNone(EdgeKeys(candidate), ChangedAt(base, candidate), key);
    CollectNone(RemovalKeys(base, candidate), RemovedAt(base, candidate), key);
  }

  lemma BaseKeyUnreported(base: GraphView, candidate: GraphView, key: EdgeKey)
    requires NoEdgesReported(DiffOf(base, candidate)) && key !in EdgeKeys(candidate)
    ensures BagAt(base, key) == [] && BagAt(candidate, key) == []
  {
    NoEdgesAt(base, key);
    NoEdgesAt(candidate, key);
    if key in EdgeKeys(base) {
      WithoutMembers(EdgeKeys(base), EdgeKeys(candidate), key);
      GoneAt(base, candidate, key);
      CollectNone(RemovalKeys(base, candidate), RemovedAt(base, candidate), key);
    }
  }

  lemma UnreportedKey(base: GraphView, candidate: GraphView, key: EdgeKey)
    requires NoEdgesReported(DiffOf(base, candidate))
    ensures SameBagAt(base, candidate, key)
  {
    if key in EdgeKeys(candidate) {
      SharedKeyUnreported(base, candidate, key);
      NoDeltaExactly(BagAt(base, key), BagAt(candidate, key));
    } else {
      BaseKeyUnreported(base, candidate, key);
    }
  }

  lemma SameBagNoDelta(base: GraphView, candidate: GraphView, key: EdgeKey)
    requires SameBagAt(base, candidate, key)
    ensures AddedAt(base, candidate)(key) == [] && RemovedAt(base, candidate)(key) == []
    ensures ChangedAt(base, candidate)(key) == []
  {
    NoDeltaExactly(BagAt(base, key), BagAt(candidate, key));
  }

  lemma CollectAllNone<X>(keys: seq<EdgeKey>, f: EdgeKey -> seq<X>)
    requires forall key :: f(key) == []
    ensures Collect(keys, f) == []
  {
    CollectEmpty(keys, f);
  }

  lemma SameBagsUnreported(base: GraphView, candidate: GraphView)
    requires forall key :: SameBagAt(base, candidate, key)
    ensures NoEdgesReported(DiffOf(base, candidate))
  {
    forall key
      ensures AddedAt(base, candidate)(key) == [] && RemovedAt(base, candidate)(key) == []
      ensures ChangedAt(base, candidate)(key) == []
    {
      SameBagNoDelta(base, candidate, key);
    }
    CollectAllNone(EdgeKeys(candidate), AddedAt(base, candidate));
    CollectAllNone(EdgeKeys(candidate), ChangedAt(base, candidate));
    CollectAllNone(RemovalKeys(base, candidate), RemovedAt(base, candidate));
  }

  lemma {:induction false} MissingNone(nodes: seq<LineageNode>, meta: map<LineageNode, NodeMeta>)
    ensures Missing(nodes, meta) == [] <==> Elements(nodes) <= meta.Keys
  {
    if nodes != [] {
      TakeOneMore(nodes, |nodes| - 1);
      assert nodes[..|nodes|] == nodes;
      MissingNone(nodes[..|nodes| - 1], meta);
    }
  }

  lemma {:induction false} ChangedNone(
    nodes: seq<LineageNode>, base: map<LineageNode, NodeMeta>, candidate: map<LineageNode, NodeMeta>)
    ensures ChangedNodes(nodes, base, candidate) == []
       <==> forall n :: n in Elements(nodes) && n in base && n in candidate ==> base[n] == candidate[n]
  {
    if nodes != [] {
      var rest, last := nodes[..|nodes| - 1], nodes[|nodes| - 1];
      TakeOneMore(nodes, |nodes| - 1);
      assert nodes[..|nodes|] == nodes;
      ChangedNone(rest, base, candidate);
      if last in base && last in candidate {
        assert MetaChanges(base[last], candidate[last]) == [] <==> base[last] == candidate[last];
      }
    }
  }

  lemma NodesUnreported(base: GraphView, candidate: GraphView)
    requires IsView(base) && IsView(candidate)
    ensures var r := DiffOf(base, candidate);
            r.nodesAdded == [] && r.nodesRemoved == [] && r.nodesChanged == [] <==> base.meta == candidate.meta
  {
    MissingNone(candidate.nodes, base.meta);
    MissingNone(base.nodes, candidate.meta);
    ChangedNone(candidate.nodes, base.meta, candidate.meta);
  }

  /** The diff is empty exactly when the graphs have equal node metadata and equal bags of edges. */
  lemma EmptyExactly(base: GraphView, candidate: GraphView)
    requires IsView(base) && IsView(candidate)
    ensures IsEmpty(DiffOf(base, candidate))
       <==> base.meta == candidate.meta && multiset(base.edges) == multiset(candidate.edges)
  {
    NodesUnreported(base, candidate);
    SameBagsEverywhere(base, candidate);
    if NoEdgesReported(DiffOf(base, candidate)) {
      forall key ensures SameBagAt(base, candidate, key) {
        UnreportedKey(base, candidate, key);
      }
    } else if forall key :: SameBagAt(base, candidate, key) {
      SameBagsUnreported(base, candidate);
    }
  }
}
