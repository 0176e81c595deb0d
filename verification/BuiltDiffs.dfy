/**
 Diffs of graphs that building makes: each is in the order readers expect, and
 two of them show a list of removed edges that is not
 (crates/phlo-transform-core/src/lineage.rs,
 crates/phlo-transform-core/src/lineage_diff.rs).
 */
module BuiltDiffs {
  import opened Wrappers
  import opened Collections
  import opened Ordering
  import opened Identity
  import opened Graph
  import opened Lineage
  import opened LineageBuild
  import opened LineageAgrees
  import opened LineageDiff
  import opened DiffOrder

  // -- A built graph as its readers see it ------------------------------------------------------------

  function PlannedNodes(steps: seq<Step>): seq<LineageNode> {
    if steps == [] then []
    else
      var last := steps[|steps| - 1];
      PlannedNodes(steps[..|steps| - 1]) + (if last.Ensure? then [last.node] else [])
  }

  function ViewOf(c: Compilation): GraphView {
    GraphView(SortedSet(NodeLess, PlannedNodes(Plan(c))), Built(c).meta, Built(c).edges)
  }

  lemma {:induction false} PlannedAreEnsured(steps: seq<Step>)
    ensures Elements(PlannedNodes(steps)) == Ensured(steps)
  {
    if steps != [] {
      var rest, last := steps[..|steps| - 1], steps[|steps| - 1];
      PlannedAreEnsured(rest);
      LastStep(steps);
      if last.Ensure? {
        assert Elements(PlannedNodes(rest) + [last.node]) == Elements(PlannedNodes(rest)) + {last.node};
      }
    }
  }

  lemma {:induction false} EdgesOnce(c: Content, steps: seq<Step>)
    requires Distinct(c.edges)
    ensures Distinct(Run(c, steps).edges)
  {
    if steps != [] {
      EdgesOnce(c, steps[..|steps| - 1]);
    }
  }

  /** Building gives nodes in order, no edge twice, and none without its ends. */
  lemma BuiltIsView(c: Compilation)
    ensures IsView(ViewOf(c)) && Distinct(ViewOf(c).edges)
    ensures forall e :: e in ViewOf(c).edges ==> e.from in ViewOf(c).meta && e.to in ViewOf(c).meta
  {
    NodeLessTotal();
    SortedSetIsSet(NodeLess, PlannedNodes(Plan(c)));
    PlannedAreEnsured(Plan(c));
    RunBounds(EMPTY, Plan(c));
    EdgesOnce(EMPTY, Plan(c));
    RunEnds(EMPTY, Plan(c));
  }

  // -- Edges at a key -----------------------------------------------------------------------------------

  lemma {:induction false} EdgesAtAre(edges: seq<GraphEdge>, key: EdgeKey, x: Edge)
    ensures x in EdgesAt(edges, key) <==> x.kind == key.kind && GraphEdge(key.from, key.to, x) in edges
  {
    if edges != [] {
      EdgesAtAre(edges[1..], key, x);
      assert edges == [edges[0]] + edges[1..];
    }
  }

  lemma {:induction false} EdgesAtOnce(edges: seq<GraphEdge>, key: EdgeKey)
    requires Distinct(edges)
    ensures Distinct(EdgesAt(edges, key))
  {
    if edges != [] {
      EdgesAtOnce(edges[1..], key);
      EdgesAtAre(edges[1..], key, edges[0].edge);
      forall i | 0 <= i < |edges| - 1 ensures edges[1..][i] != edges[0] {
      }
    }
  }

  lemma BagSize(g: GraphView, key: EdgeKey)
    ensures |BagAt(g, key)| == |EdgesAt(g.edges, key)|
  {
    assert |multiset(BagAt(g, key))| == |BagAt(g, key)| && |multiset(EdgesAt(g.edges, key))| == |EdgesAt(g.edges, key)|;
  }

  /** What both graphs have at the key, and one edge more in the first. */
  ghost predicate HasMoreAt(base: GraphView, candidate: GraphView, a: GraphEdge, b: GraphEdge) {
    && a != b && KeyOf(a) == KeyOf(b) && a in base.edges && b in base.edges && a in candidate.edges
    && forall e :: e in candidate.edges && KeyOf(e) == KeyOf(a) ==> e == a
  }

  lemma MoreEdgesAt(base: GraphView, candidate: GraphView, a: GraphEdge, b: GraphEdge)
    requires HasMoreAt(base, candidate, a, b) && Distinct(candidate.edges)
    ensures |BagAt(base, KeyOf(a))| > |BagAt(candidate, KeyOf(a))|
  {
    var key := KeyOf(a);
    BagSize(base, key);
    BagSize(candidate, key);
    EdgesAtAre(base.edges, key, a.edge);
    EdgesAtAre(base.edges, key, b.edge);
    var first, second := EdgesAt(base.edges, key), EdgesAt(candidate.edges, key);
    TwoMembers(first, a.edge, b.edge);
    EdgesAtOnce(candidate.edges, key);
    forall x | x in second ensures x == a.edge {
      EdgesAtAre(candidate.edges, key, x);
    }
    OneMember(second, a.edge);
  }

  lemma OneMember<T>(s: seq<T>, x: T)
    requires Distinct(s) && forall y :: y in s ==> y == x
    ensures |s| <= 1
  {
    DistinctSize(s);
    SubsetSize(Elements(s), {x});
  }

  lemma TwoMembers<T>(s: seq<T>, x: T, y: T)
    requires x in s && y in s && x != y
    ensures |s| >= 2
  {
  }

  lemma KeyPresent(g: GraphView, e: GraphEdge)
    ensures e in g.edges ==> KeyOf(e) in EdgeKeys(g)
    ensures KeyOf(e) in EdgeKeys(g) ==> exists x :: x in g.edges && KeyOf(x) == KeyOf(e)
  {
    NoEdgesAt(g, KeyOf(e));
    EdgesAtAre(g.edges, KeyOf(e), e.edge);
    if KeyOf(e) in EdgeKeys(g) {
      var x := EdgesAt(g.edges, KeyOf(e))[0];
      EdgesAtAre(g.edges, KeyOf(e), x);
    }
  }

  /** The base has one edge more at a key both have, and an edge at a smaller key that the candidate lacks. */
  lemma MoreAndOnly(base: GraphView, candidate: GraphView, a: GraphEdge, b: GraphEdge, gone: GraphEdge)
    requires HasMoreAt(base, candidate, a, b) && Distinct(candidate.edges)
    requires gone in base.edges && KeyLess(KeyOf(gone), KeyOf(a))
    requires forall e :: e in candidate.edges ==> KeyOf(e) != KeyOf(gone)
    ensures !InOrder(KeyOf, DiffOf(base, candidate).edgesRemoved)
  {
    MoreEdgesAt(base, candidate, a, b);
    KeyPresent(candidate, a);
    KeyPresent(base, gone);
    KeyPresent(candidate, gone);
    OvertakenIsUnsorted(base, candidate, KeyOf(a), KeyOf(gone));
  }

  // -- What of a compilation becomes an edge -------------------------------------------------------------

  lemma PlannedRead(c: Compilation, e: GraphEdge)
    requires e in Built(c).edges && e.from.Column? && e.edge.kind == Derives
    ensures exists m, column, r ::
              m in c.models && column in m.columns && r in column.inputs && e == ReadEdge(m, column, r)
  {
    BuiltIsPlanned(c, e);
    PlannedBy(c, Link(e));
    var m :| m in c.models && Link(e) in SchemaSteps(m);
    SchemaRead(m, e);
  }

  lemma SchemaRead(m: CompiledModel, e: GraphEdge)
    requires Link(e) in SchemaSteps(m) && e.from.Column? && e.edge.kind == Derives
    ensures exists column, r :: column in m.columns && r in column.inputs && e == ReadEdge(m, column, r)
  {
    FlattenMember(m.columns, ColumnStepsOf(m.node.id), Link(e));
    var column :| column in m.columns && Link(e) in ColumnSteps(m.node.id, column);
    var target := Column(Segments(m.node.id), column.name);
    FlattenMember(column.inputs, ReadStepsOf(target), Link(e));
    var r :| r in column.inputs && Link(e) in ReadSteps(target, r);
    assert e == ReadEdge(m, column, r);
  }

  lemma BuiltIsPlanned(c: Compilation, e: GraphEdge)
    requires e in Built(c).edges
    ensures Link(e) in Plan(c)
  {
    EdgesExactly(c);
    assert e in Elements(Built(c).edges);
  }

  lemma PlannedInput(c: Compilation, e: GraphEdge)
    requires e in Built(c).edges && e.edge.kind == Input
    ensures exists m, d :: m in c.models && d in m.node.dependencies && e == InputEdge(m.node.id, d)
  {
    BuiltIsPlanned(c, e);
    PlannedBy(c, Link(e));
    var m :| m in c.models && Link(e) in DependsSteps(m);
    FlattenMember(m.node.dependencies, DependencyStepsOf(m.node.id), Link(e));
    var d :| d in m.node.dependencies && Link(e) in DependencySteps(m.node.id, d);
    assert e == InputEdge(m.node.id, d);
  }

  function InputEdge(id: ModelId, d: Dependency): GraphEdge {
    GraphEdge(Dataset(DatasetParts(d)), Model(id), Plain(Input))
  }

  /** Which pass plans an edge between columns, or from a dataset to its reader. */
  lemma PlannedBy(c: Compilation, s: Step)
    requires s in Plan(c) && s.Link?
    ensures s.edge.edge.kind == Derives && s.edge.from.Column? ==> exists m :: m in c.models && s in SchemaSteps(m)
    ensures s.edge.edge.kind == Input ==> exists m :: m in c.models && s in DependsSteps(m)
  {
    FlattenMember(c.models, ModelSteps, s);
    FlattenMember(c.sources, SourceSteps, s);
    FlattenMember(c.models, DependsSteps, s);
    FlattenMember(c.models, SchemaSteps, s);
    FlattenMember(c.tests, TestSteps, s);
    if m :| m in c.models && s in DependsSteps(m) {
      FlattenMember(m.node.dependencies, DependencyStepsOf(m.node.id), s);
    } else if m :| m in c.models && s in SchemaSteps(m) {
      SchemaIsNoInput(m, s);
    } else if t :| t in c.tests && s in TestSteps(t) {
      FlattenMember(TestedParts(t), TestedStepsOf(Test(t.id)), s);
    }
  }

  lemma SchemaIsNoInput(m: CompiledModel, s: Step)
    requires s in SchemaSteps(m) && s.Link?
    ensures s.edge.edge.kind != Input
  {
    FlattenMember(m.columns, ColumnStepsOf(m.node.id), s);
    var column :| column in m.columns && s in ColumnSteps(m.node.id, column);
    FlattenMember(column.inputs, ReadStepsOf(Column(Segments(m.node.id), column.name)), s);
  }

  lemma EndsPlanned(c: Compilation, m: CompiledModel, source: CompiledSource)
    requires m in c.models && source in c.sources
    ensures {Model(m.node.id), Dataset(source.id.parts)} <= Ensured(Plan(c))
  {
    var first, second := ModelSteps(m)[0], SourceSteps(source)[0];
    FlattenMember(c.models, ModelSteps, first);
    FlattenMember(c.sources, SourceSteps, second);
    assert first in Plan(c) && second in Plan(c);
  }

  lemma InputIsPlanned(c: Compilation, m: CompiledModel, d: Dependency)
    requires m in c.models && d in m.node.dependencies
    ensures Link(InputEdge(m.node.id, d)) in Plan(c)
  {
    var s := Link(InputEdge(m.node.id, d));
    assert DependencySteps(m.node.id, d)[0] == s;
    FlattenMember(m.node.dependencies, DependencyStepsOf(m.node.id), s);
    FlattenMember(c.models, DependsSteps, s);
    assert s in DependsSteps(m);
  }

  lemma SourceInputIsBuilt(c: Compilation, m: CompiledModel, source: CompiledSource)
    requires m in c.models && OnSource(source.id) in m.node.dependencies && source in c.sources
    ensures InputEdge(m.node.id, OnSource(source.id)) in Built(c).edges
  {
    EndsPlanned(c, m, source);
    InputIsPlanned(c, m, OnSource(source.id));
    EdgesExactly(c);
    assert InputEdge(m.node.id, OnSource(source.id)) in Elements(Built(c).edges);
  }

  // -- The pair ---------------------------------------------------------------------------------------------

  const READER := ModelId("n", ["reader"])
  const LOOKED_UP := CompiledSource(SourceId(["s", "a"]), None)
  const SELECTED := CompiledSource(SourceId(["s", "b"]), None)

  /** The column `y` of the selected source, as the projection or as the condition reads it. */
  function Reading(directness: Directness): ColumnRead {
    var transformation := if directness.Direct? then Transformation.Identity else Filter;
    ColumnRead(OnSource(SELECTED.id), "y", directness, transformation, Exact, None)
  }

  /** One model with a column `y`. */
  function Reader(dependencies: seq<Dependency>, inputs: seq<ColumnRead>): Compilation {
    var model := CompiledModel(
      Node(READER, dependencies), None, "", "table", "n.reader", None,
      [SchemaColumn("y", "INTEGER", "unknown", Exact, inputs)]);
    Compilation([model], [LOOKED_UP, SELECTED], [])
  }

  /** SELECT b.y FROM s.b AS b, s.a AS a WHERE b.y > 0. */
  const BEFORE := Reader([OnSource(LOOKED_UP.id), OnSource(SELECTED.id)], [Reading(Direct), Reading(Indirect)])

  /** SELECT b.y FROM s.b AS b. */
  const AFTER := Reader([OnSource(SELECTED.id)], [Reading(Direct)])

  const READ_BEFORE := ReadEdge(BEFORE.models[0], BEFORE.models[0].columns[0], Reading(Direct))
  const FILTERED_BEFORE := ReadEdge(BEFORE.models[0], BEFORE.models[0].columns[0], Reading(Indirect))
  const LOOKED_UP_BEFORE := InputEdge(READER, OnSource(LOOKED_UP.id))

  lemma ReadsOfReader()
    ensures HasMoreAt(ViewOf(BEFORE), ViewOf(AFTER), READ_BEFORE, FILTERED_BEFORE)
  {
    var m, n := BEFORE.models[0], AFTER.models[0];
    assert m.columns[0].inputs[1] == Reading(Indirect);
    ReadIsBuilt(BEFORE, m, m.columns[0], Reading(Direct));
    ReadIsBuilt(BEFORE, m, m.columns[0], Reading(Indirect));
    ReadIsBuilt(AFTER, n, n.columns[0], Reading(Direct));
    forall x | x in Built(AFTER).edges && KeyOf(x) == KeyOf(READ_BEFORE) ensures x == READ_BEFORE {
      PlannedRead(AFTER, x);
    }
  }

  lemma InputsOfReader()
    ensures LOOKED_UP_BEFORE in Built(BEFORE).edges && KeyLess(KeyOf(LOOKED_UP_BEFORE), KeyOf(READ_BEFORE))
    ensures forall x :: x in Built(AFTER).edges ==> KeyOf(x) != KeyOf(LOOKED_UP_BEFORE)
  {
    assert BEFORE.models[0].node.dependencies[0] == OnSource(LOOKED_UP.id);
    SourceInputIsBuilt(BEFORE, BEFORE.models[0], LOOKED_UP);
    assert LOOKED_UP.id.parts[1][0] != SELECTED.id.parts[1][0];
    forall x | x in Built(AFTER).edges ensures KeyOf(x) != KeyOf(LOOKED_UP_BEFORE) {
      if KeyOf(x) == KeyOf(LOOKED_UP_BEFORE) {
        PlannedInput(AFTER, x);
      }
    }
  }

  /**
   Dropping the join with `s.a` and the condition on `y` removes the condition's
   read of `y`, one of two edges at its key, and listed after it the smaller key
   of the dependency on `s.a`.
   */
  lemma RemovedEdgesUnsorted()
    ensures IsView(ViewOf(BEFORE)) && IsView(ViewOf(AFTER))
    ensures !InOrder(KeyOf, DiffOf(ViewOf(BEFORE), ViewOf(AFTER)).edgesRemoved)
  {
    BuiltIsView(BEFORE);
    BuiltIsView(AFTER);
    ReadsOfReader();
    InputsOfReader();
    MoreAndOnly(ViewOf(BEFORE), ViewOf(AFTER), READ_BEFORE, FILTERED_BEFORE, LOOKED_UP_BEFORE);
  }
}
