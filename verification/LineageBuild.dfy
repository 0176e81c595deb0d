/**
 Building the lineage graph from a compilation and walking it
 (crates/phlo-transform-core/src/lineage.rs).

 `Plan` lists what the passes over a compilation insert, in their order; the
 class performs the insertions on its fields.
 */
module LineageBuild {
  import opened Wrappers
  import opened Collections
  import opened Ordering
  import opened Identity
  import opened Digraph
  import opened Graph
  import opened Lineage
  import opened LineageWalk

  // -- What a compilation says about lineage -------------------------------------------------------

  datatype ColumnRead = ColumnRead(
    relation: Dependency,
    column: string,
    directness: Directness,
    transformation: Transformation,
    confidence: Confidence,
    expression: Option<string>)

  datatype SchemaColumn = SchemaColumn(
    name: string,
    dataType: string,
    nullability: string,
    confidence: Confidence,
    inputs: seq<ColumnRead>)

  datatype CompiledModel = CompiledModel(
    node: Node,
    path: Option<string>,
    version: string,
    materialization: string,
    target: string,
    workflow: Option<string>,
    columns: seq<SchemaColumn>)

  /** A source, with the path of the seed that fills it. */
  datatype CompiledSource = CompiledSource(id: SourceId, seed: Option<string>)

  datatype CompiledTest = CompiledTest(
    id: string,
    path: Option<string>,
    generated: bool,
    targets: seq<ModelId>,
    sources: seq<SourceId>)

  datatype Compilation = Compilation(
    models: seq<CompiledModel>,
    sources: seq<CompiledSource>,
    tests: seq<CompiledTest>)

  const EPHEMERAL := "ephemeral"

  function SchedulingNodes(models: seq<CompiledModel>): seq<Node> {
    seq(|models|, i requires 0 <= i < |models| => models[i].node)
  }

  /** The graph that schedules the same models. */
  function Scheduling(c: Compilation): ModelGraph {
    GraphOf(SchedulingNodes(c.models))
  }

  // -- Insertions ----------------------------------------------------------------------------------------

  datatype Content = Content(meta: map<LineageNode, NodeMeta>, edges: seq<GraphEdge>)

  datatype Step = Ensure(node: LineageNode, meta: NodeMeta) | Link(edge: GraphEdge)

  const EMPTY := Content(map[], [])

  /** A known node gains metadata; an edge needs both its ends and is kept once. */
  function After(c: Content, s: Step): Content {
    match s
    case Ensure(node, meta) =>
      c.(meta := c.meta[node := if node in c.meta then Merged(c.meta[node], meta) else meta])
    case Link(edge) =>
      if edge.from in c.meta && edge.to in c.meta && edge !in c.edges then c.(edges := c.edges + [edge]) else c
  }

  function Run(c: Content, steps: seq<Step>): Content {
    if steps == [] then c else After(Run(c, steps[..|steps| - 1]), steps[|steps| - 1])
  }

  function Flatten<T>(items: seq<T>, f: T -> seq<Step>): seq<Step> {
    if items == [] then [] else Flatten(items[..|items| - 1], f) + f(items[|items| - 1])
  }

  function DatasetParts(relation: Dependency): seq<string> {
    match relation
    case OnModel(id) => Segments(id)
    case OnSource(source) => source.parts
  }

  function OutputOf(id: ModelId): LineageNode {
    Dataset(Segments(id))
  }

  function ModelMeta(m: CompiledModel): NodeMeta {
    EMPTY_META.(
      path := m.path, version := Some(m.version), materialization := Some(m.materialization), workflow := m.workflow)
  }

  /** An ephemeral model has no relation to name. */
  function OutputMeta(m: CompiledModel): NodeMeta {
    EMPTY_META.(
      datasetKind := Some(ModelData),
      target := if m.materialization == EPHEMERAL then None else Some(m.target),
      materialization := Some(m.materialization))
  }

  function ModelSteps(m: CompiledModel): seq<Step> {
    var id := m.node.id;
    [Ensure(Model(id), ModelMeta(m)),
     Ensure(OutputOf(id), OutputMeta(m)),
     Link(GraphEdge(Model(id), OutputOf(id), Plain(Output)))]
  }

  function SourceSteps(s: CompiledSource): seq<Step> {
    var kind := if s.seed.Some? then SeedData else SourceData;
    [Ensure(Dataset(s.id.parts), EMPTY_META.(datasetKind := Some(kind), path := s.seed))]
  }

  function DependencySteps(id: ModelId, d: Dependency): seq<Step> {
    var input := Dataset(DatasetParts(d));
    [Link(GraphEdge(input, Model(id), Plain(Input)))]
    + (if d.OnModel? then [Link(GraphEdge(Model(d.id), Model(id), Plain(Derives)))] else [])
    + [Link(GraphEdge(input, OutputOf(id), Plain(Derives)))]
  }

  function DependencyStepsOf(id: ModelId): Dependency -> seq<Step> {
    d => DependencySteps(id, d)
  }

  function DependsSteps(m: CompiledModel): seq<Step> {
    Flatten(m.node.dependencies, DependencyStepsOf(m.node.id))
  }

  function FromInput(r: ColumnRead): Edge {
    Edge(Derives, Some(r.directness), Some(r.transformation), Some(r.confidence), r.expression)
  }

  function ReadSteps(target: LineageNode, r: ColumnRead): seq<Step> {
    var source := Column(DatasetParts(r.relation), r.column);
    [Ensure(source, EMPTY_META),
     Link(GraphEdge(Dataset(DatasetParts(r.relation)), source, Plain(Contains))),
     Link(GraphEdge(source, target, FromInput(r)))]
  }

  function ReadStepsOf(target: LineageNode): ColumnRead -> seq<Step> {
    r => ReadSteps(target, r)
  }

  function ColumnMeta(c: SchemaColumn): NodeMeta {
    EMPTY_META.(dataType := Some(c.dataType), nullability := Some(c.nullability), confidence := Some(c.confidence))
  }

  function ColumnSteps(id: ModelId, c: SchemaColumn): seq<Step> {
    var target := Column(Segments(id), c.name);
    [Ensure(target, ColumnMeta(c)), Link(GraphEdge(OutputOf(id), target, Plain(Contains)))]
    + Flatten(c.inputs, ReadStepsOf(target))
  }

  function ColumnStepsOf(id: ModelId): SchemaColumn -> seq<Step> {
    c => ColumnSteps(id, c)
  }

  function SchemaSteps(m: CompiledModel): seq<Step> {
    Flatten(m.columns, ColumnStepsOf(m.node.id))
  }

  function TestedStepsOf(test: LineageNode): seq<string> -> seq<Step> {
    parts => [Link(GraphEdge(Dataset(parts), test, Plain(Tests)))]
  }

  function TestedParts(t: CompiledTest): seq<seq<string>> {
    seq(|t.targets|, i requires 0 <= i < |t.targets| => Segments(t.targets[i]))
    + seq(|t.sources|, i requires 0 <= i < |t.sources| => t.sources[i].parts)
  }

  function TestSteps(t: CompiledTest): seq<Step> {
    [Ensure(Test(t.id), EMPTY_META.(path := t.path, generated := t.generated))]
    + Flatten(TestedParts(t), TestedStepsOf(Test(t.id)))
  }

  /** Models and their outputs, then sources: every dataset the graph will have. */
  function EarlySteps(c: Compilation): seq<Step> {
    Flatten(c.models, ModelSteps) + Flatten(c.sources, SourceSteps)
  }

  /** Dependencies, columns, tests. */
  function LateSteps(c: Compilation): seq<Step> {
    Flatten(c.models, DependsSteps) + Flatten(c.models, SchemaSteps) + Flatten(c.tests, TestSteps)
  }

  function Plan(c: Compilation): seq<Step> {
    EarlySteps(c) + LateSteps(c)
  }

  lemma {:induction false} RunConcat(c: Content, a: seq<Step>, b: seq<Step>)
    ensures Run(c, a + b) == Run(Run(c, a), b)
  {
    if b == [] {
      assert a + b == a;
    } else {
      var rest, last := b[..|b| - 1], b[|b| - 1];
      assert (a + b)[..|a + b| - 1] == a + rest;
      RunConcat(c, a, rest);
    }
  }

  lemma RunOne(c: Content, steps: seq<Step>, s: Step)
    ensures Run(c, steps + [s]) == After(Run(c, steps), s)
  {
    assert (steps + [s])[..|steps|] == steps;
  }

  lemma FlattenNext<T>(items: seq<T>, i: nat, f: T -> seq<Step>)
    requires i < |items|
    ensures Flatten(items[..i + 1], f) == Flatten(items[..i], f) + f(items[i])
  {
    assert items[..i + 1][..i] == items[..i];
  }

  /** Inserting for one more item continues from what the items before left. */
  lemma RunNext<T>(c: Content, items: seq<T>, i: nat, f: T -> seq<Step>)
    requires i < |items|
    ensures Run(c, Flatten(items[..i + 1], f)) == Run(Run(c, Flatten(items[..i], f)), f(items[i]))
  {
    FlattenNext(items, i, f);
    RunConcat(c, Flatten(items[..i], f), f(items[i]));
  }

  lemma RunSingle(c: Content, s: Step)
    ensures Run(c, [s]) == After(c, s)
  {
    RunOne(c, [], s);
    assert [] + [s] == [s];
  }

  lemma RunThree(c: Content, a: Step, b: Step, d: Step)
    ensures Run(c, [a, b, d]) == After(After(After(c, a), b), d)
    ensures Run(c, [a, b]) == After(After(c, a), b)
  {
    RunSingle(c, a);
    RunOne(c, [a], b);
    RunOne(c, [a, b], d);
    assert [a] + [b] == [a, b] && [a, b] + [d] == [a, b, d];
  }

  // -- The graph object ----------------------------------------------------------------------------------

  class LineageGraph {
    var nodes: seq<LineageNode>
    var meta: map<LineageNode, NodeMeta>
    var edges: seq<GraphEdge>

    ghost predicate Valid()
      reads this
    {
      && Distinct(nodes) && Elements(nodes) == meta.Keys
      && Distinct(edges)
      && forall e :: e in edges ==> e.from in meta && e.to in meta
    }

    ghost function State(): Content
      reads this
    {
      Content(meta, edges)
    }

    constructor Build(c: Compilation)
      ensures Valid() && State() == Run(EMPTY, Plan(c))
    {
      nodes, meta, edges := [], map[], [];
      new;
      AddModels(c.models);
      AddSources(c.sources);
      RunConcat(EMPTY, Flatten(c.models, ModelSteps), Flatten(c.sources, SourceSteps));
      assert State() == Run(EMPTY, EarlySteps(c));
      AddDependencies(c.models);
      AddSchemas(c.models);
      AddTests(c.tests);
      ghost var early := Run(EMPTY, EarlySteps(c));
      RunConcat(early, Flatten(c.models, DependsSteps), Flatten(c.models, SchemaSteps));
      RunConcat(early, Flatten(c.models, DependsSteps) + Flatten(c.models, SchemaSteps), Flatten(c.tests, TestSteps));
      RunConcat(EMPTY, EarlySteps(c), LateSteps(c));
    }

    method EnsureNode(node: LineageNode, found: NodeMeta)
      requires Valid()
      modifies this`nodes, this`meta
      ensures Valid() && State() == After(old(State()), Ensure(node, found))
    {
      if node in meta {
        meta := meta[node := Merged(meta[node], found)];
      } else {
        assert node !in Elements(nodes);
        assert Elements(nodes + [node]) == Elements(nodes) + {node};
        nodes := nodes + [node];
        meta := meta[node := found];
      }
    }

    method AddEdge(from: LineageNode, to: LineageNode, edge: Edge)
      requires Valid()
      modifies this`edges
      ensures Valid() && State() == After(old(State()), Link(GraphEdge(from, to, edge)))
    {
      if from in meta && to in meta {
        if GraphEdge(from, to, edge) !in edges {
          edges := edges + [GraphEdge(from, to, edge)];
        }
      }
    }

    method AddModels(models: seq<CompiledModel>)
      requires Valid()
      modifies this
      ensures Valid() && State() == Run(old(State()), Flatten(models, ModelSteps))
    {
      for i := 0 to |models|
        invariant Valid() && State() == Run(old(State()), Flatten(models[..i], ModelSteps))
      {
        var m := models[i];
        ghost var before := State();
        EnsureNode(Model(m.node.id), ModelMeta(m));
        EnsureNode(OutputOf(m.node.id), OutputMeta(m));
        AddEdge(Model(m.node.id), OutputOf(m.node.id), Plain(Output));
        RunThree(before, ModelSteps(m)[0], ModelSteps(m)[1], ModelSteps(m)[2]);
        RunNext(old(State()), models, i, ModelSteps);
      }
      assert models[..|models|] == models;
    }

    method AddSources(sources: seq<CompiledSource>)
      requires Valid()
      modifies this
      ensures Valid() && State() == Run(old(State()), Flatten(sources, SourceSteps))
    {
      for i := 0 to |sources|
        invariant Valid() && State() == Run(old(State()), Flatten(sources[..i], SourceSteps))
      {
        var s := sources[i];
        ghost var before := State();
        if s.seed.Some? {
          EnsureNode(Dataset(s.id.parts), EMPTY_META.(datasetKind := Some(SeedData), path := s.seed));
        } else {
          EnsureNode(Dataset(s.id.parts), EMPTY_META.(datasetKind := Some(SourceData)));
        }
        RunSingle(before, SourceSteps(s)[0]);
        RunNext(old(State()), sources, i, SourceSteps);
      }
      assert sources[..|sources|] == sources;
    }

    method AddDependency(id: ModelId, d: Dependency)
      requires Valid()
      modifies this
      ensures Valid() && State() == Run(old(State()), DependencySteps(id, d))
    {
      var input := Dataset(DatasetParts(d));
      AddEdge(input, Model(id), Plain(Input));
      if d.OnModel? {
        AddEdge(Model(d.id), Model(id), Plain(Derives));
      }
      AddEdge(input, OutputOf(id), Plain(Derives));
      ghost var steps := DependencySteps(id, d);
      if d.OnModel? {
        RunThree(old(State()), steps[0], steps[1], steps[2]);
        assert steps == [steps[0], steps[1], steps[2]];
      } else {
        RunThree(old(State()), steps[0], steps[1], steps[1]);
        assert steps == [steps[0], steps[1]];
      }
    }

    method AddDependencies(models: seq<CompiledModel>)
      requires Valid()
      modifies this
      ensures Valid() && State() == Run(old(State()), Flatten(models, DependsSteps))
    {
      for i := 0 to |models|
        invariant Valid() && State() == Run(old(State()), Flatten(models[..i], DependsSteps))
      {
        var m := models[i];
        ghost var before := State();
        ghost var f := DependencyStepsOf(m.node.id);
        for k := 0 to |m.node.dependencies|
          invariant Valid() && State() == Run(before, Flatten(m.node.dependencies[..k], f))
        {
          AddDependency(m.node.id, m.node.dependencies[k]);
          RunNext(before, m.node.dependencies, k, f);
        }
        assert m.node.dependencies[..|m.node.dependencies|] == m.node.dependencies;
        RunNext(old(State()), models, i, DependsSteps);
      }
      assert models[..|models|] == models;
    }

    method AddRead(target: LineageNode, r: ColumnRead)
      requires Valid()
      modifies this
      ensures Valid() && State() == Run(old(State()), ReadSteps(target, r))
    {
      var source := Column(DatasetParts(r.relation), r.column);
      EnsureNode(source, EMPTY_META);
      AddEdge(Dataset(DatasetParts(r.relation)), source, Plain(Contains));
      AddEdge(source, target, FromInput(r));
      RunThree(old(State()), ReadSteps(target, r)[0], ReadSteps(target, r)[1], ReadSteps(target, r)[2]);
    }

    method AddColumn(id: ModelId, c: SchemaColumn)
      requires Valid()
      modifies this
      ensures Valid() && State() == Run(old(State()), ColumnSteps(id, c))
    {
      var target := Column(Segments(id), c.name);
      EnsureNode(target, ColumnMeta(c));
      AddEdge(OutputOf(id), target, Plain(Contains));
      ghost var own := ColumnSteps(id, c)[..2];
      RunThree(old(State()), own[0], own[1], own[1]);
      assert own == [own[0], own[1]];
      ghost var f := ReadStepsOf(target);
      for i := 0 to |c.inputs|
        invariant Valid() && State() == Run(Run(old(State()), own), Flatten(c.inputs[..i], f))
      {
        AddRead(target, c.inputs[i]);
        RunNext(Run(old(State()), own), c.inputs, i, f);
      }
      assert c.inputs[..|c.inputs|] == c.inputs;
      RunConcat(old(State()), own, Flatten(c.inputs, f));
      assert own + Flatten(c.inputs, f) == ColumnSteps(id, c);
    }

    method AddSchemas(models: seq<CompiledModel>)
      requires Valid()
      modifies this
      ensures Valid() && State() == Run(old(State()), Flatten(models, SchemaSteps))
    {
      for i := 0 to |models|
        invariant Valid() && State() == Run(old(State()), Flatten(models[..i], SchemaSteps))
      {
        var m := models[i];
        ghost var before := State();
        ghost var f := ColumnStepsOf(m.node.id);
        for k := 0 to |m.columns|
          invariant Valid() && State() == Run(before, Flatten(m.columns[..k], f))
        {
          AddColumn(m.node.id, m.columns[k]);
          RunNext(before, m.columns, k, f);
        }
        assert m.columns[..|m.columns|] == m.columns;
        RunNext(old(State()), models, i, SchemaSteps);
      }
      assert models[..|models|] == models;
    }

    method AddTested(test: LineageNode, datasets: seq<seq<string>>)
      requires Valid()
      modifies this
      ensures Valid() && State() == Run(old(State()), Flatten(datasets, TestedStepsOf(test)))
    {
      for i := 0 to |datasets|
        invariant Valid() && State() == Run(old(State()), Flatten(datasets[..i], TestedStepsOf(test)))
      {
        ghost var before := State();
        AddEdge(Dataset(datasets[i]), test, Plain(Tests));
        RunSingle(before, Link(GraphEdge(Dataset(datasets[i]), test, Plain(Tests))));
        RunNext(old(State()), datasets, i, TestedStepsOf(test));
      }
      assert datasets[..|datasets|] == datasets;
    }

    method AddTest(t: CompiledTest)
      requires Valid()
      modifies this
      ensures Valid() && State() == Run(old(State()), TestSteps(t))
    {
      var test := Test(t.id);
      EnsureNode(test, EMPTY_META.(path := t.path, generated := t.generated));
      ghost var own := TestSteps(t)[..1];
      RunSingle(old(State()), own[0]);
      assert own == [own[0]];
      AddTested(test, TestedParts(t));
      RunConcat(old(State()), own, Flatten(TestedParts(t), TestedStepsOf(test)));
      assert own + Flatten(TestedParts(t), TestedStepsOf(test)) == TestSteps(t);
    }

    method AddTests(tests: seq<CompiledTest>)
      requires Valid()
      modifies this
      ensures Valid() && State() == Run(old(State()), Flatten(tests, TestSteps))
    {
      for i := 0 to |tests|
        invariant Valid() && State() == Run(old(State()), Flatten(tests[..i], TestSteps))
      {
        AddTest(tests[i]);
        RunNext(old(State()), tests, i, TestSteps);
      }
      assert tests[..|tests|] == tests;
    }

    // -- Walking ---------------------------------------------------------------------------------------

    /** One hop, in node order and without repeats. */
    method Neighbors(node: LineageNode, incoming: bool) returns (found: seq<LineageNode>)
      ensures Elements(found) == Next(Links(edges, incoming), node)
      ensures Distinct(found) && Sorted(NodeLess, found)
    {
      found := [];
      for i := 0 to |edges|
        invariant Elements(found) == Next(Links(edges[..i], incoming), node)
      {
        var (here, there) := if incoming then (edges[i].to, edges[i].from) else (edges[i].from, edges[i].to);
        TakeOneMore(edges, i);
        LinksNext(edges, i, incoming);
        assert Next(Links(edges[..i + 1], incoming), node)
            == Next(Links(edges[..i], incoming), node) + if here == node then {there} else {};
        if here == node {
          assert Elements(found + [there]) == Elements(found) + {there};
          found := found + [there];
        }
      }
      assert edges[..|edges|] == edges;
      NodeLessTotal();
      SortedSetIsSet(NodeLess, found);
      found := SortedSet(NodeLess, found);
    }

    /** Breadth first from a node, which itself is found only around a cycle. */
    method Walk(node: LineageNode, incoming: bool) returns (found: seq<LineageNode>)
      ensures Elements(found) == Reached(Links(edges, incoming), node)
      ensures Distinct(found) && Sorted(NodeLess, found)
    {
      ghost var links := Links(edges, incoming);
      var visited: set<LineageNode> := {};
      found := [];
      var frontier := [node];
      while frontier != []
        invariant Elements(found) == visited <= Reached(links, node)
        invariant Elements(frontier) <= visited + {node}
        invariant Settled(links, node, visited, Elements(frontier))
        decreases Reached(links, node) - visited, |frontier|
      {
        var current := frontier[0];
        assert Elements(frontier) == {current} + Elements(frontier[1..]);
        var neighbors := Neighbors(current, incoming);
        NextIsReached(links, node, current);
        ghost var before, rest := visited, frontier[1..];
        var added;
        visited, added := Visit(visited, neighbors);
        assert Elements(frontier[1..] + added) == Elements(frontier[1..]) + Elements(added);
        assert Elements(found + added) == Elements(found) + Elements(added);
        found := found + added;
        frontier := frontier[1..] + added;
        if added == [] {
          assert visited == before && frontier == rest;
        } else {
          assert added[0] in Elements(added);
        }
      }
      SettledIsAll(links, node, visited);
      NodeLessTotal();
      SortedSetIsSet(NodeLess, found);
      found := SortedSet(NodeLess, found);
    }

    /** The nodes among these that are new, in order. */
    static method Visit(before: set<LineageNode>, nodes: seq<LineageNode>)
      returns (visited: set<LineageNode>, added: seq<LineageNode>)
      ensures visited == before + Elements(nodes) && Elements(added) == Elements(nodes) - before
    {
      visited, added := before, [];
      for i := 0 to |nodes|
        invariant visited == before + Elements(nodes[..i]) && Elements(added) == Elements(nodes[..i]) - before
      {
        TakeOneMore(nodes, i);
        if nodes[i] !in visited {
          assert Elements(added + [nodes[i]]) == Elements(added) + {nodes[i]};
          visited := visited + {nodes[i]};
          added := added + [nodes[i]];
        }
      }
      assert nodes[..|nodes|] == nodes;
    }
  }
}
