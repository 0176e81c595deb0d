/**
 What the built lineage graph contains, and its agreement with the graph that
 schedules the same models (crates/phlo-transform-core/src/lineage.rs,
 crates/phlo-transform-core/src/graph.rs).
 */
module LineageAgrees {
  import opened Wrappers
  import opened Collections
  import opened Identity
  import opened Digraph
  import opened Graph
  import opened Lineage
  import opened LineageWalk
  import opened LineageBuild
  import Resolve

  function Built(c: Compilation): Content {
    Run(EMPTY, Plan(c))
  }

  // -- Insertions, one by one ------------------------------------------------------------------------

  ghost function Ensured(steps: seq<Step>): set<LineageNode> {
    set s | s in steps && s.Ensure? :: s.node
  }

  ghost function Linked(steps: seq<Step>): set<GraphEdge> {
    set s | s in steps && s.Link? :: s.edge
  }

  lemma LastStep(steps: seq<Step>)
    requires steps != []
    ensures var rest, last := steps[..|steps| - 1], steps[|steps| - 1];
            && Ensured(steps) == Ensured(rest) + (if last.Ensure? then {last.node} else {})
            && Linked(steps) == Linked(rest) + (if last.Link? then {last.edge} else {})
  {
    var rest, last := steps[..|steps| - 1], steps[|steps| - 1];
    forall s ensures s in steps <==> s in rest || s == last {
      assert steps == rest + [last];
    }
  }

  lemma {:induction false} RunBounds(c: Content, steps: seq<Step>)
    ensures Run(c, steps).meta.Keys == c.meta.Keys + Ensured(steps)
    ensures Elements(c.edges) <= Elements(Run(c, steps).edges) <= Elements(c.edges) + Linked(steps)
  {
    if steps != [] {
      var rest, last := steps[..|steps| - 1], steps[|steps| - 1];
      RunBounds(c, rest);
      LastStep(steps);
      var before := Run(c, rest);
      if last.Link? {
        assert Elements(before.edges + [last.edge]) == Elements(before.edges) + {last.edge};
      }
    }
  }

  /** A link whose ends are present when it comes is there at the end. */
  lemma LinkStays(c: Content, steps: seq<Step>, i: nat)
    requires i < |steps| && steps[i].Link?
    requires {steps[i].edge.from, steps[i].edge.to} <= c.meta.Keys + Ensured(steps[..i])
    ensures steps[i].edge in Run(c, steps).edges
  {
    var e := steps[i].edge;
    RunBounds(c, steps[..i]);
    var before := Run(c, steps[..i]);
    RunOne(c, steps[..i], steps[i]);
    assert steps[..i] + [steps[i]] == steps[..i + 1];
    var with := Run(c, steps[..i + 1]);
    assert e in with.edges;
    assert e in Elements(with.edges);
    assert steps == steps[..i + 1] + steps[i + 1..];
    RunConcat(c, steps[..i + 1], steps[i + 1..]);
    RunBounds(with, steps[i + 1..]);
    assert e in Elements(Run(c, steps).edges);
  }

  // -- Links come after the nodes they join --------------------------------------------------------------

  /** Columns and tests are inserted next to their edges, models and datasets before all others. */
  predicate IsLocal(n: LineageNode) {
    n.Column? || n.Test?
  }

  ghost predicate EndPlaced(steps: seq<Step>, i: nat, n: LineageNode, every: bool)
    requires i <= |steps|
  {
    every || IsLocal(n) ==> n in Ensured(steps[..i])
  }

  ghost predicate Placed(steps: seq<Step>, every: bool) {
    forall i :: 0 <= i < |steps| && steps[i].Link? ==>
      EndPlaced(steps, i, steps[i].edge.from, every) && EndPlaced(steps, i, steps[i].edge.to, every)
  }

  ghost predicate AddsLocalOnly(steps: seq<Step>) {
    forall s :: s in steps && s.Ensure? ==> IsLocal(s.node)
  }

  lemma PlacedConcat(a: seq<Step>, b: seq<Step>, every: bool)
    requires Placed(a, every) && Placed(b, every)
    ensures Placed(a + b, every)
  {
    var all := a + b;
    forall i | 0 <= i < |all| && all[i].Link?
      ensures EndPlaced(all, i, all[i].edge.from, every) && EndPlaced(all, i, all[i].edge.to, every)
    {
      if i < |a| {
        assert all[..i] == a[..i];
        assert all[i] == a[i];
      } else {
        assert all[..i] == a + b[..i - |a|];
        assert all[i] == b[i - |a|];
        assert Ensured(b[..i - |a|]) <= Ensured(all[..i]);
      }
    }
  }

  lemma {:induction false} FlattenPlaced<T>(items: seq<T>, f: T -> seq<Step>, every: bool)
    requires forall x :: x in items ==> Placed(f(x), every)
    ensures Placed(Flatten(items, f), every)
  {
    if items != [] {
      FlattenPlaced(items[..|items| - 1], f, every);
      PlacedConcat(Flatten(items[..|items| - 1], f), f(items[|items| - 1]), every);
    }
  }

  lemma {:induction false} FlattenMember<T>(items: seq<T>, f: T -> seq<Step>, s: Step)
    ensures s in Flatten(items, f) <==> exists x :: x in items && s in f(x)
  {
    if items != [] {
      var rest, last := items[..|items| - 1], items[|items| - 1];
      FlattenMember(rest, f, s);
      assert items == rest + [last];
    }
  }

  lemma {:induction false} FlattenLocal<T>(items: seq<T>, f: T -> seq<Step>)
    requires forall x :: x in items ==> AddsLocalOnly(f(x))
    ensures AddsLocalOnly(Flatten(items, f))
  {
    forall s | s in Flatten(items, f) && s.Ensure? ensures IsLocal(s.node) {
      FlattenMember(items, f, s);
    }
  }

  lemma ModelPlaced(m: CompiledModel)
    ensures Placed(ModelSteps(m), true)
  {
    var steps := ModelSteps(m);
    assert steps[0] in steps[..2] && steps[1] in steps[..2];
  }

  lemma ReadPlaced(target: LineageNode, r: ColumnRead, before: seq<Step>)
    requires target in Ensured(before) && IsLocal(target)
    ensures Placed(before, false) ==> Placed(before + ReadSteps(target, r), false)
    ensures AddsLocalOnly(ReadSteps(target, r))
    ensures target in Ensured(before + ReadSteps(target, r))
  {
    var steps := ReadSteps(target, r);
    var all := before + steps;
    assert all[..|before| + 1][|before|] == steps[0] && all[..|before| + 2][|before|] == steps[0];
    assert Ensured(before) <= Ensured(all) && Ensured(before) <= Ensured(all[..|before| + 2]);
    forall i | 0 <= i < |before| ensures all[..i] == before[..i] && all[i] == before[i] {
    }
  }

  lemma {:induction false} ReadsPlaced(target: LineageNode, inputs: seq<ColumnRead>, own: seq<Step>)
    requires target in Ensured(own) && IsLocal(target) && Placed(own, false)
    ensures Placed(own + Flatten(inputs, ReadStepsOf(target)), false)
    ensures target in Ensured(own + Flatten(inputs, ReadStepsOf(target)))
    ensures AddsLocalOnly(Flatten(inputs, ReadStepsOf(target)))
  {
    var f := ReadStepsOf(target);
    if inputs == [] {
      assert own + Flatten(inputs, f) == own;
    } else {
      var rest, last := inputs[..|inputs| - 1], inputs[|inputs| - 1];
      ReadsPlaced(target, rest, own);
      var before := own + Flatten(rest, f);
      ReadPlaced(target, last, before);
      assert own + Flatten(inputs, f) == before + ReadSteps(target, last);
    }
  }

  lemma ColumnPlaced(id: ModelId, c: SchemaColumn)
    ensures Placed(ColumnSteps(id, c), false) && AddsLocalOnly(ColumnSteps(id, c))
  {
    var target := Column(Segments(id), c.name);
    var steps := ColumnSteps(id, c);
    var own := steps[..2];
    assert own[0] in own && own[0] in own[..1];
    ReadsPlaced(target, c.inputs, own);
    assert steps == own + Flatten(c.inputs, ReadStepsOf(target));
  }

  lemma SchemaPlaced(m: CompiledModel)
    ensures Placed(SchemaSteps(m), false) && AddsLocalOnly(SchemaSteps(m))
  {
    var f := ColumnStepsOf(m.node.id);
    forall c | c in m.columns ensures Placed(f(c), false) && AddsLocalOnly(f(c)) {
      ColumnPlaced(m.node.id, c);
    }
    FlattenPlaced(m.columns, f, false);
    FlattenLocal(m.columns, f);
  }

  lemma DependsPlaced(m: CompiledModel)
    ensures Placed(DependsSteps(m), false) && AddsLocalOnly(DependsSteps(m))
  {
    FlattenPlaced(m.node.dependencies, DependencyStepsOf(m.node.id), false);
    FlattenLocal(m.node.dependencies, DependencyStepsOf(m.node.id));
  }

  lemma TestPlaced(t: CompiledTest)
    ensures Placed(TestSteps(t), false) && AddsLocalOnly(TestSteps(t))
  {
    var f := TestedStepsOf(Test(t.id));
    var steps := TestSteps(t);
    forall s | s in Flatten(TestedParts(t), f) ensures s.Link? && s.edge.to == Test(t.id) && s.edge.from.Dataset? {
      FlattenMember(TestedParts(t), f, s);
    }
    forall i | 0 <= i < |steps| && steps[i].Link?
      ensures EndPlaced(steps, i, steps[i].edge.from, false) && EndPlaced(steps, i, steps[i].edge.to, false)
    {
      assert steps[i] == Flatten(TestedParts(t), f)[i - 1];
      assert steps[0] in steps[..i];
    }
  }

  lemma EarlyPlaced(c: Compilation)
    ensures Placed(EarlySteps(c), true)
  {
    forall m | m in c.models ensures Placed(ModelSteps(m), true) {
      ModelPlaced(m);
    }
    FlattenPlaced(c.models, ModelSteps, true);
    FlattenPlaced(c.sources, SourceSteps, true);
    PlacedConcat(Flatten(c.models, ModelSteps), Flatten(c.sources, SourceSteps), true);
  }

  lemma LatePlaced(c: Compilation)
    ensures Placed(LateSteps(c), false) && AddsLocalOnly(LateSteps(c))
  {
    forall m | m in c.models
      ensures Placed(DependsSteps(m), false) && AddsLocalOnly(DependsSteps(m))
      ensures Placed(SchemaSteps(m), false) && AddsLocalOnly(SchemaSteps(m))
    {
      DependsPlaced(m);
      SchemaPlaced(m);
    }
    forall t | t in c.tests ensures Placed(TestSteps(t), false) && AddsLocalOnly(TestSteps(t)) {
      TestPlaced(t);
    }
    FlattenPlaced(c.models, DependsSteps, false);
    FlattenPlaced(c.models, SchemaSteps, false);
    FlattenPlaced(c.tests, TestSteps, false);
    FlattenLocal(c.models, DependsSteps);
    FlattenLocal(c.models, SchemaSteps);
    FlattenLocal(c.tests, TestSteps);
    PlacedConcat(Flatten(c.models, DependsSteps), Flatten(c.models, SchemaSteps), false);
    PlacedConcat(Flatten(c.models, DependsSteps) + Flatten(c.models, SchemaSteps), Flatten(c.tests, TestSteps), false);
  }

  lemma EnsuredParts(a: seq<Step>, b: seq<Step>)
    ensures Ensured(a + b) == Ensured(a) + Ensured(b) && Linked(a + b) == Linked(a) + Linked(b)
  {
  }

  lemma PlannedLinkStays(c: Compilation, i: nat)
    requires i < |Plan(c)| && Plan(c)[i].Link?
    requires {Plan(c)[i].edge.from, Plan(c)[i].edge.to} <= Ensured(Plan(c))
    ensures Plan(c)[i].edge in Built(c).edges
  {
    var plan, early, late := Plan(c), EarlySteps(c), LateSteps(c);
    var e := plan[i].edge;
    EarlyPlaced(c);
    LatePlaced(c);
    EnsuredParts(early, late);
    if i < |early| {
      assert plan[..i] == early[..i] && plan[i] == early[i];
    } else {
      var k := i - |early|;
      assert plan[..i] == early + late[..k] && plan[i] == late[k];
      EnsuredParts(early, late[..k]);
      forall n | n in {e.from, e.to} ensures n in Ensured(plan[..i]) {
        assert EndPlaced(late, k, n, false);
        if !IsLocal(n) && n in Ensured(late) {
          assert false;
        }
      }
    }
    LinkStays(EMPTY, plan, i);
  }

  /**
   The graph has the nodes planned, and exactly the planned edges whose two ends
   are among them: no edge is lost to the order of the passes.
   */
  lemma EdgesExactly(c: Compilation)
    ensures Built(c).meta.Keys == Ensured(Plan(c))
    ensures Elements(Built(c).edges)
         == set e | e in Linked(Plan(c)) && e.from in Built(c).meta && e.to in Built(c).meta
  {
    RunBounds(EMPTY, Plan(c));
    forall e | e in Linked(Plan(c)) && e.from in Built(c).meta && e.to in Built(c).meta ensures e in Built(c).edges {
      var i := IndexOf(Plan(c), Link(e));
      PlannedLinkStays(c, i);
    }
    RunEnds(EMPTY, Plan(c));
  }

  lemma {:induction false} RunEnds(c: Content, steps: seq<Step>)
    requires forall e :: e in c.edges ==> e.from in c.meta && e.to in c.meta
    ensures forall e :: e in Run(c, steps).edges ==> e.from in Run(c, steps).meta && e.to in Run(c, steps).meta
  {
    if steps != [] {
      RunEnds(c, steps[..|steps| - 1]);
    }
  }

  // -- Agreement with scheduling -------------------------------------------------------------------------

  /** What resolution leaves: dependencies on known models, and on sources that are no model's name. */
  ghost predicate Consistent(c: Compilation) {
    && Scheduling(c).Closed()
    && (forall m :: m in c.models ==> SourcesApart(Scheduling(c), m))
  }

  ghost predicate SourcesApart(g: ModelGraph, m: CompiledModel) {
    forall d, id :: d in m.node.dependencies && d.OnSource? && id in g.models ==> d.source.parts != Segments(id)
  }

  /** A column is read from its own model, from one it depends on, or from outside all models. */
  ghost predicate ReadFollows(g: ModelGraph, id: ModelId, r: ColumnRead)
    requires g.Closed() && id in g.models
  {
    forall d :: d in g.models && DatasetParts(r.relation) == Segments(d) ==> d == id || DependsOn(g, id, d)
  }

  ghost predicate ReadsFollow(c: Compilation)
    requires Scheduling(c).Closed()
  {
    forall m, column, r :: m in c.models && column in m.columns && r in column.inputs ==>
      m.node.id in Scheduling(c).models && ReadFollows(Scheduling(c), m.node.id, r)
  }

  /** A name taken for a source is not a model's name: the premise `SourcesApart` follows from resolution. */
  lemma SourcesAreNotModels(
    entries: seq<Resolve.RegistryEntry>, current: Resolve.RegistryEntry, entry: Resolve.RegistryEntry,
    name: seq<string>)
    requires entry in entries && forall e :: e in entries ==> IsModelId(e.id)
    requires Resolve.ResolveIn(entries, current, name).External?
    ensures Resolve.ResolveIn(entries, current, name).source.parts != Segments(entry.id)
  {
    Resolve.ResolvesToKnown(entries, current, name);
    Resolve.QualifiedNameResolves(entries, current, entry);
  }

  /** `m` depends on `on`, directly or through other models. */
  ghost predicate DependsOn(g: ModelGraph, m: ModelId, on: ModelId)
    requires g.Closed() && m in g.models
  {
    exists d :: d in g.deps[m] && Reaches(g, d, on)
  }

  /** The model whose node, output or output column this is. */
  ghost predicate OwnedBy(n: LineageNode, m: ModelId) {
    n == Model(m) || n == OutputOf(m) || (n.Column? && n.parts == Segments(m))
  }

  ghost predicate Stays(g: ModelGraph, e: GraphEdge) {
    exists m :: m in g.models && OwnedBy(e.from, m) && OwnedBy(e.to, m) && !e.to.Model?
  }

  ghost predicate Crosses(g: ModelGraph, e: GraphEdge)
    requires g.Closed()
  {
    exists m, d :: m in g.models && d in g.models && DependsOn(g, m, d) && OwnedBy(e.from, d) && OwnedBy(e.to, m)
  }

  ghost predicate Enters(g: ModelGraph, e: GraphEdge) {
    forall m :: m in g.models ==> !OwnedBy(e.from, m)
  }

  /** An edge stays with a model, follows dependencies, comes from a source, or ends in a test. */
  ghost predicate Flows(g: ModelGraph, e: GraphEdge)
    requires g.Closed()
  {
    !e.from.Test? && (e.to.Test? || Stays(g, e) || Crosses(g, e) || Enters(g, e))
  }

  /** What holds whatever columns read: they lead to columns only. */
  ghost predicate RelationFlows(g: ModelGraph, e: GraphEdge)
    requires g.Closed()
  {
    !e.from.Test? && (e.to.Column? || (!e.from.Column? && Flows(g, e)))
  }

  lemma SchedulingHas(c: Compilation, m: CompiledModel)
    requires m in c.models
    ensures m.node.id in Scheduling(c).models
    ensures forall d :: d in m.node.dependencies && d.OnModel? ==> d.id in Scheduling(c).deps[m.node.id]
  {
    var nodes := SchedulingNodes(c.models);
    var i := IndexOf(c.models, m);
    assert nodes[i] == m.node;
    forall d | d in m.node.dependencies && d.OnModel? ensures d.id in Scheduling(c).deps[m.node.id] {
      assert d in DependenciesOf(nodes, m.node.id);
    }
  }

  lemma SchedulingFrom(c: Compilation, id: ModelId, on: ModelId)
    requires id in Scheduling(c).models && on in Scheduling(c).deps[id]
    ensures exists m :: m in c.models && m.node.id == id && OnModel(on) in m.node.dependencies
  {
    var nodes := SchedulingNodes(c.models);
    var d :| d in DependenciesOf(nodes, id) && d.OnModel? && d.id == on;
    var i :| 0 <= i < |nodes| && nodes[i].id == id && d in nodes[i].dependencies;
    assert c.models[i] in c.models;
  }

  lemma DependencyDepends(g: ModelGraph, m: ModelId, d: ModelId)
    requires g.Closed() && m in g.models && d in g.deps[m]
    ensures DependsOn(g, m, d)
  {
    ReachesSelf(g, d);
  }

  lemma ModelFlows(c: Compilation, m: CompiledModel, s: Step)
    requires Consistent(c) && m in c.models && s in ModelSteps(m) && s.Link?
    ensures !s.edge.from.Column? && Flows(Scheduling(c), s.edge)
  {
    SchedulingHas(c, m);
    assert OwnedBy(s.edge.from, m.node.id) && OwnedBy(s.edge.to, m.node.id);
  }

  lemma DependsFlows(c: Compilation, m: CompiledModel, s: Step)
    requires Consistent(c) && m in c.models && s in DependsSteps(m) && s.Link?
    ensures !s.edge.from.Column? && Flows(Scheduling(c), s.edge)
  {
    var g := Scheduling(c);
    SchedulingHas(c, m);
    FlattenMember(m.node.dependencies, DependencyStepsOf(m.node.id), s);
    var d :| d in m.node.dependencies && s in DependencySteps(m.node.id, d);
    assert OwnedBy(s.edge.to, m.node.id);
    if d.OnModel? {
      DependencyDepends(g, m.node.id, d.id);
      assert OwnedBy(s.edge.from, d.id);
      assert Crosses(g, s.edge);
    } else {
      forall id | id in g.models ensures !OwnedBy(s.edge.from, id) {
        assert SourcesApart(g, m);
      }
      assert Enters(g, s.edge);
    }
  }

  lemma ReadFlowsOn(c: Compilation, m: CompiledModel, target: LineageNode, r: ColumnRead, s: Step)
    requires Consistent(c) && m in c.models && m.node.id in Scheduling(c).models
    requires ReadFollows(Scheduling(c), m.node.id, r)
    requires target.Column? && target.parts == Segments(m.node.id)
    requires s in ReadSteps(target, r) && s.Link?
    ensures Flows(Scheduling(c), s.edge)
  {
    var g, parts := Scheduling(c), DatasetParts(r.relation);
    if d :| d in g.models && parts == Segments(d) {
      assert OwnedBy(s.edge.from, d);
      if s.edge.to == target && s.edge.from.Column? {
        assert OwnedBy(s.edge.to, m.node.id);
        assert Stays(g, s.edge) || Crosses(g, s.edge);
      } else {
        assert OwnedBy(s.edge.to, d);
        assert Stays(g, s.edge);
      }
    } else {
      assert Enters(g, s.edge);
    }
  }

  lemma SchemaLeadsToColumns(m: CompiledModel, s: Step)
    requires s in SchemaSteps(m) && s.Link?
    ensures s.edge.to.Column? && !s.edge.from.Test?
  {
    FlattenMember(m.columns, ColumnStepsOf(m.node.id), s);
    var column :| column in m.columns && s in ColumnSteps(m.node.id, column);
    FlattenMember(column.inputs, ReadStepsOf(Column(Segments(m.node.id), column.name)), s);
  }

  lemma SchemaFlows(c: Compilation, m: CompiledModel, s: Step)
    requires Consistent(c) && ReadsFollow(c) && m in c.models && s in SchemaSteps(m) && s.Link?
    ensures Flows(Scheduling(c), s.edge)
  {
    var g := Scheduling(c);
    SchedulingHas(c, m);
    FlattenMember(m.columns, ColumnStepsOf(m.node.id), s);
    var column :| column in m.columns && s in ColumnSteps(m.node.id, column);
    var target := Column(Segments(m.node.id), column.name);
    if s in Flatten(column.inputs, ReadStepsOf(target)) {
      FlattenMember(column.inputs, ReadStepsOf(target), s);
      var r :| r in column.inputs && s in ReadSteps(target, r);
      assert ReadFollows(g, m.node.id, r);
      ReadFlowsOn(c, m, target, r, s);
    } else {
      assert OwnedBy(s.edge.from, m.node.id) && OwnedBy(s.edge.to, m.node.id);
      assert Stays(g, s.edge);
    }
  }

  lemma TestFlows(g: ModelGraph, t: CompiledTest, s: Step)
    requires g.Closed() && s in TestSteps(t) && s.Link?
    ensures !s.edge.from.Column? && Flows(g, s.edge)
  {
    FlattenMember(TestedParts(t), TestedStepsOf(Test(t.id)), s);
  }

  lemma PlannedFlows(c: Compilation, s: Step)
    requires Consistent(c) && s in Plan(c) && s.Link?
    ensures RelationFlows(Scheduling(c), s.edge)
    ensures ReadsFollow(c) ==> Flows(Scheduling(c), s.edge)
  {
    FlattenMember(c.models, ModelSteps, s);
    FlattenMember(c.sources, SourceSteps, s);
    FlattenMember(c.models, DependsSteps, s);
    FlattenMember(c.models, SchemaSteps, s);
    FlattenMember(c.tests, TestSteps, s);
    if m :| m in c.models && s in ModelSteps(m) {
      ModelFlows(c, m, s);
    } else if m :| m in c.models && s in DependsSteps(m) {
      DependsFlows(c, m, s);
    } else if m :| m in c.models && s in SchemaSteps(m) {
      SchemaLeadsToColumns(m, s);
      if ReadsFollow(c) {
        SchemaFlows(c, m, s);
      }
    } else if t :| t in c.tests && s in TestSteps(t) {
      TestFlows(Scheduling(c), t, s);
    }
  }

  /** Where a walk that starts at something `a` owns can be. */
  ghost predicate Within(g: ModelGraph, a: ModelId, n: LineageNode)
    requires g.Closed()
  {
    n.Test? || exists m :: m in g.models && OwnedBy(n, m) && (DependsOn(g, m, a) || (m == a && !n.Model?))
  }

  lemma OneOwner(n: LineageNode, a: ModelId, b: ModelId)
    requires OwnedBy(n, a) && OwnedBy(n, b)
    ensures a == b
  {
    assert Segments(a)[1..] == a.path && Segments(b)[1..] == b.path;
    assert Segments(a)[0] == a.ns && Segments(b)[0] == b.ns;
  }

  lemma DependsFurther(g: ModelGraph, m: ModelId, d: ModelId, a: ModelId)
    requires g.Closed() && m in g.models && d in g.models && DependsOn(g, m, d) && (d == a || DependsOn(g, d, a))
    ensures DependsOn(g, m, a)
  {
    var first :| first in g.deps[m] && Reaches(g, first, d);
    if d != a {
      var next :| next in g.deps[d] && Reaches(g, next, a);
      ReachesFurther(g, first, d, next);
      ReachesTransitive(g, first, next, a);
    }
  }

  lemma FlowStaysWithin(g: ModelGraph, a: ModelId, e: GraphEdge)
    requires g.Closed() && a in g.models && Flows(g, e)
    requires OwnedBy(e.from, a) || Within(g, a, e.from)
    ensures Within(g, a, e.to)
  {
    if !e.to.Test? {
      var owner :| owner in g.models && OwnedBy(e.from, owner) && (owner == a || DependsOn(g, owner, a));
      if Crosses(g, e) {
        var m, d :| m in g.models && d in g.models && DependsOn(g, m, d) && OwnedBy(e.from, d) && OwnedBy(e.to, m);
        OneOwner(e.from, owner, d);
        DependsFurther(g, m, d, a);
      } else {
        assert Stays(g, e);
        var m :| m in g.models && OwnedBy(e.from, m) && OwnedBy(e.to, m) && !e.to.Model?;
        OneOwner(e.from, owner, m);
      }
    }
  }

  lemma EdgeIsPlanned(c: Compilation, e: GraphEdge)
    requires Consistent(c) && e in Built(c).edges
    ensures RelationFlows(Scheduling(c), e)
    ensures ReadsFollow(c) ==> Flows(Scheduling(c), e)
  {
    EdgesExactly(c);
    assert e in Elements(Built(c).edges);
    PlannedFlows(c, Link(e));
  }

  /** Whatever a walk downstream reaches from a model is a column, a test, or belongs to the model or a dependent. */
  lemma RelationsStayDownstream(c: Compilation, a: ModelId, n: LineageNode)
    requires Consistent(c) && a in Scheduling(c).models
    requires n in Reached(Links(Built(c).edges, false), Model(a))
    ensures n.Column? || Within(Scheduling(c), a, n)
  {
    var g, links := Scheduling(c), Links(Built(c).edges, false);
    var inside := set l | l in links && (l.1.Column? || Within(g, a, l.1)) :: l.1;
    forall from | from == Model(a) || from in inside ensures Next(links, from) <= inside {
      forall to | to in Next(links, from) ensures to in inside {
        assert (from, to) in links;
        var e :| e in Built(c).edges && (e.from, e.to) == (from, to);
        EdgeIsPlanned(c, e);
        if !to.Column? {
          FlowStaysWithin(g, a, e);
        }
        assert (from, to).1 == to;
      }
    }
    LeadsIsReached(links, Model(a), n);
    var trail :| IsTrail(links, trail) && trail[0] == Model(a) && trail[|trail| - 1] == n;
    TrailStays(links, inside, trail);
  }

  /**
   Whatever a walk downstream reaches from a model's node, output or column is a
   test, belongs to a model that depends on it, or is the model's own data.
   */
  ghost predicate ImpactIsDownstream(c: Compilation)
    requires Scheduling(c).Closed()
  {
    forall a, start, n ::
      a in Scheduling(c).models && OwnedBy(start, a) && n in Reached(Links(Built(c).edges, false), start) ==>
        Within(Scheduling(c), a, n)
  }

  lemma ImpactFollowsReads(c: Compilation, a: ModelId, start: LineageNode, n: LineageNode)
    requires Consistent(c) && ReadsFollow(c) && a in Scheduling(c).models && OwnedBy(start, a)
    requires n in Reached(Links(Built(c).edges, false), start)
    ensures Within(Scheduling(c), a, n)
  {
    var g, links := Scheduling(c), Links(Built(c).edges, false);
    var inside := set l | l in links && Within(g, a, l.1) :: l.1;
    forall from | from == start || from in inside ensures Next(links, from) <= inside {
      forall to | to in Next(links, from) ensures to in inside {
        assert (from, to) in links;
        var e :| e in Built(c).edges && (e.from, e.to) == (from, to);
        EdgeIsPlanned(c, e);
        FlowStaysWithin(g, a, e);
        assert (from, to).1 == to;
      }
    }
    LeadsIsReached(links, start, n);
    var trail :| IsTrail(links, trail) && trail[0] == start && trail[|trail| - 1] == n;
    TrailStays(links, inside, trail);
  }

  /** The edge of a read. */
  function ReadEdge(m: CompiledModel, column: SchemaColumn, r: ColumnRead): GraphEdge {
    GraphEdge(Column(DatasetParts(r.relation), r.column), Column(Segments(m.node.id), column.name), FromInput(r))
  }

  /** A recorded read is an edge. */
  lemma ReadIsBuilt(c: Compilation, m: CompiledModel, column: SchemaColumn, r: ColumnRead)
    requires m in c.models && column in m.columns && r in column.inputs
    ensures ReadEdge(m, column, r) in Built(c).edges
  {
    var e := ReadEdge(m, column, r);
    var steps := ColumnSteps(m.node.id, column);
    assert ReadSteps(e.to, r)[0] == Ensure(e.from, EMPTY_META) && ReadSteps(e.to, r)[2] == Link(e);
    assert steps[0] == Ensure(e.to, ColumnMeta(column));
    FlattenMember(column.inputs, ReadStepsOf(e.to), Ensure(e.from, EMPTY_META));
    FlattenMember(column.inputs, ReadStepsOf(e.to), Link(e));
    ColumnStepIsPlanned(c, m, column, Ensure(e.from, EMPTY_META));
    ColumnStepIsPlanned(c, m, column, steps[0]);
    ColumnStepIsPlanned(c, m, column, Link(e));
    EdgesExactly(c);
    assert e in Elements(Built(c).edges);
  }

  /** So its column is reached. */
  lemma ReadIsReached(c: Compilation, m: CompiledModel, column: SchemaColumn, r: ColumnRead)
    requires m in c.models && column in m.columns && r in column.inputs
    ensures var source, target := Column(DatasetParts(r.relation), r.column), Column(Segments(m.node.id), column.name);
            target in Reached(Links(Built(c).edges, false), source)
  {
    var source, target := Column(DatasetParts(r.relation), r.column), Column(Segments(m.node.id), column.name);
    ReadIsBuilt(c, m, column, r);
    var links := Links(Built(c).edges, false);
    assert ReadEdge(m, column, r) in Built(c).edges && (source, target) in links;
    LeadsByOne(links, source, target);
    LeadsIsReached(links, source, target);
  }

  lemma ColumnStepIsPlanned(c: Compilation, m: CompiledModel, column: SchemaColumn, s: Step)
    requires m in c.models && column in m.columns && s in ColumnSteps(m.node.id, column)
    ensures s in Plan(c)
  {
    FlattenMember(m.columns, ColumnStepsOf(m.node.id), s);
    assert s in SchemaSteps(m);
    FlattenMember(c.models, SchemaSteps, s);
  }

  /** Impact stays downstream if and only if columns are read from dependencies, and from nowhere else among models. */
  lemma ImpactIsDownstreamExactly(c: Compilation)
    requires Consistent(c)
    ensures ImpactIsDownstream(c) <==> ReadsFollow(c)
  {
    var g := Scheduling(c);
    if ReadsFollow(c) {
      forall a, start, n
        | a in g.models && OwnedBy(start, a) && n in Reached(Links(Built(c).edges, false), start)
        ensures Within(g, a, n)
      {
        ImpactFollowsReads(c, a, start, n);
      }
    }
    if ImpactIsDownstream(c) {
      forall m, column, r | m in c.models && column in m.columns && r in column.inputs
        ensures m.node.id in g.models && ReadFollows(g, m.node.id, r)
      {
        SchedulingHas(c, m);
        ReadIsReached(c, m, column, r);
        forall d | d in g.models && DatasetParts(r.relation) == Segments(d)
          ensures d == m.node.id || DependsOn(g, m.node.id, d)
        {
          var source, target := Column(Segments(d), r.column), Column(Segments(m.node.id), column.name);
          assert OwnedBy(source, d) && Within(g, d, target);
          var owner :| owner in g.models && OwnedBy(target, owner) && (DependsOn(g, owner, d) || owner == d);
          OneOwner(target, owner, m.node.id);
        }
      }
    }
  }

  /** A model's compiled form with one column, computed from `inputs`. */
  function OneColumn(id: ModelId, column: string, inputs: seq<ColumnRead>): CompiledModel {
    CompiledModel(
      Node(id, []), None, "", "view", "", None, [SchemaColumn(column, "INTEGER", "unknown", Exact, inputs)])
  }

  /** Two models; the second reads the first's column although no dependency was recorded. */
  function HiddenRead(a: ModelId, b: ModelId, column: string): Compilation {
    var read := ColumnRead(OnModel(a), column, Direct, Transformation.Identity, Exact, None);
    Compilation([OneColumn(a, column, []), OneColumn(b, column, [read])], [], [])
  }

  /** Then the impact of the first model's column includes a column of a model that does not depend on it. */
  lemma HiddenReadEscapes(a: ModelId, b: ModelId, column: string)
    requires a != b
    ensures var c := HiddenRead(a, b, column);
            var source, target := Column(Segments(a), column), Column(Segments(b), column);
            && Consistent(c) && !ReadsFollow(c)
            && b in Scheduling(c).models && !DependsOn(Scheduling(c), b, a)
            && target in Reached(Links(Built(c).edges, false), source)
            && !Within(Scheduling(c), a, target)
  {
    var c := HiddenRead(a, b, column);
    var m := c.models[1];
    HiddenReadGraph(a, b, column);
    ReadIsReached(c, m, m.columns[0], m.columns[0].inputs[0]);
    assert !ReadFollows(Scheduling(c), b, m.columns[0].inputs[0]);
    NotWithin(Scheduling(c), a, b, column);
  }

  lemma NotWithin(g: ModelGraph, a: ModelId, b: ModelId, column: string)
    requires g.Closed() && a != b && b in g.models && g.deps[b] == {}
    ensures !Within(g, a, Column(Segments(b), column))
  {
    var target := Column(Segments(b), column);
    forall owner | owner in g.models && OwnedBy(target, owner) ensures owner == b {
      OneOwner(target, owner, b);
    }
  }

  lemma HiddenReadGraph(a: ModelId, b: ModelId, column: string)
    requires a != b
    ensures var g := Scheduling(HiddenRead(a, b, column));
            g.models == {a, b} && g.deps.Keys == g.models && g.deps[a] == {} && g.deps[b] == {}
  {
    var nodes := SchedulingNodes(HiddenRead(a, b, column).models);
    assert nodes == [Node(a, []), Node(b, [])];
    assert nodes[0].id == a && nodes[1].id == b;
    assert DependenciesOf(nodes, a) == {} && DependenciesOf(nodes, b) == {};
  }

  lemma ModelIsEnsured(c: Compilation, id: ModelId)
    requires id in Scheduling(c).models
    ensures Model(id) in Built(c).meta
  {
    var nodes := SchedulingNodes(c.models);
    var i :| 0 <= i < |nodes| && nodes[i].id == id;
    var m := c.models[i];
    var s := Ensure(Model(id), ModelMeta(m));
    assert m in c.models && s == ModelSteps(m)[0];
    FlattenMember(c.models, ModelSteps, s);
    assert s in Plan(c);
    EdgesExactly(c);
  }

  lemma DerivesFromDependency(c: Compilation, m: ModelId, d: ModelId)
    requires Scheduling(c).Closed() && m in Scheduling(c).models && d in Scheduling(c).deps[m]
    ensures (Model(d), Model(m)) in Links(Built(c).edges, false)
  {
    SchedulingFrom(c, m, d);
    var model :| model in c.models && model.node.id == m && OnModel(d) in model.node.dependencies;
    var e := GraphEdge(Model(d), Model(m), Plain(Derives));
    assert Link(e) in DependencySteps(m, OnModel(d)) by {
      assert DependencySteps(m, OnModel(d))[1] == Link(e);
    }
    FlattenMember(model.node.dependencies, DependencyStepsOf(m), Link(e));
    assert Link(e) in DependsSteps(model);
    FlattenMember(c.models, DependsSteps, Link(e));
    assert Link(e) in Plan(c);
    ModelIsEnsured(c, m);
    ModelIsEnsured(c, d);
    EdgesExactly(c);
    assert e in Elements(Built(c).edges);
  }

  lemma {:induction false} DependencyLeads(c: Compilation, path: seq<ModelId>)
    requires Scheduling(c).Closed() && IsWalk(Scheduling(c), path) && |path| >= 2
    ensures Leads(Links(Built(c).edges, false), Model(path[|path| - 1]), Model(path[0]))
  {
    var links := Links(Built(c).edges, false);
    assert path[1] in Scheduling(c).deps[path[0]];
    DerivesFromDependency(c, path[0], path[1]);
    if |path| == 2 {
      LeadsByOne(links, Model(path[1]), Model(path[0]));
    } else {
      DependencyLeads(c, path[1..]);
      LeadsFurther(links, Model(path[|path| - 1]), Model(path[1]), Model(path[0]));
    }
  }

  lemma DependentIsReached(c: Compilation, a: ModelId, b: ModelId)
    requires Scheduling(c).Closed() && b in Scheduling(c).models && DependsOn(Scheduling(c), b, a)
    ensures Leads(Links(Built(c).edges, false), Model(a), Model(b))
  {
    var g := Scheduling(c);
    var d :| d in g.deps[b] && Reaches(g, d, a);
    var path :| IsWalk(g, path) && path[0] == d && path[|path| - 1] == a;
    WalkBefore(g, b, path);
    DependencyLeads(c, [b] + path);
  }

  /**
   A model is downstream of another in the lineage graph exactly when it depends
   on it, although walks also pass datasets, columns and tests.
   */
  lemma LineageAgreesWithScheduling(c: Compilation, a: ModelId, b: ModelId)
    requires Consistent(c) && a in Scheduling(c).models && b in Scheduling(c).models
    ensures Model(b) in Reached(Links(Built(c).edges, false), Model(a)) <==> DependsOn(Scheduling(c), b, a)
    ensures Model(a) in Reached(Links(Built(c).edges, true), Model(b)) <==> DependsOn(Scheduling(c), b, a)
  {
    var g, links := Scheduling(c), Links(Built(c).edges, false);
    WalksAreConverse(Built(c).edges, Model(a), Model(b));
    LeadsIsReached(links, Model(a), Model(b));
    if Model(b) in Reached(links, Model(a)) {
      RelationsStayDownstream(c, a, Model(b));
      var m :| m in g.models && OwnedBy(Model(b), m) && DependsOn(g, m, a);
      OneOwner(Model(b), b, m);
    }
    if DependsOn(g, b, a) {
      DependentIsReached(c, a, b);
    }
  }
}
