/**
 The transform graph: construction, scheduling order and cycle reporting
 (crates/phlo-transform-core/src/graph.rs).
 */
module Graph {
  import opened Wrappers
  import opened Collections
  import opened Ordering
  import opened Identity
  import opened Digraph

  /** A resolved dependency of a model; also a node of the graph. */
  datatype Dependency = OnModel(id: ModelId) | OnSource(source: SourceId)

  /** The part of a compiled model the graph reads. */
  datatype Node = Node(id: ModelId, dependencies: seq<Dependency>)

  predicate DependencyLess(a: Dependency, b: Dependency) {
    match (a, b)
    case (OnModel(x), OnModel(y)) => ModelLess(x, y)
    case (OnModel(_), OnSource(_)) => true
    case (OnSource(_), OnModel(_)) => false
    case (OnSource(x), OnSource(y)) => PathLess(x.parts, y.parts)
  }

  lemma DependencyLessTotal()
    ensures StrictTotal(DependencyLess)
  {
    ModelLessTotal();
    PathLessTotal();
  }

  function DependenciesOf(nodes: seq<Node>, id: ModelId): set<Dependency> {
    set i, d | 0 <= i < |nodes| && nodes[i].id == id && d in nodes[i].dependencies :: d
  }

  function ModelsAmong(dependencies: set<Dependency>): set<ModelId> {
    set d | d in dependencies && d.OnModel? :: d.id
  }

  function GraphOf(nodes: seq<Node>): ModelGraph {
    var ids := set i | 0 <= i < |nodes| :: nodes[i].id;
    ModelGraph(ids, map id | id in ids :: ModelsAmong(DependenciesOf(nodes, id)))
  }

  /** The compiler only resolves to models it knows. */
  ghost predicate KnownDependencies(nodes: seq<Node>) {
    GraphOf(nodes).Closed()
  }

  /** The targets of a model's edges, in edge order. */
  function EdgeTargets(edges: seq<(ModelId, Dependency)>, id: ModelId): seq<Dependency> {
    if edges == [] then []
    else
      var rest, last := EdgeTargets(edges[..|edges| - 1], id), edges[|edges| - 1];
      if last.0 == id then rest + [last.1] else rest
  }

  function SortedTargets(edges: seq<(ModelId, Dependency)>, id: ModelId): seq<Dependency> {
    Sort(DependencyLess, EdgeTargets(edges, id))
  }

  lemma {:induction false} EdgeTargetsMembers(edges: seq<(ModelId, Dependency)>, id: ModelId)
    ensures forall d :: d in EdgeTargets(edges, id) <==> (id, d) in edges
    ensures Distinct(edges) ==> Distinct(EdgeTargets(edges, id))
  {
    if edges != [] {
      var rest, last := edges[..|edges| - 1], edges[|edges| - 1];
      EdgeTargetsMembers(rest, id);
      assert edges == rest + [last];
      assert Distinct(edges) ==> last !in rest;
    }
  }

  lemma SortedTargetsAreTargets(edges: seq<(ModelId, Dependency)>, id: ModelId)
    ensures forall d :: d in SortedTargets(edges, id) <==> (id, d) in edges
    ensures Sorted(DependencyLess, SortedTargets(edges, id))
    ensures Distinct(edges) ==> Distinct(SortedTargets(edges, id))
  {
    DependencyLessTotal();
    EdgeTargetsMembers(edges, id);
    SortSorted(DependencyLess, EdgeTargets(edges, id));
    SortMembers(DependencyLess, EdgeTargets(edges, id));
    if Distinct(edges) {
      SortDistinct(DependencyLess, EdgeTargets(edges, id));
    }
  }

  datatype Color = Grey | Black

  class TransformGraph {
    var nodes: seq<Dependency>
    var edges: seq<(ModelId, Dependency)>

    ghost predicate Valid()
      reads this
    {
      && Distinct(nodes) && Distinct(edges)
      && forall e :: e in edges ==> OnModel(e.0) in nodes && e.1 in nodes
    }

    ghost function Targets(id: ModelId): (targets: set<Dependency>)
      reads this
    {
      set e | e in edges && e.0 == id :: e.1
    }

    ghost function View(): ModelGraph
      reads this
    {
      var ids := set n | n in nodes && n.OnModel? :: n.id;
      ModelGraph(ids, map id | id in ids :: ModelsAmong(Targets(id)))
    }

    constructor Build(models: seq<Node>)
      requires KnownDependencies(models)
      ensures Valid() && View() == GraphOf(models) && View().Closed()
      ensures forall id :: Targets(id) == DependenciesOf(models, id)
    {
      nodes, edges := [], [];
      new;
      AddNodes(models);
      forall i, d | 0 <= i < |models| && d in models[i].dependencies ensures d in nodes {
        if d.OnModel? {
          assert d in DependenciesOf(models, models[i].id);
          assert d.id in GraphOf(models).deps[models[i].id];
        }
      }
      AddEdges(models);
      forall id ensures Targets(id) == DependenciesOf(models, id) {
        forall d | d in DependenciesOf(models, id) ensures d in Targets(id) {
          assert (id, d) in edges;
        }
      }
      assert View().models == GraphOf(models).models;
    }

    /** Model nodes first, then the sources they read. */
    method AddNodes(models: seq<Node>)
      requires Valid() && nodes == [] && edges == []
      modifies this`nodes
      ensures Valid()
      ensures forall i :: 0 <= i < |models| ==> OnModel(models[i].id) in nodes
      ensures forall n :: n in nodes && n.OnModel? ==> exists i :: 0 <= i < |models| && models[i].id == n.id
      ensures forall i, d :: 0 <= i < |models| && d in models[i].dependencies && d.OnSource? ==> d in nodes
    {
      for i := 0 to |models|
        invariant Valid()
        invariant forall k :: 0 <= k < i ==> OnModel(models[k].id) in nodes
        invariant forall n :: n in nodes ==> n.OnModel? && exists k :: 0 <= k < |models| && models[k].id == n.id
      {
        EnsureNode(OnModel(models[i].id));
      }
      for i := 0 to |models|
        invariant Valid()
        invariant forall k :: 0 <= k < |models| ==> OnModel(models[k].id) in nodes
        invariant forall n :: n in nodes && n.OnModel? ==> exists k :: 0 <= k < |models| && models[k].id == n.id
        invariant forall k, d :: 0 <= k < i && d in models[k].dependencies && d.OnSource? ==> d in nodes
      {
        AddSources(models[i].dependencies);
      }
    }

    method AddSources(dependencies: seq<Dependency>)
      requires Valid()
      modifies this`nodes
      ensures Valid()
      ensures forall n :: n in nodes <==> n in old(nodes) || (n in dependencies && n.OnSource?)
    {
      for j := 0 to |dependencies|
        invariant Valid()
        invariant forall n :: n in nodes <==> n in old(nodes) || (n in dependencies[..j] && n.OnSource?)
      {
        if dependencies[j].OnSource? {
          EnsureNode(dependencies[j]);
        }
      }
      assert dependencies[..|dependencies|] == dependencies;
    }

    /** One edge per dependency, never two between the same nodes. */
    method AddEdges(models: seq<Node>)
      requires Valid() && edges == []
      requires forall i :: 0 <= i < |models| ==> OnModel(models[i].id) in nodes
      requires forall i, d :: 0 <= i < |models| && d in models[i].dependencies ==> d in nodes
      modifies this`edges
      ensures Valid()
      ensures forall e :: e in edges <==>
                exists i :: 0 <= i < |models| && models[i].id == e.0 && e.1 in models[i].dependencies
    {
      for i := 0 to |models|
        invariant Valid()
        invariant forall e :: e in edges <==>
                    exists k :: 0 <= k < i && models[k].id == e.0 && e.1 in models[k].dependencies
      {
        var from := models[i].id;
        ghost var before := edges;
        for j := 0 to |models[i].dependencies|
          invariant Valid()
          invariant forall e :: e in edges <==> e in before || (e.0 == from && e.1 in models[i].dependencies[..j])
        {
          var to := models[i].dependencies[j];
          if (from, to) !in edges {
            edges := edges + [(from, to)];
          }
        }
        assert models[i].dependencies[..|models[i].dependencies|] == models[i].dependencies;
      }
    }

    method EnsureNode(node: Dependency)
      requires Valid()
      modifies this`nodes
      ensures Valid() && forall n :: n in nodes <==> n in old(nodes) || n == node
    {
      if node !in nodes {
        nodes := nodes + [node];
      }
    }

    /** The models, sorted. */
    method ModelIds() returns (ids: seq<ModelId>)
      requires Valid()
      ensures Sorted(ModelLess, ids) && Distinct(ids) && Elements(ids) == View().models
    {
      var found: seq<ModelId> := [];
      for i := 0 to |nodes|
        invariant Distinct(found)
        invariant forall id :: id in found <==> OnModel(id) in nodes[..i]
      {
        if nodes[i].OnModel? {
          assert OnModel(nodes[i].id) !in nodes[..i];
          found := found + [nodes[i].id];
        }
      }
      assert nodes[..|nodes|] == nodes;
      ids := Sort(ModelLess, found);
      ModelLessTotal();
      SortSorted(ModelLess, found);
      SortMembers(ModelLess, found);
      SortDistinct(ModelLess, found);
      forall id ensures id in Elements(ids) <==> id in View().models {
        assert OnModel(id) in nodes <==> id in View().models;
      }
    }

    /** Direct dependencies of a model, sorted. */
    method Dependencies(id: ModelId) returns (result: seq<Dependency>)
      requires Valid()
      ensures result == SortedTargets(edges, id)
      ensures Sorted(DependencyLess, result) && Distinct(result) && forall d :: d in result <==> d in Targets(id)
    {
      var found: seq<Dependency> := [];
      for i := 0 to |edges|
        invariant found == EdgeTargets(edges[..i], id)
      {
        TakeOneMore(edges, i);
        if edges[i].0 == id {
          found := found + [edges[i].1];
        }
      }
      assert edges[..|edges|] == edges;
      result := Sort(DependencyLess, found);
      SortedTargetsAreTargets(edges, id);
    }

    /** The models a model depends on, in dependency order. */
    method ModelDependencies(id: ModelId) returns (result: seq<ModelId>)
      requires Valid()
      ensures Distinct(result) && forall d :: d in result <==> d in ModelsAmong(Targets(id))
    {
      var dependencies := Dependencies(id);
      result := [];
      for i := 0 to |dependencies|
        invariant Distinct(result)
        invariant forall d :: d in result <==> OnModel(d) in dependencies[..i]
      {
        if dependencies[i].OnModel? {
          assert OnModel(dependencies[i].id) !in dependencies[..i];
          result := result + [dependencies[i].id];
        }
      }
      assert dependencies[..|dependencies|] == dependencies;
      forall d ensures d in result <==> d in ModelsAmong(Targets(id)) {
        assert OnModel(d) in dependencies <==> OnModel(d) in Targets(id);
      }
    }

    /** Record what one model waits for. */
    method CountModel(
      id: ModelId,
      counts: map<ModelId, nat>,
      waiting: map<ModelId, seq<ModelId>>,
      ghost pairs: set<(ModelId, ModelId)>)
      returns (remaining: map<ModelId, nat>, dependents: map<ModelId, seq<ModelId>>)
      requires Valid() && id in counts && counts[id] == 0
      requires Waiting(waiting, pairs) && forall p :: p in pairs ==> p.0 != id
      ensures var on := ModelsAmong(Targets(id));
              && remaining == counts[id := |on|]
              && Waiting(dependents, pairs + PairsOf(id, on))
    {
      var on := ModelDependencies(id);
      remaining, dependents := counts, waiting;
      ghost var added: set<(ModelId, ModelId)> := {};
      for j := 0 to |on|
        invariant remaining == counts[id := j]
        invariant Waiting(dependents, pairs + added)
        invariant forall p :: p in added <==> p.0 == id && p.1 in on[..j]
      {
        WaitingPush(dependents, pairs + added, id, on[j]);
        remaining := remaining[id := remaining[id] + 1];
        dependents := Push(dependents, id, on[j]);
        assert pairs + added + {(id, on[j])} == pairs + (added + {(id, on[j])});
        added := added + {(id, on[j])};
      }
      assert on[..|on|] == on;
      assert Elements(on) == ModelsAmong(Targets(id));
      DistinctSize(on);
      assert added == PairsOf(id, ModelsAmong(Targets(id)));
    }

    /** How many dependencies each model waits for, and who waits for each model. */
    method ModelEdges() returns (remaining: map<ModelId, nat>, dependents: map<ModelId, seq<ModelId>>)
      requires Valid() && View().Closed()
      ensures remaining.Keys == View().models
      ensures forall m :: m in View().models ==> remaining[m] == |View().deps[m]|
      ensures Waiting(dependents, DependencyPairs(View(), View().models))
    {
      ghost var g := View();
      var ids := ModelIds();
      remaining, dependents := map id | id in ids :: 0, map[];
      assert remaining.Keys == Elements(ids);
      ghost var done: set<ModelId> := {};
      assert DependencyPairs(g, done) == {};
      for i := 0 to |ids|
        invariant done == Elements(ids[..i]) && remaining.Keys == g.models
        invariant forall m :: m in g.models ==> remaining[m] == if m in done then |g.deps[m]| else 0
        invariant Waiting(dependents, DependencyPairs(g, done))
      {
        var id := ids[i];
        assert id in Elements(ids) && id !in done;
        assert ModelsAmong(Targets(id)) == g.deps[id];
        remaining, dependents := CountModel(id, remaining, dependents, DependencyPairs(g, done));
        PairsExtend(g, done, id);
        TakeOneMore(ids, i);
        done := done + {id};
      }
      assert ids[..|ids|] == ids;
    }

    /**
     Topological order with dependencies first, `None` when there is none. It
     is the least of all orders.
     */
    method TopologicalOrder() returns (result: Option<seq<ModelId>>)
      requires Valid() && View().Closed()
      ensures result.Some? <==> Orderable(View())
      ensures result.Some? ==> IsLeastOrder(View(), result.value)
      ensures result.None? ==> exists cycle :: IsCycle(View(), cycle)
    {
      ghost var g := View();
      var remaining, dependents := ModelEdges();
      var ready := set m | m in remaining && remaining[m] == 0;
      NothingDone(g, remaining);
      assert |remaining| == |remaining.Keys|;
      var order := Schedule(g, remaining, dependents, ready);
      if |order| == |remaining| {
        AllOrdered(g, order);
        return Some(order);
      }
      SomeLeft(g, order);
      StuckModels(g, Elements(order));
      return None;
    }

    /** Take the least ready model until none is ready. */
    static method Schedule(
      ghost g: ModelGraph,
      counts: map<ModelId, nat>,
      dependents: map<ModelId, seq<ModelId>>,
      free: set<ModelId>)
      returns (order: seq<ModelId>)
      requires g.Closed() && Counts(g, counts, {}) && free == Ready(g, {})
      requires Waiting(dependents, DependencyPairs(g, g.models))
      ensures Scheduled(g, order) && Elements(order) <= g.models && Ready(g, Elements(order)) == {}
    {
      var remaining, ready := counts, free;
      order := [];
      ghost var done: set<ModelId> := {};
      while ready != {}
        invariant Scheduled(g, order) && done == Elements(order) && done <= g.models
        invariant ready == Ready(g, done)
        invariant Counts(g, remaining, done)
        decreases g.models - done
      {
        var id := First(ready);
        remaining, ready := Take(g, order, id, dependents, remaining, ready);
        order := order + [id];
        done := done + {id};
      }
    }

    /** The least ready model. */
    static method First(ready: set<ModelId>) returns (id: ModelId)
      requires ready != {}
      ensures IsLeast(ModelLess, id, ready)
    {
      ModelLessTotal();
      LeastExists(ModelLess, ready);
      id :| id in ready && forall other :: other in ready ==> !ModelLess(other, id);
    }

    /** The least ready model is taken next. */
    static method Take(
      ghost g: ModelGraph,
      ghost order: seq<ModelId>,
      id: ModelId,
      dependents: map<ModelId, seq<ModelId>>,
      counts: map<ModelId, nat>,
      others: set<ModelId>)
      returns (remaining: map<ModelId, nat>, ready: set<ModelId>)
      requires g.Closed() && Scheduled(g, order) && Counts(g, counts, Elements(order))
      requires others == Ready(g, Elements(order)) && IsLeast(ModelLess, id, others)
      requires Waiting(dependents, DependencyPairs(g, g.models))
      ensures Scheduled(g, order + [id]) && Elements(order + [id]) == Elements(order) + {id}
      ensures id in g.models && id !in Elements(order)
      ensures Counts(g, remaining, Elements(order + [id])) && ready == Ready(g, Elements(order + [id]))
    {
      OrderExtends(g, order, id);
      var children := if id in dependents then dependents[id] else [];
      ChildrenOf(g, dependents, id);
      remaining, ready := Settle(g, Elements(order), id, children, counts, others - {id});
    }

    /** One model is done: its dependents wait for one model less, and some become ready. */
    static method Settle(
      ghost g: ModelGraph,
      ghost done: set<ModelId>,
      id: ModelId,
      children: seq<ModelId>,
      counts: map<ModelId, nat>,
      others: set<ModelId>)
      returns (remaining: map<ModelId, nat>, ready: set<ModelId>)
      requires g.Closed() && Counts(g, counts, done)
      requires id in Ready(g, done) && others == Ready(g, done) - {id}
      requires forall m :: m in done ==> m in g.models && g.deps[m] <= done
      requires Distinct(children) && forall m :: m in children <==> m in g.models && id in g.deps[m]
      ensures Counts(g, remaining, done + {id})
      ensures ready == Ready(g, done + {id})
    {
      remaining, ready := counts, others;
      for k := 0 to |children|
        invariant PartlyCounted(g, done, done + {id}, Elements(children[..k]), remaining)
        invariant PartlyReady(g, done, id, Elements(children[..k]), ready)
      {
        var child := children[k];
        TakeOneMore(children, k);
        OneFewer(g.deps[child], done, id);
        CountChild(g, done, id, Elements(children[..k]), child, remaining);
        ReadyChild(g, done, id, Elements(children[..k]), child, ready);
        remaining := remaining[child := remaining[child] - 1];
        if remaining[child] == 0 {
          ready := ready + {child};
        }
      }
      assert children[..|children|] == children;
      AllCounted(g, done, id, Elements(children), remaining);
      AllReady(g, done, id, Elements(children), ready);
    }

    /** A concrete dependency cycle, `None` when there is none. */
    method Cycle() returns (result: Option<seq<ModelId>>)
      requires Valid() && View().Closed()
      ensures result.Some? ==> IsCycle(View(), result.value)
      ensures result.None? <==> Orderable(View())
    {
      ghost var g := View();
      var ids := ModelIds();
      assert EdgesAgree(edges, g);
      result := VisitAll(edges, g, ids);
      if result.Some? {
        CycleExcludesOrder(g, result.value);
      }
    }
  }

  /** How many of a model's dependencies are not done. */
  ghost function Waits(deps: set<ModelId>, done: set<ModelId>): nat {
    |deps - done|
  }

  /** `counts` says how many dependencies each model still waits for. */
  ghost predicate Counts(g: ModelGraph, counts: map<ModelId, nat>, done: set<ModelId>)
    requires g.Closed()
  {
    counts.Keys == g.models && forall m :: m in g.models ==> counts[m] == Waits(g.deps[m], done)
  }

  /** Between two children of `id`: those in `settled` no longer wait for it. */
  ghost predicate PartlyCounted(
    g: ModelGraph, before: set<ModelId>, after: set<ModelId>, settled: set<ModelId>, counts: map<ModelId, nat>)
    requires g.Closed()
  {
    && counts.Keys == g.models
    && (forall m :: m in g.models && m in settled ==> counts[m] == Waits(g.deps[m], after))
    && (forall m :: m in g.models && m !in settled ==> counts[m] == Waits(g.deps[m], before))
  }

  ghost predicate PartlyReady(
    g: ModelGraph, done: set<ModelId>, id: ModelId, settled: set<ModelId>, ready: set<ModelId>)
    requires g.Closed()
  {
    forall m :: m in ready <==>
      (m in Ready(g, done) && m != id) || (m in settled && m in g.models && g.deps[m] <= done + {id})
  }

  lemma OneFewer(deps: set<ModelId>, done: set<ModelId>, id: ModelId)
    requires id in deps && id !in done
    ensures Waits(deps, done) == Waits(deps, done + {id}) + 1
    ensures Waits(deps, done + {id}) == 0 <==> deps <= done + {id}
  {
    var fewer := deps - (done + {id});
    assert deps - done == fewer + {id};
    assert |fewer| == 0 <==> fewer == {};
  }

  lemma CountChild(
    g: ModelGraph, done: set<ModelId>, id: ModelId, settled: set<ModelId>, child: ModelId, counts: map<ModelId, nat>)
    requires g.Closed() && PartlyCounted(g, done, done + {id}, settled, counts)
    requires id !in done && child in g.models && id in g.deps[child] && child !in settled
    ensures counts[child] > 0
    ensures PartlyCounted(g, done, done + {id}, settled + {child}, counts[child := counts[child] - 1])
  {
    OneFewer(g.deps[child], done, id);
  }

  lemma ReadyChild(
    g: ModelGraph, done: set<ModelId>, id: ModelId, settled: set<ModelId>, child: ModelId, ready: set<ModelId>)
    requires g.Closed() && PartlyReady(g, done, id, settled, ready)
    requires id !in done && child in g.models && id in g.deps[child] && child !in settled
    ensures PartlyReady(
              g, done, id, settled + {child}, if g.deps[child] <= done + {id} then ready + {child} else ready)
  {
  }

  lemma AllCounted(
    g: ModelGraph, done: set<ModelId>, id: ModelId, settled: set<ModelId>, counts: map<ModelId, nat>)
    requires g.Closed() && PartlyCounted(g, done, done + {id}, settled, counts)
    requires forall m :: m in settled <==> m in g.models && id in g.deps[m]
    ensures Counts(g, counts, done + {id})
  {
    forall m | m in g.models && m !in settled ensures Waits(g.deps[m], done) == Waits(g.deps[m], done + {id}) {
      assert g.deps[m] - done == g.deps[m] - (done + {id});
    }
  }

  lemma AllReady(g: ModelGraph, done: set<ModelId>, id: ModelId, settled: set<ModelId>, ready: set<ModelId>)
    requires g.Closed() && PartlyReady(g, done, id, settled, ready)
    requires id in Ready(g, done)
    requires forall m :: m in done ==> m in g.models && g.deps[m] <= done
    requires forall m :: m in settled <==> m in g.models && id in g.deps[m]
    ensures ready == Ready(g, done + {id})
  {
    forall m ensures m in ready <==> m in Ready(g, done + {id}) {
      if m in g.models && m !in settled {
        assert g.deps[m] <= done <==> g.deps[m] <= done + {id};
      }
    }
  }

  /** A part of the order the algorithm builds. */
  ghost predicate Scheduled(g: ModelGraph, order: seq<ModelId>)
    requires g.Closed()
  {
    Distinct(order) && DependenciesFirst(g, order) && Greedy(g, order)
  }

  lemma NothingDone(g: ModelGraph, counts: map<ModelId, nat>)
    requires g.Closed() && counts.Keys == g.models && forall m :: m in g.models ==> counts[m] == |g.deps[m]|
    ensures Counts(g, counts, {})
    ensures (set m | m in counts && counts[m] == 0) == Ready(g, {})
  {
    forall m | m in g.models ensures counts[m] == Waits(g.deps[m], {}) && (counts[m] == 0 <==> g.deps[m] <= {}) {
      assert g.deps[m] - {} == g.deps[m];
      assert |g.deps[m]| == 0 <==> g.deps[m] == {};
    }
  }

  lemma ChildrenOf(g: ModelGraph, dependents: map<ModelId, seq<ModelId>>, id: ModelId)
    requires g.Closed() && Waiting(dependents, DependencyPairs(g, g.models))
    ensures var children := if id in dependents then dependents[id] else [];
            Distinct(children) && forall m :: m in children <==> m in g.models && id in g.deps[m]
  {
    forall m ensures m in (if id in dependents then dependents[id] else []) <==> m in g.models && id in g.deps[m] {
      assert (m, id) in DependencyPairs(g, g.models) <==> m in g.models && id in g.deps[m];
    }
  }

  lemma OrderExtends(g: ModelGraph, order: seq<ModelId>, id: ModelId)
    requires g.Closed() && Scheduled(g, order)
    requires IsLeast(ModelLess, id, Ready(g, Elements(order)))
    ensures Scheduled(g, order + [id]) && Elements(order + [id]) == Elements(order) + {id}
    ensures forall m :: m in Elements(order) ==> m in g.models && g.deps[m] <= Elements(order)
  {
    OrderGrows(g, order, id);
    var longer := order + [id];
    forall i | 0 <= i < |longer| ensures IsLeast(ModelLess, longer[i], Ready(g, Elements(longer[..i]))) {
      assert longer[..i] == order[..i];
      assert order[..|order|] == order;
    }
    forall m | m in order ensures m in g.models && g.deps[m] <= Elements(order) {
      var i :| 0 <= i < |order| && order[i] == m;
      assert Elements(order[..i]) <= Elements(order);
    }
  }

  lemma AllOrdered(g: ModelGraph, order: seq<ModelId>)
    requires g.Closed() && Scheduled(g, order) && Elements(order) <= g.models && |order| == |g.models|
    ensures IsLeastOrder(g, order)
  {
    DistinctSize(order);
    SubsetSize(Elements(order), g.models);
    GreedyIsLeast(g, order);
  }

  lemma SomeLeft(g: ModelGraph, order: seq<ModelId>)
    requires g.Closed() && Distinct(order) && Elements(order) <= g.models && |order| != |g.models|
    ensures Elements(order) != g.models
  {
    DistinctSize(order);
    assert |Elements(order)| != |g.models|;
  }

  // The depth-first search behind `cycle`, with its mutable colors and stack as
  // in- and out-parameters; an absent color is white. `finished` lists the black
  // models in the order they were finished.

  /** Visit every model that is still white. */
  method VisitAll(edges: seq<(ModelId, Dependency)>, ghost g: ModelGraph, ids: seq<ModelId>)
    returns (cycle: Option<seq<ModelId>>)
    requires g.Closed() && EdgesAgree(edges, g) && Elements(ids) == g.models
    ensures cycle.Some? ==> IsCycle(g, cycle.value)
    ensures cycle.None? ==> Orderable(g)
  {
    var colors: map<ModelId, Color> := map[];
    ghost var finished: seq<ModelId> := [];
    for i := 0 to |ids|
      invariant SearchState(g, colors, [], finished)
      invariant Elements(ids[..i]) <= colors.Keys
    {
      TakeOneMore(ids, i);
      if ids[i] !in colors {
        assert ids[i] in Elements(ids);
        cycle, colors, finished := Visit(edges, g, ids[i], colors, [], finished);
        if cycle.Some? {
          return;
        }
      }
    }
    assert ids[..|ids|] == ids;
    NothingGrey(g, colors, finished);
    return None;
  }

  method Visit(
    edges: seq<(ModelId, Dependency)>, ghost g: ModelGraph, node: ModelId,
    before: map<ModelId, Color>, stack: seq<ModelId>, ghost done: seq<ModelId>)
    returns (cycle: Option<seq<ModelId>>, colors: map<ModelId, Color>, ghost finished: seq<ModelId>)
    requires g.Closed() && EdgesAgree(edges, g) && SearchState(g, before, stack, done)
    requires node in g.models && node !in before
    requires stack != [] ==> node in g.deps[stack[|stack| - 1]]
    ensures cycle.Some? ==> IsCycle(g, cycle.value)
    ensures cycle.None? ==>
              SearchState(g, colors, stack, finished) && node in WithColor(colors, Black) && Grown(before, colors)
    decreases |g.models - before.Keys|, 0
  {
    colors, finished := before[node := Grey], done;
    PushNode(g, before, stack, done, node);
    FewerWhite(g.models, before.Keys, node, colors.Keys);
    var dependencies := SortedTargets(edges, node);
    TargetsAreDependencies(edges, g, node);
    cycle, colors, finished := VisitDependencies(edges, g, dependencies, colors, stack + [node], finished);
    if cycle.None? {
      FinishNode(g, colors, stack, finished, node);
      colors, finished := colors[node := Black], finished + [node];
    }
  }

  /** The loop over the dependencies of the model on top of the stack. */
  method VisitDependencies(
    edges: seq<(ModelId, Dependency)>, ghost g: ModelGraph, dependencies: seq<Dependency>,
    before: map<ModelId, Color>, stack: seq<ModelId>, ghost done: seq<ModelId>)
    returns (cycle: Option<seq<ModelId>>, colors: map<ModelId, Color>, ghost finished: seq<ModelId>)
    requires g.Closed() && EdgesAgree(edges, g) && SearchState(g, before, stack, done) && stack != []
    requires forall d :: OnModel(d) in dependencies <==> d in g.deps[stack[|stack| - 1]]
    ensures cycle.Some? ==> IsCycle(g, cycle.value)
    ensures cycle.None? ==>
              && SearchState(g, colors, stack, finished) && Grown(before, colors)
              && g.deps[stack[|stack| - 1]] <= WithColor(colors, Black)
    decreases |g.models - before.Keys|, 2
  {
    colors, finished := before, done;
    for i := 0 to |dependencies|
      invariant SearchState(g, colors, stack, finished) && Grown(before, colors)
      invariant ModelsAmong(Elements(dependencies[..i])) <= WithColor(colors, Black)
    {
      TakeOneMore(dependencies, i);
      if dependencies[i].OnModel? {
        assert OnModel(dependencies[i].id) in dependencies;
        SubsetSize(g.models - colors.Keys, g.models - before.Keys);
        cycle, colors, finished := VisitDependency(edges, g, dependencies[i].id, colors, stack, finished);
        if cycle.Some? {
          return;
        }
      }
    }
    assert dependencies[..|dependencies|] == dependencies;
    forall d | d in g.deps[stack[|stack| - 1]] ensures d in WithColor(colors, Black) {
      assert OnModel(d) in Elements(dependencies);
    }
    return None, colors, finished;
  }

  /** Follow one edge from the model on top of the stack. */
  method VisitDependency(
    edges: seq<(ModelId, Dependency)>, ghost g: ModelGraph, next: ModelId,
    before: map<ModelId, Color>, stack: seq<ModelId>, ghost done: seq<ModelId>)
    returns (cycle: Option<seq<ModelId>>, colors: map<ModelId, Color>, ghost finished: seq<ModelId>)
    requires g.Closed() && EdgesAgree(edges, g) && SearchState(g, before, stack, done) && stack != []
    requires next in g.deps[stack[|stack| - 1]]
    ensures cycle.Some? ==> IsCycle(g, cycle.value)
    ensures cycle.None? ==>
              SearchState(g, colors, stack, finished) && next in WithColor(colors, Black) && Grown(before, colors)
    decreases |g.models - before.Keys|, 1
  {
    if next !in before {
      assert stack[|stack| - 1] in g.models;
      cycle, colors, finished := Visit(edges, g, next, before, stack, done);
    } else if before[next] == Grey {
      assert next in WithColor(before, Grey);
      var start := IndexOf(stack, next);
      CloseWalk(g, stack, start, next);
      return Some(stack[start..] + [next]), before, done;
    } else {
      return None, before, done;
    }
  }

  /** More models are met, and finished ones stay finished. */
  ghost predicate Grown(before: map<ModelId, Color>, colors: map<ModelId, Color>) {
    before.Keys <= colors.Keys && WithColor(before, Black) <= WithColor(colors, Black)
  }

  lemma TargetsAreDependencies(edges: seq<(ModelId, Dependency)>, g: ModelGraph, node: ModelId)
    requires g.Closed() && EdgesAgree(edges, g) && node in g.models
    ensures forall d :: OnModel(d) in SortedTargets(edges, node) <==> d in g.deps[node]
  {
    SortedTargetsAreTargets(edges, node);
  }

  lemma NothingGrey(g: ModelGraph, colors: map<ModelId, Color>, finished: seq<ModelId>)
    requires g.Closed() && SearchState(g, colors, [], finished) && colors.Keys == g.models
    ensures Orderable(g)
  {
    forall m | m in g.models ensures m in Elements(finished) {
      assert m in WithColor(colors, Grey) ==> m in Elements([]);
    }
    assert IsOrder(g, finished);
  }

  lemma FewerWhite(models: set<ModelId>, before: set<ModelId>, node: ModelId, now: set<ModelId>)
    requires node in models && node !in before && before + {node} <= now
    ensures |models - now| < |models - before|
  {
    SubsetSize(models - now, models - before - {node});
  }

  /** The edges between models are the dependencies of the view. */
  ghost predicate EdgesAgree(edges: seq<(ModelId, Dependency)>, g: ModelGraph)
    requires g.Closed()
  {
    forall m, d :: m in g.models ==> ((m, OnModel(d)) in edges <==> d in g.deps[m])
  }

  function WithColor(colors: map<ModelId, Color>, color: Color): set<ModelId> {
    set m | m in colors && colors[m] == color
  }

  /** Grey models are the stack, which is a walk; black ones are finished, dependencies first. */
  ghost predicate SearchState(g: ModelGraph, colors: map<ModelId, Color>, stack: seq<ModelId>, finished: seq<ModelId>)
    requires g.Closed()
  {
    && colors.Keys <= g.models
    && Distinct(stack) && Elements(stack) == WithColor(colors, Grey) && (stack != [] ==> IsWalk(g, stack))
    && Distinct(finished) && Elements(finished) == WithColor(colors, Black) && DependenciesFirst(g, finished)
  }

  lemma PushNode(
    g: ModelGraph, colors: map<ModelId, Color>, stack: seq<ModelId>, finished: seq<ModelId>, node: ModelId)
    requires g.Closed() && SearchState(g, colors, stack, finished)
    requires node in g.models && node !in colors
    requires stack != [] ==> node in g.deps[stack[|stack| - 1]]
    ensures SearchState(g, colors[node := Grey], stack + [node], finished)
  {
    assert node !in Elements(stack);
    assert Elements(stack + [node]) == Elements(stack) + {node};
  }

  lemma FinishNode(
    g: ModelGraph, colors: map<ModelId, Color>, stack: seq<ModelId>, finished: seq<ModelId>, node: ModelId)
    requires g.Closed() && SearchState(g, colors, stack + [node], finished)
    requires node in g.models && g.deps[node] <= WithColor(colors, Black)
    ensures SearchState(g, colors[node := Black], stack, finished + [node])
  {
    PopStack(g, stack, node);
    assert node in WithColor(colors, Grey);
    assert WithColor(colors[node := Black], Grey) == WithColor(colors, Grey) - {node};
    assert WithColor(colors[node := Black], Black) == WithColor(colors, Black) + {node};
    assert node in Ready(g, Elements(finished));
    OrderGrows(g, finished, node);
  }

  lemma PopStack(g: ModelGraph, stack: seq<ModelId>, node: ModelId)
    requires g.Closed() && Distinct(stack + [node]) && IsWalk(g, stack + [node])
    ensures Elements(stack) == Elements(stack + [node]) - {node} && node in Elements(stack + [node])
    ensures Distinct(stack) && (stack != [] ==> IsWalk(g, stack))
  {
    var walk := stack + [node];
    assert walk[|stack|] == node && forall i :: 0 <= i < |stack| ==> walk[i] == stack[i];
    assert Elements(walk) == Elements(stack) + {node};
  }

  lemma PairsExtend(g: ModelGraph, done: set<ModelId>, id: ModelId)
    requires g.Closed() && id in g.models
    ensures DependencyPairs(g, done) + PairsOf(id, g.deps[id]) == DependencyPairs(g, done + {id})
  {
  }

  function PairsOf(m: ModelId, deps: set<ModelId>): set<(ModelId, ModelId)> {
    set d | d in deps :: (m, d)
  }

  ghost function DependencyPairs(g: ModelGraph, from: set<ModelId>): set<(ModelId, ModelId)>
    requires g.Closed()
  {
    set m, d | m in from && m in g.models && d in g.deps[m] :: (m, d)
  }

  function Push(dependents: map<ModelId, seq<ModelId>>, m: ModelId, on: ModelId): map<ModelId, seq<ModelId>> {
    dependents[on := (if on in dependents then dependents[on] else []) + [m]]
  }

  /** The lists of waiting models record exactly these (dependent, dependency) pairs, once each. */
  ghost predicate Waiting(dependents: map<ModelId, seq<ModelId>>, pairs: set<(ModelId, ModelId)>) {
    && (forall d :: d in dependents ==> Distinct(dependents[d]))
    && (forall m, d :: (m, d) in pairs <==> d in dependents && m in dependents[d])
  }

  lemma WaitingPush(dependents: map<ModelId, seq<ModelId>>, pairs: set<(ModelId, ModelId)>, m: ModelId, on: ModelId)
    requires Waiting(dependents, pairs) && (m, on) !in pairs
    ensures Waiting(Push(dependents, m, on), pairs + {(m, on)})
  {
  }
}
