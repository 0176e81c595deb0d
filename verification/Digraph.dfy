/**
 Dependency graphs of models as values: orders, cycles and reachability, and
 how they relate. The graph class, selection and lineage are specified with
 these notions.
 */
module Digraph {
  import opened Collections
  import opened Ordering
  import opened Identity

  /** `deps[m]` are the models that `m` reads. */
  datatype ModelGraph = ModelGraph(models: set<ModelId>, deps: map<ModelId, set<ModelId>>) {
    ghost predicate Closed() {
      deps.Keys == models && forall m :: m in models ==> deps[m] <= models
    }
  }

  /** The models not yet done whose dependencies all are. */
  ghost function Ready(g: ModelGraph, done: set<ModelId>): set<ModelId>
    requires g.Closed()
  {
    set m | m in g.models && m !in done && g.deps[m] <= done
  }

  ghost predicate DependenciesFirst(g: ModelGraph, order: seq<ModelId>)
    requires g.Closed()
  {
    forall i :: 0 <= i < |order| ==> order[i] in g.models && g.deps[order[i]] <= Elements(order[..i])
  }

  /** Every model exactly once, dependencies before dependents. */
  ghost predicate IsOrder(g: ModelGraph, order: seq<ModelId>)
    requires g.Closed()
  {
    Distinct(order) && Elements(order) == g.models && DependenciesFirst(g, order)
  }

  ghost predicate Orderable(g: ModelGraph)
    requires g.Closed()
  {
    exists order :: IsOrder(g, order)
  }

  ghost predicate IsWalk(g: ModelGraph, path: seq<ModelId>)
    requires g.Closed()
  {
    && path != []
    && (forall i :: 0 <= i < |path| ==> path[i] in g.models)
    && (forall i, j :: 0 <= i < |path| && 0 <= j < |path| && j == i + 1 ==> path[j] in g.deps[path[i]])
  }

  /** A walk along dependencies back to its start that repeats no other model. */
  ghost predicate IsCycle(g: ModelGraph, path: seq<ModelId>)
    requires g.Closed()
  {
    && |path| >= 2 && IsWalk(g, path)
    && path[0] == path[|path| - 1]
    && Distinct(path[..|path| - 1])
  }

  // -- Orders and cycles exclude each other ---------------------------------------

  ghost function Position(order: seq<ModelId>, m: ModelId): (i: nat)
    requires m in order
    ensures i < |order| && order[i] == m
  {
    var i: nat :| i < |order| && order[i] == m;
    i
  }

  lemma DependencyIsEarlier(g: ModelGraph, order: seq<ModelId>, m: ModelId, d: ModelId)
    requires g.Closed() && IsOrder(g, order) && m in g.models && d in g.deps[m]
    ensures m in order && d in order && Position(order, d) < Position(order, m)
  {
    assert m in Elements(order);
    assert d in Elements(order[..Position(order, m)]);
  }

  lemma {:induction false} WalkGoesBack(g: ModelGraph, order: seq<ModelId>, path: seq<ModelId>)
    requires g.Closed() && IsOrder(g, order) && IsWalk(g, path)
    ensures path[0] in order && path[|path| - 1] in order
    ensures Position(order, path[|path| - 1]) + |path| - 1 <= Position(order, path[0])
  {
    assert path[0] in Elements(order);
    if |path| > 1 {
      WalkGoesBack(g, order, path[1..]);
      DependencyIsEarlier(g, order, path[0], path[1]);
    }
  }

  /** The end of a walk that steps back onto itself is a cycle. */
  lemma CloseWalk(g: ModelGraph, path: seq<ModelId>, start: nat, next: ModelId)
    requires g.Closed() && IsWalk(g, path) && Distinct(path)
    requires start < |path| && path[start] == next && next in g.deps[path[|path| - 1]]
    ensures IsCycle(g, path[start..] + [next])
  {
    var cycle := path[start..] + [next];
    assert cycle[..|cycle| - 1] == path[start..];
    forall i, j | 0 <= i < |cycle| && 0 <= j < |cycle| && j == i + 1 ensures cycle[j] in g.deps[cycle[i]] {
      assert cycle[i] == path[start + i];
      assert cycle[j] == if start + j < |path| then path[start + j] else next;
    }
  }

  lemma ExtendWalk(g: ModelGraph, stuck: set<ModelId>, path: seq<ModelId>, next: ModelId)
    requires g.Closed() && stuck <= g.models
    requires IsWalk(g, path) && Distinct(path) && Elements(path) <= stuck
    requires next in stuck && next in g.deps[path[|path| - 1]] && next !in path
    ensures IsWalk(g, path + [next]) && Distinct(path + [next]) && Elements(path + [next]) <= stuck
    ensures |path| < |stuck|
  {
    assert Elements(path + [next]) == Elements(path) + {next};
    DistinctSize(path);
    assert next !in Elements(path);
    SubsetSize(Elements(path) + {next}, stuck);
  }

  lemma {:induction false} GrowWalk(g: ModelGraph, stuck: set<ModelId>, path: seq<ModelId>)
    returns (cycle: seq<ModelId>)
    requires g.Closed() && stuck <= g.models
    requires forall m :: m in stuck ==> g.deps[m] * stuck != {}
    requires IsWalk(g, path) && Distinct(path) && Elements(path) <= stuck
    ensures IsCycle(g, cycle)
    decreases |stuck| - |path|
  {
    var last := path[|path| - 1];
    assert last in Elements(path);
    assert g.deps[last] * stuck != {};
    var next :| next in g.deps[last] * stuck;
    if next in path {
      var start := IndexOf(path, next);
      CloseWalk(g, path, start, next);
      cycle := path[start..] + [next];
    } else {
      ExtendWalk(g, stuck, path, next);
      cycle := GrowWalk(g, stuck, path + [next]);
    }
  }

  /** Models that all wait for one another contain a cycle. */
  lemma StuckHasCycle(g: ModelGraph, stuck: set<ModelId>) returns (cycle: seq<ModelId>)
    requires g.Closed() && stuck <= g.models && stuck != {}
    requires forall m :: m in stuck ==> g.deps[m] * stuck != {}
    ensures IsCycle(g, cycle)
  {
    var m :| m in stuck;
    cycle := GrowWalk(g, stuck, [m]);
  }

  lemma CycleExcludesOrder(g: ModelGraph, cycle: seq<ModelId>)
    requires g.Closed() && IsCycle(g, cycle)
    ensures !Orderable(g)
  {
    forall order | IsOrder(g, order) ensures false {
      WalkGoesBack(g, order, cycle);
    }
  }

  /** With nothing ready, the models left over contain a cycle. */
  lemma StuckModels(g: ModelGraph, done: set<ModelId>)
    requires g.Closed() && done <= g.models && done != g.models && Ready(g, done) == {}
    ensures !Orderable(g) && exists cycle :: IsCycle(g, cycle)
  {
    var stuck := g.models - done;
    forall m | m in stuck ensures g.deps[m] * stuck != {} {
      assert m !in Ready(g, done);
      var d :| d in g.deps[m] && d !in done;
      assert d in g.deps[m] * stuck;
    }
    var cycle := StuckHasCycle(g, stuck);
    CycleExcludesOrder(g, cycle);
  }

  lemma {:induction false} OrderOrCycle(g: ModelGraph, order: seq<ModelId>)
    requires g.Closed() && Distinct(order) && Elements(order) <= g.models && DependenciesFirst(g, order)
    ensures Orderable(g) || exists cycle :: IsCycle(g, cycle)
    decreases g.models - Elements(order)
  {
    var done := Elements(order);
    if done == g.models {
      assert IsOrder(g, order);
    } else if Ready(g, done) == {} {
      StuckModels(g, done);
    } else {
      var next :| next in Ready(g, done);
      OrderGrows(g, order, next);
      OrderOrCycle(g, order + [next]);
    }
  }

  lemma OrderGrows(g: ModelGraph, order: seq<ModelId>, next: ModelId)
    requires g.Closed() && Distinct(order) && DependenciesFirst(g, order) && next in Ready(g, Elements(order))
    ensures Distinct(order + [next]) && DependenciesFirst(g, order + [next])
    ensures Elements(order + [next]) == Elements(order) + {next}
  {
    var longer := order + [next];
    forall i | 0 <= i < |longer| ensures longer[i] in g.models && g.deps[longer[i]] <= Elements(longer[..i]) {
      assert longer[..i] == order[..i];
      assert order[..|order|] == order;
    }
  }

  /** A graph can be ordered exactly when it has no cycle. */
  lemma OrderableExactlyWhenAcyclic(g: ModelGraph)
    requires g.Closed()
    ensures Orderable(g) <==> !exists cycle :: IsCycle(g, cycle)
  {
    OrderOrCycle(g, []);
    if cycle :| IsCycle(g, cycle) {
      CycleExcludesOrder(g, cycle);
    }
  }

  // -- The greedy order is the least one --------------------------------------------

  /** Each step takes the least ready model. */
  ghost predicate Greedy(g: ModelGraph, order: seq<ModelId>)
    requires g.Closed()
  {
    forall i :: 0 <= i < |order| ==> IsLeast(ModelLess, order[i], Ready(g, Elements(order[..i])))
  }

  lemma GreedyTakesLeast(g: ModelGraph, order: seq<ModelId>, other: seq<ModelId>, i: nat)
    requires g.Closed() && Greedy(g, order) && IsOrder(g, other)
    requires i < |order| && i < |other| && order[..i] == other[..i]
    ensures order[i] == other[i] || ModelLess(order[i], other[i])
  {
    assert other[i] in Elements(other);
    assert other[i] in Ready(g, Elements(order[..i]));
    assert IsLeast(ModelLess, order[i], Ready(g, Elements(order[..i])));
    ModelLessTotal();
  }

  /** No other order precedes this one lexicographically. */
  ghost predicate IsLeastOrder(g: ModelGraph, order: seq<ModelId>)
    requires g.Closed()
  {
    && IsOrder(g, order)
    && forall other :: IsOrder(g, other) ==> other == order || LexLess(ModelLess, order, other)
  }

  /** A greedy order is the lexicographically least of all orders. */
  lemma GreedyIsLeast(g: ModelGraph, order: seq<ModelId>)
    requires g.Closed() && IsOrder(g, order) && Greedy(g, order)
    ensures IsLeastOrder(g, order)
  {
    forall other | IsOrder(g, other) ensures other == order || LexLess(ModelLess, order, other) {
      DistinctSize(order);
      DistinctSize(other);
      if other != order {
        var i := FirstDifference(order, other);
        GreedyTakesLeast(g, order, other, i);
        LexAt(ModelLess, order, other, i);
      }
    }
  }

  // -- Computing along an order ----------------------------------------------------------

  /** A step that derives a model's value from those of its dependencies. */
  ghost predicate Local<V(!new)>(g: ModelGraph, step: (ModelId, map<ModelId, V>) -> V)
    requires g.Closed()
  {
    forall id, a, b :: id in g.models && SameValues(g.deps[id], a, b) ==> step(id, a) == step(id, b)
  }

  ghost predicate SameValues<V>(ids: set<ModelId>, a: map<ModelId, V>, b: map<ModelId, V>) {
    forall d :: d in ids ==> d in a && d in b && a[d] == b[d]
  }

  predicate HasStepValue<V(==)>(step: (ModelId, map<ModelId, V>) -> V, values: map<ModelId, V>, id: ModelId) {
    id in values && values[id] == step(id, values)
  }

  /** Every model has the value its step gives it. */
  ghost predicate IsFixpoint<V>(g: ModelGraph, step: (ModelId, map<ModelId, V>) -> V, values: map<ModelId, V>) {
    && values.Keys == g.models
    && forall id {:trigger HasStepValue(step, values, id)} :: id in g.models ==> HasStepValue(step, values, id)
  }

  function Along<V>(step: (ModelId, map<ModelId, V>) -> V, order: seq<ModelId>): (values: map<ModelId, V>)
    ensures values.Keys == Elements(order)
  {
    if order == [] then map[]
    else
      var rest, last := order[..|order| - 1], order[|order| - 1];
      assert Elements(order) == Elements(rest) + {last};
      var before := Along(step, rest);
      before[last := step(last, before)]
  }

  lemma {:induction false} AlongStays<V>(step: (ModelId, map<ModelId, V>) -> V, order: seq<ModelId>, i: nat, d: ModelId)
    requires Distinct(order) && i <= |order| && d in Elements(order[..i])
    ensures d in Elements(order) && Along(step, order)[d] == Along(step, order[..i])[d]
  {
    if i < |order| {
      var rest := order[..|order| - 1];
      assert rest[..i] == order[..i];
      AlongStays(step, rest, i, d);
      assert d in rest && order[|order| - 1] != d;
    } else {
      assert order[..i] == order;
    }
  }

  lemma AlongNext<V>(step: (ModelId, map<ModelId, V>) -> V, before: seq<ModelId>, id: ModelId)
    ensures id in Elements(before + [id])
    ensures Along(step, before + [id]) == Along(step, before)[id := step(id, Along(step, before))]
  {
    var upTo := before + [id];
    assert upTo[|upTo| - 1] == id && upTo[..|upTo| - 1] == before;
  }

  lemma AlongAt<V>(step: (ModelId, map<ModelId, V>) -> V, order: seq<ModelId>, i: nat)
    requires Distinct(order) && i < |order|
    ensures order[i] in Elements(order)
    ensures Along(step, order)[order[i]] == step(order[i], Along(step, order[..i]))
  {
    AlongNext(step, order[..i], order[i]);
    assert order[..i] + [order[i]] == order[..i + 1];
    AlongStays(step, order, i + 1, order[i]);
  }

  /** Going along any order gives every model the value its step gives it. */
  lemma AlongIsFixpoint<V(!new)>(g: ModelGraph, step: (ModelId, map<ModelId, V>) -> V, order: seq<ModelId>)
    requires g.Closed() && IsOrder(g, order) && Local(g, step)
    ensures IsFixpoint(g, step, Along(step, order))
  {
    var values := Along(step, order);
    forall id | id in g.models ensures HasStepValue(step, values, id) {
      assert id in Elements(order);
      var i := Position(order, id);
      var before := Along(step, order[..i]);
      forall d | d in g.deps[id] ensures d in before && d in values && before[d] == values[d] {
        DependencyIsEarlier(g, order, id, d);
        assert d in Elements(order[..i]);
        AlongStays(step, order, i, d);
      }
      assert SameValues(g.deps[id], before, values);
      AlongAt(step, order, i);
    }
  }

  lemma {:induction false} FixpointsAgree<V(!new)>(
    g: ModelGraph, step: (ModelId, map<ModelId, V>) -> V, order: seq<ModelId>,
    a: map<ModelId, V>, b: map<ModelId, V>, id: ModelId)
    requires g.Closed() && IsOrder(g, order) && Local(g, step)
    requires IsFixpoint(g, step, a) && IsFixpoint(g, step, b) && id in order
    ensures id in g.models && a[id] == b[id]
    decreases Position(order, id)
  {
    assert id in Elements(order);
    forall d | d in g.deps[id] ensures d in a && d in b && a[d] == b[d] {
      DependencyIsEarlier(g, order, id, d);
      FixpointsAgree(g, step, order, a, b, d);
    }
    assert SameValues(g.deps[id], a, b);
    assert HasStepValue(step, a, id) && HasStepValue(step, b, id);
  }

  /** In an acyclic graph the steps determine all values. */
  lemma FixpointUnique<V(!new)>(
    g: ModelGraph, step: (ModelId, map<ModelId, V>) -> V, order: seq<ModelId>, a: map<ModelId, V>, b: map<ModelId, V>)
    requires g.Closed() && IsOrder(g, order) && Local(g, step)
    requires IsFixpoint(g, step, a) && IsFixpoint(g, step, b)
    ensures a == b
  {
    forall id | id in g.models ensures a[id] == b[id] {
      assert id in Elements(order);
      FixpointsAgree(g, step, order, a, b, id);
    }
  }

  ghost predicate Hereditary(
    g: ModelGraph, h: ModelGraph, p: (ModelId, ModelId) -> bool, a: ModelId, b: ModelId)
    requires g.Closed() && h.Closed() && a in g.models && b in h.models
  {
    AllPairs(g.deps[a], h.deps[b], p) ==> p(a, b)
  }

  /** What follows for two models from their dependencies holds for all pairs of models. */
  lemma {:induction false} PairInduction(
    g: ModelGraph, order: seq<ModelId>, h: ModelGraph, other: seq<ModelId>, p: (ModelId, ModelId) -> bool,
    a: ModelId, b: ModelId)
    requires g.Closed() && IsOrder(g, order) && h.Closed() && IsOrder(h, other)
    requires forall a, b {:trigger Hereditary(g, h, p, a, b)} ::
               a in g.models && b in h.models ==> Hereditary(g, h, p, a, b)
    requires a in order && b in other
    ensures p(a, b)
    decreases Position(order, a)
  {
    assert a in Elements(order) && b in Elements(other);
    forall d, e | d in g.deps[a] && e in h.deps[b] ensures p(d, e) {
      DependencyIsEarlier(g, order, a, d);
      DependencyIsEarlier(h, other, b, e);
      PairInduction(g, order, h, other, p, d, e);
    }
    assert AllPairs(g.deps[a], h.deps[b], p);
    assert Hereditary(g, h, p, a, b);
  }

  ghost predicate AllPairs(a: set<ModelId>, b: set<ModelId>, p: (ModelId, ModelId) -> bool) {
    forall d, e :: d in a && e in b ==> p(d, e)
  }

  // -- Reachability ---------------------------------------------------------------------------

  /** `to` is `from` or one of its transitive dependencies. */
  ghost predicate Reaches(g: ModelGraph, from: ModelId, to: ModelId)
    requires g.Closed()
  {
    exists path :: IsWalk(g, path) && path[0] == from && path[|path| - 1] == to
  }

  lemma ReachesSelf(g: ModelGraph, m: ModelId)
    requires g.Closed() && m in g.models
    ensures Reaches(g, m, m)
  {
    assert IsWalk(g, [m]);
  }

  lemma ReachesFurther(g: ModelGraph, from: ModelId, via: ModelId, to: ModelId)
    requires g.Closed() && Reaches(g, from, via) && to in g.deps[via]
    ensures Reaches(g, from, to)
  {
    var path :| IsWalk(g, path) && path[0] == from && path[|path| - 1] == via;
    assert IsWalk(g, path + [to]);
  }

  lemma WalkBefore(g: ModelGraph, from: ModelId, path: seq<ModelId>)
    requires g.Closed() && from in g.models && IsWalk(g, path) && path[0] in g.deps[from]
    ensures IsWalk(g, [from] + path)
    ensures ([from] + path)[|path|] == path[|path| - 1]
  {
    var longer := [from] + path;
    forall i, j | 0 <= i < |longer| && 0 <= j < |longer| && j == i + 1 ensures longer[j] in g.deps[longer[i]] {
      if i > 0 {
        assert longer[i] == path[i - 1] && longer[j] == path[j - 1];
      }
    }
  }

  lemma ReachesBefore(g: ModelGraph, from: ModelId, via: ModelId, to: ModelId)
    requires g.Closed() && from in g.models && via in g.deps[from] && Reaches(g, via, to)
    ensures Reaches(g, from, to)
  {
    var path :| IsWalk(g, path) && path[0] == via && path[|path| - 1] == to;
    WalkBefore(g, from, path);
  }

  lemma {:induction false} ReachesAlong(g: ModelGraph, from: ModelId, path: seq<ModelId>)
    requires g.Closed() && IsWalk(g, path) && Reaches(g, from, path[0])
    ensures Reaches(g, from, path[|path| - 1])
    decreases |path|
  {
    if |path| > 1 {
      ReachesFurther(g, from, path[0], path[1]);
      ReachesAlong(g, from, path[1..]);
    }
  }

  lemma ReachesTransitive(g: ModelGraph, from: ModelId, via: ModelId, to: ModelId)
    requires g.Closed() && Reaches(g, from, via) && Reaches(g, via, to)
    ensures Reaches(g, from, to)
  {
    var path :| IsWalk(g, path) && path[0] == via && path[|path| - 1] == to;
    ReachesAlong(g, from, path);
  }

  /** A set that dependencies do not leave contains what its members reach. */
  lemma {:induction false} WalkStays(g: ModelGraph, inside: set<ModelId>, path: seq<ModelId>)
    requires g.Closed() && IsWalk(g, path) && path[0] in inside
    requires forall m :: m in inside && m in g.models ==> g.deps[m] <= inside
    ensures path[|path| - 1] in inside
  {
    if |path| > 1 {
      assert path[1] in g.deps[path[0]];
      WalkStays(g, inside, path[1..]);
    }
  }

  /** A set that dependents do not leave contains what reaches its members. */
  lemma {:induction false} WalkStaysBack(g: ModelGraph, inside: set<ModelId>, path: seq<ModelId>)
    requires g.Closed() && IsWalk(g, path) && path[|path| - 1] in inside
    requires forall m, d :: m in g.models && d in inside && d in g.deps[m] ==> m in inside
    ensures path[0] in inside
  {
    if |path| > 1 {
      WalkStaysBack(g, inside, path[1..]);
      assert path[1] in g.deps[path[0]];
    }
  }
}
