/**
 Workspaces whose compilation ends, and the smallest whose does not
 (crates/phlo-transform-core/src/compile.rs, crates/phlo-transform-core/src/rewrite.rs).

 The premises of the compilation theorem leave nothing to visit a second time.
 Without them a visit can come back to itself: an ephemeral model that reads
 itself, before the cycle is reported, and even in a workspace without cycles.
 */
module Endless {
  import opened Wrappers
  import opened Collections
  import opened Identity
  import opened Digraph
  import opened Sql
  import opened Resolve
  import opened Rewrite
  import opened Meaning
  import opened Compile
  import opened CompiledMeaning
  import opened Revisit
  import opened Hazards

  // -- Nothing to visit a second time -------------------------------------------------------------------

  lemma {:induction false} StableHasNoPoints<S>(
    ctx: Context<S>, within: set<string>, declared: set<string>, q: Query<S>)
    requires within <= declared && AllStable(ctx.env, ctx.ephemerals.Keys, References(within, q))
    ensures Points(ctx, declared, q) == {}
    decreases q, 1
  {
    StableCtesNoPoints(ctx, within + Names(q.ctes), declared + Names(q.ctes), q.ctes);
    StableBodyNoPoints(ctx, within + Names(q.ctes), declared + Names(q.ctes), q.body);
  }

  lemma {:induction false} StableCtesNoPoints<S>(
    ctx: Context<S>, within: set<string>, declared: set<string>, ctes: seq<Cte<S>>)
    requires within <= declared && AllStable(ctx.env, ctx.ephemerals.Keys, ReferencesInCtes(within, ctes))
    ensures PointsInCtes(ctx, declared, ctes) == {}
    decreases ctes, 0
  {
    if ctes != [] {
      StableHasNoPoints(ctx, within, declared, ctes[0].query);
      StableCtesNoPoints(ctx, within, declared, ctes[1..]);
    }
  }

  lemma {:induction false} StableBodyNoPoints<S>(
    ctx: Context<S>, within: set<string>, declared: set<string>, body: SetExpr<S>)
    requires within <= declared && AllStable(ctx.env, ctx.ephemerals.Keys, ReferencesInBody(within, body))
    ensures PointsInBody(ctx, declared, body) == {}
    decreases body, 0
  {
    match body
    case Select(_, _, from, subqueries) =>
      StableFromNoPoints(ctx, within, declared, from);
      StableAllNoPoints(ctx, within, declared, subqueries);
    case Nested(query) =>
      StableHasNoPoints(ctx, within, declared, query);
    case SetOperation(_, left, right) =>
      StableBodyNoPoints(ctx, within, declared, left);
      StableBodyNoPoints(ctx, within, declared, right);
  }

  lemma {:induction false} StableAllNoPoints<S>(
    ctx: Context<S>, within: set<string>, declared: set<string>, queries: seq<Query<S>>)
    requires within <= declared && AllStable(ctx.env, ctx.ephemerals.Keys, ReferencesInAll(within, queries))
    ensures PointsInAll(ctx, declared, queries) == {}
    decreases queries, 0
  {
    if queries != [] {
      StableHasNoPoints(ctx, within, declared, queries[0]);
      StableAllNoPoints(ctx, within, declared, queries[1..]);
    }
  }

  lemma {:induction false} StableFromNoPoints<S>(
    ctx: Context<S>, within: set<string>, declared: set<string>, from: seq<TableFactor<S>>)
    requires within <= declared && AllStable(ctx.env, ctx.ephemerals.Keys, ReferencesInFrom(within, from))
    ensures PointsInFrom(ctx, declared, from) == {}
    decreases from, 0
  {
    if from != [] {
      StableFactorNoPoints(ctx, within, declared, from[0]);
      StableFromNoPoints(ctx, within, declared, from[1..]);
    }
  }

  lemma {:induction false} StableFactorNoPoints<S>(
    ctx: Context<S>, within: set<string>, declared: set<string>, factor: TableFactor<S>)
    requires within <= declared && AllStable(ctx.env, ctx.ephemerals.Keys, ReferencesInFactor(within, factor))
    ensures PointsInFactor(ctx, declared, factor) == {}
    decreases factor, 0
  {
    match factor
    case Table(name, _) =>
      assert !IsRelationName(name) || IsCte(within, name) || Stable(ctx.env, ctx.ephemerals.Keys, name);
    case TableFunction(_, _) =>
    case Derived(query, _) =>
      StableHasNoPoints(ctx, within, declared, query);
  }

  /** Under the premises every model's compilation ends: what is inlined has nothing inlined in it. */
  lemma CompilationEnds<S>(w: Workspace<S>, id: ModelId, depth: nat)
    requires Compilable(w) && id in w.models
    ensures Ends(w, id, Inlinable(w, id, depth), 1)
  {
    var order :| IsOrder(DependencyGraph(w), order);
    InlinedGraphClosed(w);
    assert id in Elements(order);
    ExpansionLands(w, order, id, depth);
    var ctx := ContextFor(w, id, Inlinable(w, id, depth));
    assert CompilableModel(w, id);
    forall p | p in Points(ctx, {}, QueryOf(w, id)) ensures StopsAt(ctx, p, 1) {
      if p.id in ctx.ephemerals {
        var sub := ctx.ephemerals[p.id];
        assert References({}, sub) <= PhysicalNames(w);
        StableHasNoPoints(ctx, {}, p.declared, sub);
      }
    }
  }

  // -- A visit that comes back ------------------------------------------------------------------------------

  lemma OnePoint<S>(
    ctx: Context<S>, declared: set<string>, spec: S, quals: set<string>, name: Name, alias: Option<string>, id: ModelId)
    requires !IsCte(declared, name) && Inlined(ctx, name) && Resolved(ctx.env, name).id == id
    ensures Points(ctx, declared, OneReference(spec, quals, name, alias)) == {Point(declared, id)}
  {
    var q := OneReference(spec, quals, name, alias);
    var from: seq<TableFactor<S>> := [Table(name, alias)];
    assert from[1..] == [];
    assert PointsInFrom(ctx, declared, from) == {Point(declared, id)} + PointsInFrom(ctx, declared, from[1..]);
    assert PointsInBody(ctx, declared, q.body) == PointsInFrom(ctx, declared, from) + PointsInAll(ctx, declared, []);
    assert declared + Names(q.ctes) == declared;
  }

  lemma Repeated(chain: seq<Point>)
    requires |chain| >= 2 && chain[0] == chain[1]
    ensures !Distinct(chain)
  {
  }

  /** An inlined query that reads what it is inlined for is visited without end. */
  lemma SelfInliningIsEndless<S>(
    ctx: Context<S>, spec: S, quals: set<string>, name: Name, inner: Name, id: ModelId)
    requires Inlined(ctx, name) && Resolved(ctx.env, name).id == id
    requires Inlined(ctx, inner) && Resolved(ctx.env, inner).id == id
    requires ctx.ephemerals[id] == OneReference(spec, quals, inner, None)
    ensures ComesBack(ctx, {}, OneReference(spec, quals, name, None))
    ensures forall depth :: !Stops(ctx, {}, OneReference(spec, quals, name, None), depth)
  {
    var q, p := OneReference(spec, quals, name, None), Point({}, id);
    OnePoint(ctx, {}, spec, quals, name, None, id);
    OnePoint(ctx, {}, spec, quals, inner, None, id);
    var twice := [p, p];
    assert twice[1..] == [p] && [p][1..] == [];
    Repeated(twice);
    assert IsChain(ctx, Points(ctx, {}, q), twice);
    forall depth ensures !Stops(ctx, {}, q, depth) {
      ReturnNeverStops(ctx, Points(ctx, {}, q), twice, depth);
    }
  }

  // -- A model that reads itself ------------------------------------------------------------------------------

  function ModelOf<S>(
    id: ModelId, spec: S, quals: set<string>, name: Name, ephemeral: bool, schema: Option<string>): ModelDef<S>
  {
    ModelDef(id.ns, id.path, None, [QueryStatement(OneReference(spec, quals, name, None))], ephemeral, schema)
  }

  lemma OneDependency<S>(w: Workspace<S>, id: ModelId, spec: S, quals: set<string>, name: Name)
    requires id in w.models && IsRelationName(name)
    requires w.models[id].statements == [QueryStatement(OneReference(spec, quals, name, None))]
    ensures ReferencesOf(w.models[id].statements) == {name}
  {
    var q := OneReference(spec, quals, name, None);
    var from: seq<TableFactor<S>> := [Table(name, None)];
    assert from[1..] == [];
    assert ReferencesInFrom({}, from) == {name} + ReferencesInFrom({}, from[1..]);
    assert ReferencesInBody({}, q.body) == ReferencesInFrom({}, from) + ReferencesInAll<S>({}, []);
    assert {} + Names(q.ctes) == {};
    ReferencesOfQuery(w, id);
  }

  /** A model into which nothing is inlined expands to its query over its reference's physical name. */
  lemma LoneUnfolds<S>(w: Workspace<S>, id: ModelId, spec: S, quals: set<string>, name: Name, depth: nat)
    requires id in w.models && EphemeralDependencies(w, id) == {}
    requires w.models[id].statements == [QueryStatement(OneReference(spec, quals, name, None))]
    ensures Unfold(w, id, {}, depth) == Some(OneReference(spec, quals, Physical(EnvFor(w, id), name), None))
  {
    var none: map<ModelId, Query<S>> := map[];
    assert UnfoldAll(w, {}, {id}, depth) == none;
    assert {} + {id} == {id};
    OneRewrites(ContextFor(w, id, none), {}, spec, quals, name, None, depth);
  }

  /** One ephemeral model `ns.name` that selects from itself; no default catalog or schema. */
  function SelfReading<S>(spec: S, quals: set<string>, id: ModelId): Workspace<S> {
    var model := ModelOf(id, spec, quals, Segments(id), true, None);
    Workspace(map[id := model], [EntryFor(id, model)], None, None)
  }

  lemma SelfReadingRefers<S>(spec: S, quals: set<string>, id: ModelId)
    requires IsModelId(id)
    ensures var w := SelfReading(spec, quals, id);
            && IsRelationName(Segments(id)) && Resolved(EnvFor(w, id), Segments(id)) == ToModel(id)
            && EphemeralDependencies(w, id) == {id}
  {
    var w := SelfReading(spec, quals, id);
    QualifiedNameResolves(w.entries, w.entries[0], w.entries[0]);
    assert "" !in Segments(id);
    OneDependency(w, id, spec, quals, Segments(id));
    assert EnvFor(w, id).current == Some(w.entries[0]);
    var name := Segments(id);
    assert ResolveIn(w.entries, EntryFor(id, w.models[id]), name) == ToModel(id);
    assert ModelDependencies(w, id) == {id};
  }

  lemma SelfReadingInlines<S>(spec: S, quals: set<string>, ns: string, table: string, depth: nat)
    requires IsModelId(ModelId(ns, [table]))
    ensures var id := ModelId(ns, [table]);
            Inlinable(SelfReading(spec, quals, id), id, depth)
              == map[id := OneReference(spec, quals, Segments(id), None)]
  {
    var id := ModelId(ns, [table]);
    var w := SelfReading(spec, quals, id);
    var none: map<ModelId, Query<S>> := map[];
    SelfReadingRefers(spec, quals, id);
    assert UnfoldAll(w, {id}, {id}, depth) == none;
    assert {} + {id} == {id};
    assert TargetRelation(w, w.models[id]) == Relation(None, ns, table);
    OneRewrites(ContextFor(w, id, none), {}, spec, quals, Segments(id), None, depth);
    assert Physical(EnvFor(w, id), Segments(id)) == [ns, table] == Segments(id);
    assert Unfold(w, id, {}, depth) == Some(OneReference(spec, quals, Segments(id), None));
  }

  /** The compilation of a model that reads itself does not come to an end, whatever the bound. */
  lemma SelfReadingIsEndless<S>(spec: S, quals: set<string>, ns: string, table: string, depth: nat)
    requires IsModelId(ModelId(ns, [table]))
    ensures var id := ModelId(ns, [table]);
            var w := SelfReading(spec, quals, id);
            && ComesBack(ContextFor(w, id, Inlinable(w, id, depth)), {}, w.models[id].statements[0].query)
            && forall more :: !Ends(w, id, Inlinable(w, id, depth), more)
  {
    var id := ModelId(ns, [table]);
    var w := SelfReading(spec, quals, id);
    SelfReadingRefers(spec, quals, id);
    SelfReadingInlines(spec, quals, ns, table, depth);
    SelfInliningIsEndless(
      ContextFor(w, id, Inlinable(w, id, depth)), spec, quals, Segments(id), Segments(id), id);
  }

  // -- A workspace without cycles ---------------------------------------------------------------------------

  /**
   `ns.table` is materialised in schema `s`, where its table is `ns__table`. The
   ephemeral model `s.ns__table` selects from it, and `reader` from that model.
   */
  function Shadowing<S>(
    spec: S, quals: set<string>, ns: string, table: string, s: string, other: string, reader: ModelId): Workspace<S>
  {
    var base, shadow := ModelId(ns, [table]), ModelId(s, [ns + "__" + table]);
    var models := map[
      base := ModelDef(
        ns, [table], None, [QueryStatement(Query([], Select(spec, quals, [], [])))], false, Some(s)),
      shadow := ModelOf(shadow, spec, quals, Segments(base), true, Some(other)),
      reader := ModelOf(reader, spec, quals, Segments(shadow), false, None)];
    Workspace(
      models,
      [EntryFor(base, models[base]), EntryFor(shadow, models[shadow]), EntryFor(reader, models[reader])], None, None)
  }

  predicate Shadowable(ns: string, table: string, s: string, reader: ModelId) {
    && IsModelId(ModelId(ns, [table])) && IsModelId(ModelId(s, [ns + "__" + table])) && IsModelId(reader)
    && ns != s && reader != ModelId(ns, [table]) && reader != ModelId(s, [ns + "__" + table])
  }

  lemma DependsOnOne<S>(w: Workspace<S>, id: ModelId, spec: S, quals: set<string>, name: Name, on: ModelId)
    requires id in w.models && IsRelationName(name) && Resolved(EnvFor(w, id), name) == ToModel(on)
    requires w.models[id].statements == [QueryStatement(OneReference(spec, quals, name, None))]
    ensures ModelDependencies(w, id) == {on} && ReferencesOf(w.models[id].statements) == {name}
  {
    OneDependency(w, id, spec, quals, name);
  }

  lemma ShadowingDepends<S>(
    spec: S, quals: set<string>, ns: string, table: string, s: string, other: string, reader: ModelId,
    id: ModelId, on: ModelId)
    requires Shadowable(ns, table, s, reader)
    requires var base, shadow := ModelId(ns, [table]), ModelId(s, [ns + "__" + table]);
             (id == shadow && on == base) || (id == reader && on == shadow)
    ensures var w := Shadowing(spec, quals, ns, table, s, other, reader);
            && IsRelationName(Segments(on)) && Resolved(EnvFor(w, id), Segments(on)) == ToModel(on)
            && ModelDependencies(w, id) == {on}
  {
    var w := Shadowing(spec, quals, ns, table, s, other, reader);
    var entry := EntryFor(on, w.models[on]);
    assert entry in w.entries;
    assert w.models[id].statements == [QueryStatement(OneReference(spec, quals, Segments(on), None))];
    QualifiedNameResolves(w.entries, EntryFor(id, w.models[id]), entry);
    assert "" !in Segments(on);
    DependsOnOne(w, id, spec, quals, Segments(on), on);
  }

  lemma ThreeInOrder(g: ModelGraph, a: ModelId, b: ModelId, c: ModelId)
    requires g.models == {a, b, c} == g.deps.Keys && a != b && b != c && a != c
    requires g.deps[a] == {} && g.deps[b] == {a} && g.deps[c] == {b}
    ensures g.Closed() && Orderable(g)
  {
    var order := [a, b, c];
    assert order[..0] == [] && order[..1] == [a] && order[..2] == [a, b];
    assert IsOrder(g, order);
  }

  lemma BaseReadsNothing<S>(w: Workspace<S>, id: ModelId, spec: S, quals: set<string>)
    requires id in w.models && w.models[id].statements == [QueryStatement(Query([], Select(spec, quals, [], [])))]
    ensures ReferencesOf(w.models[id].statements) == {} && ModelDependencies(w, id) == {}
  {
    var q := Query([], Select(spec, quals, [], []));
    assert {} + Names(q.ctes) == {};
    assert ReferencesInBody({}, q.body) == ReferencesInFrom<S>({}, []) + ReferencesInAll<S>({}, []);
    ReferencesOfQuery(w, id);
  }

  lemma ShadowingIsAcyclic<S>(
    spec: S, quals: set<string>, ns: string, table: string, s: string, other: string, reader: ModelId)
    requires Shadowable(ns, table, s, reader)
    ensures var g := DependencyGraph(Shadowing(spec, quals, ns, table, s, other, reader)); g.Closed() && Orderable(g)
  {
    var base, shadow := ModelId(ns, [table]), ModelId(s, [ns + "__" + table]);
    var w := Shadowing(spec, quals, ns, table, s, other, reader);
    ShadowingDepends(spec, quals, ns, table, s, other, reader, shadow, base);
    ShadowingDepends(spec, quals, ns, table, s, other, reader, reader, shadow);
    BaseReadsNothing(w, base, spec, quals);
    ThreeInOrder(DependencyGraph(w), base, shadow, reader);
  }

  lemma ShadowingInlines<S>(
    spec: S, quals: set<string>, ns: string, table: string, s: string, other: string, reader: ModelId, depth: nat)
    requires Shadowable(ns, table, s, reader)
    ensures var shadow := ModelId(s, [ns + "__" + table]);
            Inlinable(Shadowing(spec, quals, ns, table, s, other, reader), reader, depth)
              == map[shadow := OneReference(spec, quals, Segments(shadow), None)]
  {
    var base, shadow := ModelId(ns, [table]), ModelId(s, [ns + "__" + table]);
    var w := Shadowing(spec, quals, ns, table, s, other, reader);
    ShadowingDepends(spec, quals, ns, table, s, other, reader, shadow, base);
    ShadowingDepends(spec, quals, ns, table, s, other, reader, reader, shadow);
    ShadowingTarget(spec, quals, ns, table, s, other, reader);
    LoneInlines(w, reader, shadow, spec, quals, Segments(base), depth);
  }

  lemma LoneInlines<S>(
    w: Workspace<S>, reader: ModelId, id: ModelId, spec: S, quals: set<string>, name: Name, depth: nat)
    requires id in w.models && EphemeralDependencies(w, id) == {}
    requires reader in w.models && EphemeralDependencies(w, reader) == {id}
    requires w.models[id].statements == [QueryStatement(OneReference(spec, quals, name, None))]
    ensures Inlinable(w, reader, depth) == map[id := OneReference(spec, quals, Physical(EnvFor(w, id), name), None)]
  {
    LoneUnfolds(w, id, spec, quals, name, depth);
  }

  lemma ShadowingTarget<S>(
    spec: S, quals: set<string>, ns: string, table: string, s: string, other: string, reader: ModelId)
    requires Shadowable(ns, table, s, reader)
    ensures var base, shadow := ModelId(ns, [table]), ModelId(s, [ns + "__" + table]);
            var w := Shadowing(spec, quals, ns, table, s, other, reader);
            base in w.models && ObjectName(TargetRelation(w, w.models[base])) == Segments(shadow)
  {
  }

  /** Without any cycle, a target that is an ephemeral model's name makes the visits endless. */
  lemma ShadowingIsEndless<S>(
    spec: S, quals: set<string>, ns: string, table: string, s: string, other: string, reader: ModelId, depth: nat)
    requires Shadowable(ns, table, s, reader)
    ensures var w := Shadowing(spec, quals, ns, table, s, other, reader);
            && DependencyGraph(w).Closed() && Orderable(DependencyGraph(w))
            && forall more :: !Ends(w, reader, Inlinable(w, reader, depth), more)
  {
    var shadow := ModelId(s, [ns + "__" + table]);
    var w := Shadowing(spec, quals, ns, table, s, other, reader);
    ShadowingIsAcyclic(spec, quals, ns, table, s, other, reader);
    ShadowingDepends(spec, quals, ns, table, s, other, reader, reader, shadow);
    ShadowingInlines(spec, quals, ns, table, s, other, reader, depth);
    SelfInliningIsEndless(
      ContextFor(w, reader, Inlinable(w, reader, depth)), spec, quals, Segments(shadow), Segments(shadow), shadow);
  }
}
