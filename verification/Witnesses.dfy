/** Inputs that meet the premises of the main theorems. */
module Witnesses {
  import opened Wrappers
  import opened Collections
  import opened Identity
  import opened Digraph
  import opened Sql
  import opened Resolve
  import opened Rewrite
  import opened Meaning
  import opened Compile
  import opened CompiledMeaning
  import opened Hazards
  import opened Endless
  import opened Relational
  import opened Semantic
  import opened Analyze
  import opened AnalyzeSound
  import opened AnalyzeTheorems
  import opened AnalyzeHazards
  import opened NullHazards

  // -- A workspace that compiles faithfully ------------------------------------------------------------

  /** A materialised model, an ephemeral one that selects from it, and a reader the latter is inlined into. */
  function Layered<S>(spec: S, quals: set<string>, base: ModelId, middle: ModelId, top: ModelId): Workspace<S> {
    var models := map[
      base := ModelDef(
        base.ns, base.path, None, [QueryStatement(Query([], Select(spec, quals, [], [])))], false, None),
      middle := ModelOf(middle, spec, quals, Segments(base), true, None),
      top := ModelOf(top, spec, quals, Segments(middle), false, None)];
    Workspace(
      models,
      [EntryFor(base, models[base]), EntryFor(middle, models[middle]), EntryFor(top, models[top])], None, None)
  }

  predicate Layers(base: ModelId, middle: ModelId, top: ModelId) {
    && IsModelId(base) && IsModelId(middle) && IsModelId(top)
    && |base.path| == 1 && |middle.path| == 1 && |top.path| == 1
    && base != middle && middle != top && base != top
  }

  lemma LayerResolves<S>(
    spec: S, quals: set<string>, base: ModelId, middle: ModelId, top: ModelId, id: ModelId, on: ModelId)
    requires Layers(base, middle, top) && id in {base, middle, top} && on in {base, middle, top}
    ensures var w := Layered(spec, quals, base, middle, top);
            && IsRelationName(Segments(on)) && |Segments(on)| == 2
            && Resolved(EnvFor(w, id), Segments(on)) == ToModel(on)
            && Physical(EnvFor(w, id), Segments(on)) == Segments(on)
            && ObjectName(TargetRelation(w, w.models[on])) == Segments(on)
  {
    var w := Layered(spec, quals, base, middle, top);
    var entry := EntryFor(on, w.models[on]);
    assert entry in w.entries;
    QualifiedNameResolves(w.entries, EntryFor(id, w.models[id]), entry);
    assert "" !in Segments(on);
    assert TargetRelation(w, w.models[on]) == Relation(None, on.ns, on.path[0]);
  }

  lemma LayeredDepends<S>(spec: S, quals: set<string>, base: ModelId, middle: ModelId, top: ModelId)
    requires Layers(base, middle, top)
    ensures var w := Layered(spec, quals, base, middle, top);
            && ModelDependencies(w, base) == {} && ModelDependencies(w, middle) == {base}
            && ModelDependencies(w, top) == {middle}
            && ReferencesOf(w.models[base].statements) == {}
            && ReferencesOf(w.models[middle].statements) == {Segments(base)}
            && ReferencesOf(w.models[top].statements) == {Segments(middle)}
  {
    var w := Layered(spec, quals, base, middle, top);
    LayerResolves(spec, quals, base, middle, top, middle, base);
    LayerResolves(spec, quals, base, middle, top, top, middle);
    BaseReadsNothing(w, base, spec, quals);
    DependsOnOne(w, middle, spec, quals, Segments(base), base);
    DependsOnOne(w, top, spec, quals, Segments(middle), middle);
  }

  lemma LayerReads<S>(
    spec: S, quals: set<string>, base: ModelId, middle: ModelId, top: ModelId, id: ModelId, name: Name)
    requires Layers(base, middle, top) && id in {base, middle, top}
    requires name in ReferencesOf(Layered(spec, quals, base, middle, top).models[id].statements)
    ensures ToModelName(Layered(spec, quals, base, middle, top), id, name)
  {
    LayeredDepends(spec, quals, base, middle, top);
    LayerResolves(spec, quals, base, middle, top, id, base);
    LayerResolves(spec, quals, base, middle, top, id, middle);
  }

  lemma LayeredPhysical<S>(
    spec: S, quals: set<string>, base: ModelId, middle: ModelId, top: ModelId, name: Name)
    requires Layers(base, middle, top) && name in PhysicalNames(Layered(spec, quals, base, middle, top))
    ensures name == Segments(base) || name == Segments(top)
  {
    var w := Layered(spec, quals, base, middle, top);
    LayeredModels(spec, quals, base, middle, top);
    if id :| id in w.models && !w.models[id].ephemeral && name == ObjectName(TargetRelation(w, w.models[id])) {
      LayerResolves(spec, quals, base, middle, top, id, id);
    } else {
      var id, reference :| id in w.models && reference in ReferencesOf(w.models[id].statements)
        && !ToModelName(w, id, reference) && name == Physical(EnvFor(w, id), reference);
      LayerReads(spec, quals, base, middle, top, id, reference);
    }
  }

  lemma LayeredModels<S>(spec: S, quals: set<string>, base: ModelId, middle: ModelId, top: ModelId)
    requires Layers(base, middle, top)
    ensures var w := Layered(spec, quals, base, middle, top);
            w.models.Keys == {base, middle, top} && w.models[middle].ephemeral
  {
  }

  lemma OneIsFaithful<S>(place: Place, spec: S, quals: set<string>, name: Name)
    requires |name| == 2 && IsRelationName(name) && !Resolved(place.env, name).Ambiguous?
    requires Refers(place.env, place.free.Keys, name) || Physical(place.env, name) == name
    ensures Faithful(place, {}, {}, OneReference(spec, quals, name, None))
  {
    var q := OneReference(spec, quals, name, None);
    var from: seq<TableFactor<S>> := [Table(name, None)];
    assert {} + Names(q.ctes) == {};
    assert from[1..] == [];
    assert FaithfulFactor(place, {}, {}, quals, from[0]);
    assert FaithfulFrom(place, {}, {}, quals, from);
  }

  lemma NothingIsFaithful<S>(place: Place, spec: S, quals: set<string>)
    ensures Faithful(place, {}, {}, Query([], Select(spec, quals, [], [])))
  {
  }

  lemma LayerIsStable<S>(
    spec: S, quals: set<string>, base: ModelId, middle: ModelId, top: ModelId, id: ModelId)
    requires Layers(base, middle, top) && id in {base, middle, top}
    ensures var w := Layered(spec, quals, base, middle, top);
            AllStable(EnvFor(w, id), EphemeralDependencies(w, id), PhysicalNames(w))
  {
    var w := Layered(spec, quals, base, middle, top);
    forall name | name in PhysicalNames(w) ensures Stable(EnvFor(w, id), EphemeralDependencies(w, id), name) {
      LayeredPhysical(spec, quals, base, middle, top, name);
      LayeredDepends(spec, quals, base, middle, top);
      LayerResolves(spec, quals, base, middle, top, id, base);
      LayerResolves(spec, quals, base, middle, top, id, top);
    }
  }

  lemma LayerCompiles<S>(
    spec: S, quals: set<string>, base: ModelId, middle: ModelId, top: ModelId, id: ModelId)
    requires Layers(base, middle, top) && id in {base, middle, top}
    ensures CompilableModel(Layered(spec, quals, base, middle, top), id)
  {
    var w := Layered(spec, quals, base, middle, top);
    LayerIsStable(spec, quals, base, middle, top, id);
    LayeredDepends(spec, quals, base, middle, top);
    LayerResolves(spec, quals, base, middle, top, id, base);
    LayerResolves(spec, quals, base, middle, top, id, middle);
    if id == base {
      NothingIsFaithful(PlaceFor(w, id), spec, quals);
    } else if id == middle {
      OneIsFaithful(PlaceFor(w, id), spec, quals, Segments(base));
    } else {
      OneIsFaithful(PlaceFor(w, id), spec, quals, Segments(middle));
    }
  }

  /** The premises of the compilation theorem hold of a workspace in which one model is inlined into another. */
  lemma LayeredIsCompilable<S>(spec: S, quals: set<string>, base: ModelId, middle: ModelId, top: ModelId)
    requires Layers(base, middle, top)
    ensures Compilable(Layered(spec, quals, base, middle, top))
    ensures EphemeralDependencies(Layered(spec, quals, base, middle, top), top) == {middle}
  {
    var w := Layered(spec, quals, base, middle, top);
    LayeredDepends(spec, quals, base, middle, top);
    ThreeInOrder(DependencyGraph(w), base, middle, top);
    forall id | id in w.models ensures CompilableModel(w, id) {
      LayerCompiles(spec, quals, base, middle, top, id);
    }
    LayeredIsRegistered(spec, quals, base, middle, top);
  }

  lemma LayeredIsRegistered<S>(spec: S, quals: set<string>, base: ModelId, middle: ModelId, top: ModelId)
    requires Layers(base, middle, top)
    ensures Registered(Layered(spec, quals, base, middle, top))
  {
    var w := Layered(spec, quals, base, middle, top);
    var entries := w.entries;
    assert entries[0].id == base && entries[1].id == middle && entries[2].id == top;
    assert w.models.Keys == {base, middle, top};
  }

  // -- A query the analyser is sound for ------------------------------------------------------------------

  /** Operators that keep their first operand. */
  const KEEPING := Engine(
    (op, v) => v,
    (op, v, u) => v,
    (attempt, target, v) => v,
    (down, v) => true,
    (kind, args) => Num(0),
    (name, args) => Num(0),
    (kind, args) => Num(0),
    (down, v) => v,
    (position, env, nested) => Num(0),
    name => Extent([], map[]))

  /**
   Over a relation with a known schema, the premises of the nullability and lineage
   theorems hold of SELECT * FROM x.
   */
  lemma ReadAllIsAnalysable(a: Analyzer, x: string)
    requires KnownRelation(a, [x])
    ensures var q := Query([], ReadAll(x));
            && Strict(KEEPING) && MatchesSchemas(a, NullestDatabase(a), true)
            && Analysable(a, q, {}, {}) && NullSafe(a, q, START)
            && !AnalyzeQuery(a, q, START).1.unknown && !AnalyzeQuery(a, q, START).1.failed
            && AnalyzeQuery(a, q, START).0 == BaseColumns(a, [x]).0
  {
    var q := Query([], ReadAll(x));
    var from := q.body.from;
    NullestMatches(a);
    ReadAllColumns(a, x, START);
    assert from[1..] == [];
    assert AnalysableFactor(a, from[0], {}, {});
    assert {} + Names(q.ctes) == {} && {} + DeclaresCtes(q.ctes) == {};
    assert AnalysableFrom(a, from, {}, {}) && CoversBlock({}, q.body.spec);
    assert AnalyzeCtes(a, q.ctes, START) == START;
    assert NullSafeFactor(a, from[0], START) && NullSafeFrom(a, from, START);
    assert forall k: nat :: !Paddable(q.body.spec.joins, 1, k);
    var (relation, after) := AnalyzeFactor(a, from[0], START);
    assert BuildScope(a, q.body.spec.joins, 0, from, BuiltScope([], {}, true), START)
        == (AddRelation(BuiltScope([], {}, true), JoinAt(q.body.spec.joins, 0), relation), after);
    SafelyPaddedOutlasts(q.body.spec, AddRelation(BuiltScope([], {}, true), JoinAt(q.body.spec.joins, 0), relation));
  }

  // -- A claim about the kept side of an outer join ---------------------------------------------------

  /** SELECT l.k FROM l LEFT JOIN r ON FALSE. */
  const KEPT_SIDE := Block(
    [Join(Comma, None), Join(LeftOuter, Some(Literal(Bool(false))))], None, [Selected(Col(Some("l"), "k"), None)])

  lemma LookUpLeft(l: Heading, r: Heading)
    requires l == Heading(Some("l"), ["k"]) && r == Heading(Some("r"), ["c"])
    ensures Positions([l, r], Some("l"), "k", 0) == [(0, 0)]
  {
    assert Lower("l")[0] == 'l' && Lower("r")[0] == 'r';
    assert Qualifies(l, Some("l")) && !Qualifies(r, Some("l"));
    assert NameIndexes(["k"], "k", 1) == [];
    assert NameIndexes(["k"], "k", 0) == [0];
    assert Positions([l, r], Some("l"), "k", 2) == [];
    assert Positions([l, r], Some("l"), "k", 1) == [];
    assert Positions([l, r], Some("l"), "k", 0) == Paired(0, [0]) + [];
  }

  /** What is selected from the kept side rests on no claim of the other, although that has a NOT NULL column. */
  lemma KeptSideOutlasts()
    ensures var built := BuiltScope([RequiredColumn("l", "k"), RequiredColumn("r", "c")], {}, true);
            && ClaimsOutlastPadding(KEPT_SIDE, built) && !SafelyPadded(KEPT_SIDE.joins, built.scope)
            && SelectColumns(KEPT_SIDE, built) == [Column("k", NotNull, {}, true)]
  {
    var scope := [RequiredColumn("l", "k"), RequiredColumn("r", "c")];
    var relaxed := RelaxedScope(KEPT_SIDE.joins, scope);
    assert relaxed[0] == RelaxedAt(KEPT_SIDE.joins, scope, 0) && relaxed[1] == RelaxedAt(KEPT_SIDE.joins, scope, 1);
    assert !Paddable(KEPT_SIDE.joins, 2, 0) && Paddable(KEPT_SIDE.joins, 2, 1);
    KeptColumn(scope);
    KeptColumn(relaxed);
  }

  lemma KeptResolves(scope: Scope)
    requires |scope| == 2 && scope[0] == RequiredColumn("l", "k")
    requires scope[1].qualifier == Some("r") && ColumnNames(scope[1].columns) == ["c"]
    ensures ResolveColumn(scope, Some("l"), "k") == Inferred(NotNull, {}, true)
  {
    LookUpLeft(Heading(Some("l"), ["k"]), Heading(Some("r"), ["c"]));
    assert ColumnNames(scope[0].columns) == ["k"];
    assert ScopeHeadings(scope) == [Heading(Some("l"), ["k"]), Heading(Some("r"), ["c"])];
  }

  lemma OneItem(expr: Expr, name: string, scope: Scope, i: Inferred)
    requires expr == Col(Some("l"), name) && Infer(expr, scope) == i
    ensures ItemColumns([Selected(expr, None)], scope, {}, true)
         == [Column(name, i.nullability, i.inputs, i.complete)]
  {
    var items := [Selected(expr, None)];
    assert items[..0] == [] && ItemColumns([], scope, {}, true) == [];
    assert i.inputs + {} == i.inputs;
  }

  lemma KeptColumn(scope: Scope)
    requires |scope| == 2 && scope[0] == RequiredColumn("l", "k")
    requires scope[1].qualifier == Some("r") && ColumnNames(scope[1].columns) == ["c"]
    ensures SelectColumns(KEPT_SIDE, BuiltScope(scope, {}, true)) == [Column("k", NotNull, {}, true)]
  {
    KeptResolves(scope);
    OneItem(Col(Some("l"), "k"), "k", scope, Inferred(NotNull, {}, true));
  }
}
