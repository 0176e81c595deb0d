/**
 Compiling a whole workspace keeps the meaning of every model
 (crates/phlo-transform-core/src/compile.rs,
 crates/phlo-transform-core/src/rewrite.rs).

 A workspace means something before it is compiled: each model is the table its
 query computes when every reference is read as the model or source it resolves
 to. Compiled queries read physical relations only. The two agree.
 */
module CompiledMeaning {
  import opened Wrappers
  import opened Collections
  import opened Identity
  import opened Digraph
  import opened Sql
  import opened Resolve
  import opened Rewrite
  import opened Meaning
  import opened Compile

  predicate SingleQuery<S>(model: ModelDef<S>) {
    |model.statements| == 1 && model.statements[0].QueryStatement?
  }

  function QueryOf<S>(w: Workspace<S>, id: ModelId): Query<S>
    requires id in w.models && SingleQuery(w.models[id])
  {
    w.models[id].statements[0].query
  }

  // -- What a workspace means ------------------------------------------------------------------

  /** What a model's reference stands for: a model's table, or a source's relation. */
  function Stands<S, T>(w: Workspace<S>, id: ModelId, tables: map<ModelId, T>, db: Name -> T, name: Name): T
    requires id in w.models
  {
    if !IsRelationName(name) then db(name)
    else
      match ResolveIn(w.entries, EntryFor(id, w.models[id]), name)
      case ToModel(m) => if m in tables then tables[m] else db(name)
      case External(source) => db(SourceRelation(source, w.catalog, w.schema))
      case Ambiguous(_) => db(name)
  }

  function Reads<S, T>(w: Workspace<S>, id: ModelId, tables: map<ModelId, T>, db: Name -> T): Name -> T
    requires id in w.models
  {
    name => Stands(w, id, tables, db, name)
  }

  ghost function TableStep<S, T, C>(m: Interp<S, T, C>, w: Workspace<S>, db: Name -> T)
    : (ModelId, map<ModelId, T>) -> T
  {
    (id, tables) =>
      if id in w.models && SingleQuery(w.models[id])
      then Eval(m, QueryOf(w, id), Reads(w, id, tables, db), map[], m.top)
      else db([])
  }

  /** Every model's table is what its own query computes from the tables and sources it refers to. */
  ghost predicate IsMeaning<S, T, C>(m: Interp<S, T, C>, w: Workspace<S>, tables: map<ModelId, T>, db: Name -> T) {
    IsFixpoint(DependencyGraph(w), TableStep(m, w, db), tables)
  }

  /** The physical database holds each materialised model at its target. */
  ghost predicate Materialised<S, T>(w: Workspace<S>, tables: map<ModelId, T>, db: Name -> T)
    requires tables.Keys == w.models.Keys
  {
    forall id :: id in w.models && !w.models[id].ephemeral ==>
      db(ObjectName(TargetRelation(w, w.models[id]))) == tables[id]
  }

  // -- Workspaces that can be compiled faithfully ---------------------------------------------------

  predicate ToModelName<S>(w: Workspace<S>, id: ModelId, name: Name)
    requires id in w.models
  {
    IsRelationName(name) && Resolved(EnvFor(w, id), name).ToModel?
  }

  /** The names compiled queries may refer to: targets, and what is left or made of references to sources. */
  ghost function PhysicalNames<S>(w: Workspace<S>): set<Name> {
    (set id | id in w.models && !w.models[id].ephemeral :: ObjectName(TargetRelation(w, w.models[id])))
    + set id, name | id in w.models && name in ReferencesOf(w.models[id].statements)
                     && !ToModelName(w, id, name) :: Physical(EnvFor(w, id), name)
  }

  /** Which models are inlined where. */
  function InlinedGraph<S>(w: Workspace<S>): ModelGraph {
    ModelGraph(w.models.Keys, map id | id in w.models :: EphemeralDependencies(w, id))
  }

  lemma InlinedGraphClosed<S>(w: Workspace<S>)
    ensures InlinedGraph(w).Closed()
  {
  }

  /** The simple names a model's own query leaves; a reference with a missing part is never renamed. */
  function OwnSimple<S>(w: Workspace<S>, id: ModelId): set<string>
    requires id in w.models
  {
    {""}
    + (set name | name in ReferencesOf(w.models[id].statements) && !ToModelName(w, id, name)
                  && |Physical(EnvFor(w, id), name)| == 1 :: Physical(EnvFor(w, id), name)[0])
    + if !SingleQuery(w.models[id]) then {}
      else
        set n | n in FreeNames(QueryOf(w, id)) && LeftAlone(EnvFor(w, id), EphemeralDependencies(w, id), [n])
  }

  /** The simple names a model's expansion leaves: its own and those of the models inlined into it. */
  ghost function FreeOf<S>(w: Workspace<S>, id: ModelId): set<string>
    requires InlinedGraph(w).Closed()
  {
    set m, n | m in w.models && Reaches(InlinedGraph(w), id, m) && n in OwnSimple(w, m) :: n
  }

  lemma FreeOfOwn<S>(w: Workspace<S>, id: ModelId)
    requires InlinedGraph(w).Closed() && id in w.models
    ensures OwnSimple(w, id) <= FreeOf(w, id)
  {
    ReachesSelf(InlinedGraph(w), id);
  }

  lemma FreeOfInlined<S>(w: Workspace<S>, id: ModelId, d: ModelId)
    requires InlinedGraph(w).Closed() && id in w.models && d in EphemeralDependencies(w, id)
    ensures FreeOf(w, d) <= FreeOf(w, id)
  {
    forall n | n in FreeOf(w, d) ensures n in FreeOf(w, id) {
      var m :| m in w.models && Reaches(InlinedGraph(w), d, m) && n in OwnSimple(w, m);
      ReachesBefore(InlinedGraph(w), id, d, m);
    }
  }

  ghost function PlaceFor<S>(w: Workspace<S>, id: ModelId): Place
    requires id in w.models
  {
    InlinedGraphClosed(w);
    Place(EnvFor(w, id), map d | d in EphemeralDependencies(w, id) :: FreeOf(w, d))
  }

  ghost predicate CompilableModel<S>(w: Workspace<S>, id: ModelId)
    requires id in w.models
  {
    && SingleQuery(w.models[id])
    && AllStable(EnvFor(w, id), EphemeralDependencies(w, id), PhysicalNames(w))
    && Faithful(PlaceFor(w, id), {}, {}, QueryOf(w, id))
  }

  /** Nothing here depends on the outcome of compilation. */
  ghost predicate Compilable<S>(w: Workspace<S>) {
    && Registered(w)
    && DependencyGraph(w).Closed() && Orderable(DependencyGraph(w))
    && forall id :: id in w.models ==> CompilableModel(w, id)
  }

  lemma ReferencesOfQuery<S>(w: Workspace<S>, id: ModelId)
    requires id in w.models && SingleQuery(w.models[id])
    ensures ReferencesOf(w.models[id].statements) == References({}, QueryOf(w, id))
  {
    assert w.models[id].statements[1..] == [];
  }

  // -- Compiled queries refer to physical names -------------------------------------------------------

  /** A reference is to an inlined ephemeral model, or is renamed to a physical name. */
  lemma ReferenceIsRenamed<S>(w: Workspace<S>, id: ModelId, name: Name)
    requires id in w.models && SingleQuery(w.models[id])
    requires name in References({}, QueryOf(w, id)) && !Refers(EnvFor(w, id), EphemeralDependencies(w, id), name)
    requires DependencyGraph(w).Closed()
    ensures Physical(EnvFor(w, id), name) in PhysicalNames(w)
  {
    ReferencesOfQuery(w, id);
    var resolution := Resolved(EnvFor(w, id), name);
    if ToModelName(w, id, name) {
      assert resolution.id in ModelDependencies(w, id);
      assert resolution.id in DependencyGraph(w).deps[id];
      assert resolution.id in w.models;
    }
  }

  lemma OwnReferences<S>(w: Workspace<S>, id: ModelId, name: Name)
    requires id in w.models && DependencyGraph(w).Closed() && CompilableModel(w, id) && InlinedGraph(w).Closed()
    requires name in References({}, QueryOf(w, id)) && !Refers(EnvFor(w, id), EphemeralDependencies(w, id), name)
    ensures Physical(EnvFor(w, id), name) in PhysicalNames(w)
    ensures |Physical(EnvFor(w, id), name)| == 1 ==> Physical(EnvFor(w, id), name)[0] in FreeOf(w, id)
  {
    ReferenceIsRenamed(w, id, name);
    ReferencesOfQuery(w, id);
    FreeOfOwn(w, id);
    if ToModelName(w, id, name) {
      assert Resolved(EnvFor(w, id), name).id in DependencyGraph(w).deps[id];
    }
  }

  ghost predicate ExpansionsLand<S>(w: Workspace<S>, ephemerals: map<ModelId, Query<S>>)
    requires InlinedGraph(w).Closed()
  {
    forall d :: d in ephemerals ==> Lands(ephemerals[d], PhysicalNames(w), FreeOf(w, d))
  }

  lemma CompiledLands<S>(
    w: Workspace<S>, id: ModelId, ephemerals: map<ModelId, Query<S>>, within: set<string>, depth: nat)
    requires id in w.models && DependencyGraph(w).Closed() && CompilableModel(w, id) && InlinedGraph(w).Closed()
    requires ephemerals.Keys == EphemeralDependencies(w, id) && ExpansionsLand(w, ephemerals)
    ensures var q := RewriteQuery(ContextFor(w, id, ephemerals), {}, QueryOf(w, id), depth);
            References(within, q) <= PhysicalNames(w) && FreeNames(q) <= FreeOf(w, id)
  {
    var ctx, place, simple := ContextFor(w, id, ephemerals), PlaceFor(w, id), FreeOf(w, id);
    forall name | name in References({}, QueryOf(w, id))
      ensures if Inlined(ctx, name) then place.free[Resolved(ctx.env, name).id] <= simple
              else
                && Physical(ctx.env, name) in PhysicalNames(w)
                && (|Physical(ctx.env, name)| == 1 ==> Physical(ctx.env, name)[0] in simple)
    {
      if Inlined(ctx, name) {
        FreeOfInlined(w, id, Resolved(ctx.env, name).id);
      } else {
        OwnReferences(w, id, name);
      }
    }
    FreeOfOwn(w, id);
    RewriteLands(ctx, place, PhysicalNames(w), simple, {}, {}, within, QueryOf(w, id), depth);
  }

  /** Every expansion exists, refers to physical names only, and leaves only the simple names foreseen free. */
  lemma {:induction false} ExpansionLands<S>(w: Workspace<S>, order: seq<ModelId>, id: ModelId, depth: nat)
    requires Compilable(w) && IsOrder(DependencyGraph(w), order) && id in order && InlinedGraph(w).Closed()
    ensures id in w.models && Inlinable(w, id, depth).Keys == EphemeralDependencies(w, id)
    ensures ExpansionsLand(w, Inlinable(w, id, depth))
    ensures Unfold(w, id, {}, depth).Some?
    ensures Lands(Unfold(w, id, {}, depth).value, PhysicalNames(w), FreeOf(w, id))
    decreases Position(order, id)
  {
    assert id in Elements(order);
    forall d | d in EphemeralDependencies(w, id)
      ensures Unfold(w, d, {}, depth).Some?
      ensures Lands(Unfold(w, d, {}, depth).value, PhysicalNames(w), FreeOf(w, d))
    {
      EphemeralDependencyIsEarlier(w, order, id, d);
      ExpansionLands(w, order, d, depth);
    }
    assert CompilableModel(w, id);
    UnfoldIsExpanded(w, order, id, depth);
    var ephemerals := Inlinable(w, id, depth);
    assert ephemerals.Keys == EphemeralDependencies(w, id);
    var q := RewriteQuery(ContextFor(w, id, ephemerals), {}, QueryOf(w, id), depth);
    forall within ensures References(within, q) <= PhysicalNames(w) {
      CompiledLands(w, id, ephemerals, within, depth);
    }
    CompiledLands(w, id, ephemerals, {}, depth);
    assert Unfold(w, id, {}, depth) == Some(q);
  }

  // -- Compiled queries compute what the models mean ---------------------------------------------------

  /** Reading a reference's physical name, or its inlined query, gives what the reference stands for. */
  lemma ReferenceIsDelivered<S, T, C>(
    m: Interp<S, T, C>, w: Workspace<S>, id: ModelId, ephemerals: map<ModelId, Query<S>>,
    tables: map<ModelId, T>, db: Name -> T, name: Name)
    requires id in w.models && Registered(w) && DependencyGraph(w).Closed() && CompilableModel(w, id)
    requires tables.Keys == w.models.Keys && Materialised(w, tables, db)
    requires ephemerals.Keys == EphemeralDependencies(w, id)
    requires forall d :: d in ephemerals ==> Eval(m, ephemerals[d], db, map[], m.top) == tables[d]
    requires name in References({}, QueryOf(w, id)) || !IsRelationName(name)
          || LeftAlone(EnvFor(w, id), EphemeralDependencies(w, id), name)
    ensures Stands(w, id, tables, db, name) == Delivered(m, ContextFor(w, id, ephemerals), name, db)
  {
    if IsRelationName(name) {
      ReferencesOfQuery(w, id);
      ResolvesToKnown(w.entries, EntryFor(id, w.models[id]), name);
      if ToModelName(w, id, name) {
        var d := Resolved(EnvFor(w, id), name).id;
        ResolvedIsModel(w, id, name);
        assert name in References({}, QueryOf(w, id)) ==> d in ModelDependencies(w, id);
      }
    }
  }

  /** A model's target has several parts, so no simple name is left alone that means a model. */
  lemma ResolvedIsModel<S>(w: Workspace<S>, id: ModelId, name: Name)
    requires id in w.models && Registered(w) && ToModelName(w, id, name)
    ensures Resolved(EnvFor(w, id), name).id in w.models
    ensures !LeftAlone(EnvFor(w, id), EphemeralDependencies(w, id), name)
  {
    var d := Resolved(EnvFor(w, id), name).id;
    ResolvesToKnown(w.entries, EntryFor(id, w.models[id]), name);
    var e :| e in w.entries && e.id == d;
    assert d in set e | e in w.entries :: e.id;
  }

  /** If the expansions compute what their models mean, so does the query they are inlined into. */
  lemma RewrittenComputes<S, T, C>(
    m: Interp<S, T, C>, w: Workspace<S>, id: ModelId, ephemerals: map<ModelId, Query<S>>, depth: nat,
    tables: map<ModelId, T>, db: Name -> T)
    requires id in w.models && Registered(w) && DependencyGraph(w).Closed() && CompilableModel(w, id)
    requires tables.Keys == w.models.Keys && Materialised(w, tables, db)
    requires ephemerals.Keys == EphemeralDependencies(w, id)
    requires InlinedGraph(w).Closed() && ExpansionsLand(w, ephemerals)
    requires forall d :: d in ephemerals ==> Eval(m, ephemerals[d], db, map[], m.top) == tables[d]
    ensures Eval(m, RewriteQuery(ContextFor(w, id, ephemerals), {}, QueryOf(w, id), depth), db, map[], m.top)
         == Eval(m, QueryOf(w, id), Reads(w, id, tables, db), map[], m.top)
  {
    var ctx, q, base := ContextFor(w, id, ephemerals), QueryOf(w, id), Reads(w, id, tables, db);
    var empty: map<string, T> := map[];
    forall name: Name
      | name in References({}, q) || !IsRelationName(name) || LeftAlone(ctx.env, ctx.ephemerals.Keys, name)
      ensures base(name) == Delivered(m, ctx, name, db)
    {
      ReferenceIsDelivered(m, w, id, ephemerals, tables, db, name);
    }
    assert empty.Keys == {};
    RewriteKeepsMeaning(
      m, ctx, References({}, q), PhysicalNames(w), PlaceFor(w, id), {}, q, depth, base, db, empty, m.top);
  }

  lemma {:induction false} CompiledComputes<S, T, C>(
    m: Interp<S, T, C>, w: Workspace<S>, order: seq<ModelId>, id: ModelId, depth: nat,
    tables: map<ModelId, T>, db: Name -> T)
    requires Compilable(w) && IsOrder(DependencyGraph(w), order) && id in order
    requires IsMeaning(m, w, tables, db) && Materialised(w, tables, db) && InlinedGraph(w).Closed()
    ensures id in w.models && Unfold(w, id, {}, depth).Some?
    ensures Eval(m, Unfold(w, id, {}, depth).value, db, map[], m.top) == tables[id]
    decreases Position(order, id)
  {
    ExpansionLands(w, order, id, depth);
    UnfoldIsExpanded(w, order, id, depth);
    forall d | d in EphemeralDependencies(w, id)
      ensures Unfold(w, d, {}, depth).Some?
      ensures Eval(m, Unfold(w, d, {}, depth).value, db, map[], m.top) == tables[d]
    {
      EphemeralDependencyIsEarlier(w, order, id, d);
      CompiledComputes(m, w, order, d, depth, tables, db);
    }
    RewrittenComputes(m, w, id, Inlinable(w, id, depth), depth, tables, db);
    assert HasStepValue(TableStep(m, w, db), tables, id);
  }

  /**
   For every meaning of blocks, set operations and table functions: over a
   database that holds the materialised models at their targets, each model's
   compiled query computes the table the model means.
   */
  lemma CompilationKeepsMeaning<S, T, C>(
    m: Interp<S, T, C>, w: Workspace<S>, depth: nat, tables: map<ModelId, T>, db: Name -> T)
    requires Compilable(w)
    requires IsMeaning(m, w, tables, db) && Materialised(w, tables, db)
    ensures forall id :: id in w.models ==>
              && Expanded(w, id, Inlinable(w, id, depth), depth).Some?
              && Eval(m, Expanded(w, id, Inlinable(w, id, depth), depth).value, db, map[], m.top) == tables[id]
  {
    var order :| IsOrder(DependencyGraph(w), order);
    InlinedGraphClosed(w);
    forall id | id in w.models
      ensures Expanded(w, id, Inlinable(w, id, depth), depth).Some?
      ensures Eval(m, Expanded(w, id, Inlinable(w, id, depth), depth).value, db, map[], m.top) == tables[id]
    {
      assert id in Elements(order);
      CompiledComputes(m, w, order, id, depth, tables, db);
      UnfoldIsExpanded(w, order, id, depth);
    }
  }

  // -- A workspace means exactly one thing ----------------------------------------------------------------

  /** A model's table depends on the tables of its dependencies only. */
  lemma TableFromDependencies<S, T, C>(
    m: Interp<S, T, C>, w: Workspace<S>, id: ModelId, a: map<ModelId, T>, b: map<ModelId, T>, db: Name -> T)
    requires id in w.models && Registered(w) && CompilableModel(w, id)
    requires forall d :: d in ModelDependencies(w, id) ==> d in a && d in b && a[d] == b[d]
    ensures Eval(m, QueryOf(w, id), Reads(w, id, a, db), map[], m.top)
         == Eval(m, QueryOf(w, id), Reads(w, id, b, db), map[], m.top)
  {
    var q, empty: map<string, T> := QueryOf(w, id), map[];
    ReferencesOfQuery(w, id);
    forall name: Name
      | name in References({}, q) || !IsRelationName(name)
        || LeftAlone(EnvFor(w, id), EphemeralDependencies(w, id), name)
      ensures Reads(w, id, a, db)(name) == Reads(w, id, b, db)(name)
    {
      if ToModelName(w, id, name) {
        ResolvedIsModel(w, id, name);
        assert Resolved(EnvFor(w, id), name).id in ModelDependencies(w, id);
      }
    }
    assert empty.Keys == {};
    EvalReadsReferences(m, PlaceFor(w, id), {}, q, Reads(w, id, a, db), Reads(w, id, b, db), empty, m.top);
  }

  lemma TablesAreLocal<S, T(!new), C>(m: Interp<S, T, C>, w: Workspace<S>, db: Name -> T)
    requires Compilable(w)
    ensures Local(DependencyGraph(w), TableStep(m, w, db))
  {
    var g, step := DependencyGraph(w), TableStep(m, w, db);
    forall id, a, b | id in g.models && SameValues(g.deps[id], a, b) ensures step(id, a) == step(id, b) {
      assert CompilableModel(w, id);
      TableFromDependencies(m, w, id, a, b, db);
    }
  }

  /** Over given sources, a compilable workspace means exactly one table per model. */
  lemma WorkspaceHasOneMeaning<S, T(!new), C>(m: Interp<S, T, C>, w: Workspace<S>, db: Name -> T)
    requires Compilable(w)
    ensures exists tables :: IsMeaning(m, w, tables, db)
    ensures forall a, b :: IsMeaning(m, w, a, db) && IsMeaning(m, w, b, db) ==> a == b
  {
    var g, step := DependencyGraph(w), TableStep(m, w, db);
    var order :| IsOrder(g, order);
    TablesAreLocal(m, w, db);
    AlongIsFixpoint(g, step, order);
    assert IsMeaning(m, w, Along(step, order), db);
    forall a, b | IsMeaning(m, w, a, db) && IsMeaning(m, w, b, db) ensures a == b {
      FixpointUnique(g, step, order, a, b);
    }
  }
}
