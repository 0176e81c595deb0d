/**
 Compiling a workspace: dependencies, targets, and the expansion of ephemeral
 models into the queries that read them
 (crates/phlo-transform-core/src/compile.rs).
 */
module Compile {
  import opened Wrappers
  import opened Collections
  import opened Identity
  import opened Digraph
  import opened Sql
  import opened Resolve
  import opened Rewrite
  import opened Revisit
  import opened Meaning

  datatype Statement<S> = QueryStatement(query: Query<S>) | OtherStatement

  datatype ModelDef<S> = ModelDef(
    ns: string,
    path: seq<string>,
    root: Option<RootRef>,
    statements: seq<Statement<S>>,
    ephemeral: bool,
    schema: Option<string>)

  /** The lowered models, by identity, with the registry the resolver is built over. */
  datatype Workspace<S> = Workspace(
    models: map<ModelId, ModelDef<S>>,
    entries: seq<RegistryEntry>,
    catalog: Option<string>,
    schema: Option<string>)

  function EntryFor<S>(id: ModelId, model: ModelDef<S>): RegistryEntry {
    RegistryEntry(id, model.ns, model.root)
  }

  /** The registry lists the workspace's models. */
  ghost predicate Registered<S>(w: Workspace<S>) {
    (set e | e in w.entries :: e.id) == w.models.Keys
  }

  function JoinPath(path: seq<string>): string {
    if path == [] then "" else if |path| == 1 then path[0] else path[0] + "__" + JoinPath(path[1..])
  }

  function TargetSchema<S>(w: Workspace<S>, model: ModelDef<S>): string {
    if model.schema.Some? then model.schema.value
    else if w.schema.Some? then w.schema.value
    else model.ns
  }

  function TargetRelation<S>(w: Workspace<S>, model: ModelDef<S>): Relation {
    var schema := TargetSchema(w, model);
    var table := if schema == model.ns then JoinPath(model.path) else model.ns + "__" + JoinPath(model.path);
    Relation(w.catalog, schema, table)
  }

  function EnvFor<S>(w: Workspace<S>, id: ModelId): Env
    requires id in w.models
  {
    Env(
      w.entries, Some(EntryFor(id, w.models[id])),
      map m | m in w.models :: TargetRelation(w, w.models[m]), w.catalog, w.schema)
  }

  function ContextFor<S>(w: Workspace<S>, id: ModelId, ephemerals: map<ModelId, Query<S>>): Context<S>
    requires id in w.models
  {
    Context(EnvFor(w, id), ephemerals)
  }

  // -- Dependencies ----------------------------------------------------------------

  function ReferencesOf<S>(statements: seq<Statement<S>>): set<Name> {
    if statements == [] then {}
    else
      (match statements[0]
       case QueryStatement(query) => References({}, query)
       case OtherStatement => {})
      + ReferencesOf(statements[1..])
  }

  function ModelDependencies<S>(w: Workspace<S>, id: ModelId): set<ModelId>
    requires id in w.models
  {
    var entry := EntryFor(id, w.models[id]);
    set name | name in ReferencesOf(w.models[id].statements) && ResolveIn(w.entries, entry, name).ToModel?
      :: ResolveIn(w.entries, entry, name).id
  }

  function DependencyGraph<S>(w: Workspace<S>): ModelGraph {
    ModelGraph(w.models.Keys, map id | id in w.models :: ModelDependencies(w, id))
  }

  lemma DependenciesAreKnown<S>(w: Workspace<S>)
    requires Registered(w)
    ensures DependencyGraph(w).Closed()
  {
    forall id, d | id in w.models && d in ModelDependencies(w, id) ensures d in w.models {
      var entry := EntryFor(id, w.models[id]);
      var name :| name in ReferencesOf(w.models[id].statements) && ResolveIn(w.entries, entry, name).ToModel?
        && ResolveIn(w.entries, entry, name).id == d;
      ResolvesToKnown(w.entries, entry, name);
      var e :| e in w.entries && e.id == d;
    }
  }

  function EphemeralDependencies<S>(w: Workspace<S>, id: ModelId): set<ModelId>
    requires id in w.models
  {
    set d | d in ModelDependencies(w, id) && d in w.models && w.models[d].ephemeral
  }

  // -- Expansion -----------------------------------------------------------------------

  /** The compiled single query of a model, given the queries to inline; `None` for anything but one query. */
  function Expanded<S>(w: Workspace<S>, id: ModelId, ephemerals: map<ModelId, Query<S>>, depth: nat): Option<Query<S>>
    requires id in w.models
  {
    var statements := w.models[id].statements;
    if |statements| == 1 && statements[0].QueryStatement?
    then Some(RewriteQuery(ContextFor(w, id, ephemerals), {}, statements[0].query, depth))
    else None
  }

  /** The visits of what is inlined into the model's query nest no deeper than `depth`. */
  predicate Ends<S>(w: Workspace<S>, id: ModelId, ephemerals: map<ModelId, Query<S>>, depth: nat)
    requires id in w.models
  {
    var statements := w.models[id].statements;
    |statements| == 1 && statements[0].QueryStatement? ==>
      Stops(ContextFor(w, id, ephemerals), {}, statements[0].query, depth)
  }

  /** Expansion without memoisation; a model already being visited is not inlined. */
  function Unfold<S>(w: Workspace<S>, id: ModelId, visiting: set<ModelId>, depth: nat): Option<Query<S>>
    decreases |w.models.Keys - visiting|, 0
  {
    if id !in w.models || id in visiting then None
    else
      assert w.models.Keys - (visiting + {id}) == (w.models.Keys - visiting) - {id};
      Expanded(w, id, UnfoldAll(w, EphemeralDependencies(w, id), visiting + {id}, depth), depth)
  }

  function UnfoldAll<S>(w: Workspace<S>, ids: set<ModelId>, visiting: set<ModelId>, depth: nat): map<ModelId, Query<S>>
    decreases |w.models.Keys - visiting|, 1
  {
    map d | d in ids && Unfold(w, d, visiting, depth).Some? :: Unfold(w, d, visiting, depth).value
  }

  /** The expansions a model's own query is rewritten with. */
  function Inlinable<S>(w: Workspace<S>, id: ModelId, depth: nat): map<ModelId, Query<S>>
    requires id in w.models
  {
    UnfoldAll(w, EphemeralDependencies(w, id), {}, depth)
  }

  lemma UnfoldAllAgrees<S>(w: Workspace<S>, ids: set<ModelId>, a: set<ModelId>, b: set<ModelId>, depth: nat)
    requires forall d :: d in ids ==> Unfold(w, d, a, depth) == Unfold(w, d, b, depth)
    ensures UnfoldAll(w, ids, a, depth) == UnfoldAll(w, ids, b, depth)
  {
  }

  lemma EphemeralDependencyIsEarlier<S>(w: Workspace<S>, order: seq<ModelId>, id: ModelId, d: ModelId)
    requires DependencyGraph(w).Closed() && IsOrder(DependencyGraph(w), order)
    requires id in w.models && d in EphemeralDependencies(w, id)
    ensures id in order && d in order && Position(order, d) < Position(order, id)
  {
    DependencyIsEarlier(DependencyGraph(w), order, id, d);
  }

  /** In an acyclic workspace the models being visited never stand in the way. */
  lemma {:induction false} UnfoldIgnoresVisiting<S>(
    w: Workspace<S>, order: seq<ModelId>, id: ModelId, visiting: set<ModelId>, depth: nat)
    requires DependencyGraph(w).Closed() && IsOrder(DependencyGraph(w), order)
    requires id in order
    requires forall v :: v in visiting ==> v in order && Position(order, id) < Position(order, v)
    ensures Unfold(w, id, visiting, depth) == Unfold(w, id, {}, depth)
    decreases Position(order, id)
  {
    assert id in Elements(order);
    forall d | d in EphemeralDependencies(w, id)
      ensures Unfold(w, d, visiting + {id}, depth) == Unfold(w, d, {} + {id}, depth)
    {
      EphemeralDependencyIsEarlier(w, order, id, d);
      UnfoldIgnoresVisiting(w, order, d, visiting + {id}, depth);
      UnfoldIgnoresVisiting(w, order, d, {} + {id}, depth);
    }
    UnfoldAllAgrees(w, EphemeralDependencies(w, id), visiting + {id}, {} + {id}, depth);
    assert id !in visiting;
  }

  /** A model's expansion is its query rewritten with its dependencies' expansions. */
  lemma UnfoldIsExpanded<S>(w: Workspace<S>, order: seq<ModelId>, id: ModelId, depth: nat)
    requires DependencyGraph(w).Closed() && IsOrder(DependencyGraph(w), order)
    requires id in w.models
    ensures Unfold(w, id, {}, depth) == Expanded(w, id, Inlinable(w, id, depth), depth)
  {
    forall d | d in EphemeralDependencies(w, id)
      ensures Unfold(w, d, {} + {id}, depth) == Unfold(w, d, {}, depth)
    {
      EphemeralDependencyIsEarlier(w, order, id, d);
      UnfoldIgnoresVisiting(w, order, d, {} + {id}, depth);
    }
    UnfoldAllAgrees(w, EphemeralDependencies(w, id), {} + {id}, {}, depth);
  }

  /** Where every model's visits stay above the bound, so do they with larger ones, and all expansions are the same. */
  lemma {:induction false} BoundIsEnough<S>(w: Workspace<S>, order: seq<ModelId>, id: ModelId, depth: nat, more: nat)
    requires DependencyGraph(w).Closed() && IsOrder(DependencyGraph(w), order)
    requires id in w.models && depth <= more
    requires forall m :: m in w.models ==> Ends(w, m, Inlinable(w, m, depth), depth)
    ensures Inlinable(w, id, more) == Inlinable(w, id, depth) && Ends(w, id, Inlinable(w, id, more), more)
    ensures Expanded(w, id, Inlinable(w, id, more), more) == Expanded(w, id, Inlinable(w, id, depth), depth)
    decreases Position(order, id)
  {
    assert id in Elements(order);
    forall d | d in EphemeralDependencies(w, id) ensures Unfold(w, d, {}, more) == Unfold(w, d, {}, depth) {
      EphemeralDependencyIsEarlier(w, order, id, d);
      UnfoldIsExpanded(w, order, d, depth);
      UnfoldIsExpanded(w, order, d, more);
      BoundIsEnough(w, order, d, depth, more);
    }
    assert Inlinable(w, id, more) == Inlinable(w, id, depth);
    var statements := w.models[id].statements;
    if |statements| == 1 && statements[0].QueryStatement? {
      assert Ends(w, id, Inlinable(w, id, depth), depth);
      DepthIsEnough(ContextFor(w, id, Inlinable(w, id, depth)), {}, statements[0].query, depth, more);
    }
  }

  /** The queries are those that any larger bound gives. */
  ghost predicate AtEveryBound<S>(w: Workspace<S>, compiled: map<ModelId, Option<Query<S>>>, depth: nat) {
    forall id, more: nat :: id in w.models && id in compiled && depth <= more ==>
      compiled[id] == Expanded(w, id, Inlinable(w, id, more), more)
  }

  lemma CompiledAtEveryBound<S>(
    w: Workspace<S>, order: seq<ModelId>, compiled: map<ModelId, Option<Query<S>>>, depth: nat)
    requires Ordered(w, order) && compiled.Keys == w.models.Keys
    requires forall id :: id in w.models ==>
               && compiled[id] == Expanded(w, id, Inlinable(w, id, depth), depth)
               && Ends(w, id, Inlinable(w, id, depth), depth)
    ensures AtEveryBound(w, compiled, depth)
  {
    forall id, more: nat | id in w.models && depth <= more
      ensures compiled[id] == Expanded(w, id, Inlinable(w, id, more), more)
    {
      BoundIsEnough(w, order, id, depth, more);
    }
  }

  lemma UnfoldOneMore<S>(w: Workspace<S>, ids: set<ModelId>, d: ModelId, depth: nat)
    ensures UnfoldAll(w, ids + {d}, {}, depth)
         == WithQuery(UnfoldAll(w, ids, {}, depth), d, Unfold(w, d, {}, depth))
  {
  }

  function WithQuery<S>(ephemerals: map<ModelId, Query<S>>, d: ModelId, query: Option<Query<S>>)
    : map<ModelId, Query<S>> {
    if query.Some? then ephemerals[d := query.value] else ephemerals
  }

  /** The ephemeral models of a dependency list. */
  function OnlyEphemeral<S>(w: Workspace<S>, ids: seq<ModelId>): (r: seq<ModelId>)
    ensures Elements(r) == set d | d in Elements(ids) && d in w.models && w.models[d].ephemeral
  {
    if ids == [] then []
    else
      var rest, last := OnlyEphemeral(w, ids[..|ids| - 1]), ids[|ids| - 1];
      TakeOneMore(ids, |ids| - 1);
      assert ids[..|ids|] == ids;
      if last in w.models && w.models[last].ephemeral then
        assert Elements(rest + [last]) == Elements(rest) + {last};
        rest + [last]
      else rest
  }

  /** Every remembered answer is the unmemoised one. */
  ghost predicate Remembers<S>(w: Workspace<S>, depth: nat, memo: map<ModelId, Option<Query<S>>>) {
    forall id :: id in memo ==> memo[id] == Unfold(w, id, {}, depth)
  }

  lemma RememberOne<S>(
    w: Workspace<S>, depth: nat, memo: map<ModelId, Option<Query<S>>>, id: ModelId, result: Option<Query<S>>)
    ensures Remembers(w, depth, memo) && result == Unfold(w, id, {}, depth) ==> Remembers(w, depth, memo[id := result])
  {
  }

  /** In an acyclic workspace: nothing being visited can be reached again from `id`. */
  ghost predicate Clear<S>(w: Workspace<S>, order: seq<ModelId>, visiting: set<ModelId>, id: ModelId) {
    && Ordered(w, order)
    && (id in order ==> forall v :: v in visiting ==> v in order && Position(order, id) < Position(order, v))
  }

  ghost predicate Ordered<S>(w: Workspace<S>, order: seq<ModelId>) {
    DependencyGraph(w).Closed() && IsOrder(DependencyGraph(w), order)
  }

  ghost predicate AllClear<S>(w: Workspace<S>, order: seq<ModelId>, visiting: set<ModelId>, ids: set<ModelId>) {
    forall d :: d in ids ==> Clear(w, order, visiting, d)
  }

  lemma ClearIsUnvisited<S>(w: Workspace<S>, order: seq<ModelId>, visiting: set<ModelId>, id: ModelId)
    requires Clear(w, order, visiting, id) && id in w.models
    ensures id in order && id !in visiting
  {
    assert id in Elements(order);
  }

  lemma ClearBelow<S>(w: Workspace<S>, order: seq<ModelId>, visiting: set<ModelId>, id: ModelId)
    requires Clear(w, order, visiting, id) && id in w.models
    ensures AllClear(w, order, visiting + {id}, EphemeralDependencies(w, id))
  {
    ClearIsUnvisited(w, order, visiting, id);
    forall d | d in EphemeralDependencies(w, id) ensures Clear(w, order, visiting + {id}, d) {
      EphemeralDependencyIsEarlier(w, order, id, d);
    }
  }

  lemma ClearUnfolds<S>(w: Workspace<S>, order: seq<ModelId>, visiting: set<ModelId>, id: ModelId, depth: nat)
    requires id in w.models
    ensures Clear(w, order, visiting, id) ==>
              && AllClear(w, order, visiting + {id}, EphemeralDependencies(w, id))
              && Unfold(w, id, {}, depth) == Expanded(w, id, Inlinable(w, id, depth), depth)
  {
    if Clear(w, order, visiting, id) {
      ClearBelow(w, order, visiting, id);
      UnfoldIsExpanded(w, order, id, depth);
    }
  }

  ghost predicate DependencyLists<S>(w: Workspace<S>, dependencies: map<ModelId, seq<ModelId>>) {
    && dependencies.Keys == w.models.Keys
    && forall id :: id in w.models ==> Elements(dependencies[id]) == ModelDependencies(w, id)
  }

  lemma NestedAreEphemeral<S>(w: Workspace<S>, dependencies: map<ModelId, seq<ModelId>>, id: ModelId)
    requires DependencyLists(w, dependencies) && id in w.models
    ensures Elements(OnlyEphemeral(w, dependencies[id])) == EphemeralDependencies(w, id)
  {
  }

  lemma VisitFewer<S>(w: Workspace<S>, visiting: set<ModelId>, id: ModelId)
    requires id in w.models && id !in visiting
    ensures |w.models.Keys - (visiting + {id})| < |w.models.Keys - visiting|
    ensures visiting + {id} - {id} == visiting
  {
    assert w.models.Keys - (visiting + {id}) == (w.models.Keys - visiting) - {id};
  }

  /** The memoising expander. */
  class Expansion<S> {
    const w: Workspace<S>
    const depth: nat
    /** Each model's model dependencies, in the order they are inlined. */
    const dependencies: map<ModelId, seq<ModelId>>
    const resolver: Resolver
    var memo: map<ModelId, Option<Query<S>>>
    var visiting: set<ModelId>
    /** Some visit was kept from going on: the source would go deeper. */
    var cut: bool

    constructor (w: Workspace<S>, dependencies: map<ModelId, seq<ModelId>>, resolver: Resolver, depth: nat)
      requires resolver.Valid() && resolver.entries == w.entries
      requires DependencyLists(w, dependencies)
      ensures this.w == w && this.depth == depth && Valid() && visiting == {} && memo == map[] && !cut
    {
      this.w, this.dependencies, this.resolver, this.depth := w, dependencies, resolver, depth;
      memo, visiting, cut := map[], {}, false;
    }

    ghost predicate Valid()
      reads this, resolver
    {
      resolver.Valid() && resolver.entries == w.entries && DependencyLists(w, dependencies)
    }

    /**
     The recursion over the dependency graph terminates on every workspace, cyclic
     ones included, and leaves `visiting` as it was. On an acyclic one it answers the
     unmemoised expansion, whatever has been expanded before.
     */
    method Expand(id: ModelId, ghost order: seq<ModelId>) returns (result: Option<Query<S>>)
      requires Valid()
      modifies this`memo, this`visiting, this`cut
      ensures Valid() && visiting == old(visiting) && (old(cut) ==> cut)
      ensures Clear(w, order, visiting, id) && Remembers(w, depth, old(memo)) ==>
                result == Unfold(w, id, {}, depth) && Remembers(w, depth, memo)
      decreases |w.models.Keys - visiting|, 1
    {
      if id in memo {
        return memo[id];
      }
      if id !in w.models {
        return None;
      }
      if id in visiting {
        if Clear(w, order, visiting, id) {
          ClearIsUnvisited(w, order, visiting, id);
        }
        return None;
      }
      result := ExpandFresh(id, order);
    }

    method ExpandFresh(id: ModelId, ghost order: seq<ModelId>) returns (result: Option<Query<S>>)
      requires Valid() && id in w.models && id !in visiting
      modifies this`memo, this`visiting, this`cut
      ensures Valid() && visiting == old(visiting) && (old(cut) ==> cut)
      ensures Clear(w, order, visiting, id) && Remembers(w, depth, old(memo)) ==>
                result == Unfold(w, id, {}, depth) && Remembers(w, depth, memo)
      decreases |w.models.Keys - visiting|, 0
    {
      VisitFewer(w, visiting, id);
      ClearUnfolds(w, order, visiting, id, depth);
      visiting := visiting + {id};
      var ephemerals := ExpandNested(id, order);
      result := RewriteModel(id, ephemerals);
      RememberOne(w, depth, memo, id, result);
      visiting := visiting - {id};
      memo := memo[id := result];
    }

    /** The expansions to inline into a model. */
    method ExpandNested(id: ModelId, ghost order: seq<ModelId>) returns (ephemerals: map<ModelId, Query<S>>)
      requires Valid() && id in w.models
      modifies this`memo, this`visiting, this`cut
      ensures Valid() && visiting == old(visiting) && (old(cut) ==> cut)
      ensures AllClear(w, order, visiting, EphemeralDependencies(w, id)) && Remembers(w, depth, old(memo)) ==>
                ephemerals == Inlinable(w, id, depth) && Remembers(w, depth, memo)
      decreases |w.models.Keys - visiting|, 3
    {
      var nested := OnlyEphemeral(w, dependencies[id]);
      NestedAreEphemeral(w, dependencies, id);
      ghost var before, known := visiting, memo;
      ephemerals := map[];
      for i := 0 to |nested|
        invariant Valid() && visiting == before && (old(cut) ==> cut)
        invariant AllClear(w, order, before, Elements(nested)) && Remembers(w, depth, known) ==>
                    && ephemerals == UnfoldAll(w, Elements(nested[..i]), {}, depth)
                    && Remembers(w, depth, memo)
      {
        TakeOneMore(nested, i);
        assert nested[i] in Elements(nested);
        UnfoldOneMore(w, Elements(nested[..i]), nested[i], depth);
        var query := Expand(nested[i], order);
        ephemerals := WithQuery(ephemerals, nested[i], query);
      }
      assert nested[..|nested|] == nested;
    }

    /** Rewrite one model's statements. */
    method RewriteModel(id: ModelId, ephemerals: map<ModelId, Query<S>>) returns (result: Option<Query<S>>)
      requires Valid() && id in w.models
      modifies this`cut
      ensures Valid()
      ensures result == Expanded(w, id, ephemerals, depth)
      ensures cut <==> old(cut) || !Ends(w, id, ephemerals, depth)
    {
      var statements := w.models[id].statements;
      if |statements| == 1 && statements[0].QueryStatement? {
        var rewriter := new RelationRewriter(ContextFor(w, id, ephemerals), resolver);
        var rewritten := rewriter.VisitQuery(statements[0].query, depth);
        assert Declared([]) == {};
        cut := cut || rewriter.cut;
        return Some(rewritten);
      }
      return None;
    }

    /**
     Compile every model; on an acyclic workspace the order of the models makes no
     difference, and with `cut` still false no visit was kept from going on, so the
     bound makes none either.
     */
    method CompileAll(ids: seq<ModelId>, ghost order: seq<ModelId>) returns (compiled: map<ModelId, Option<Query<S>>>)
      requires Valid() && visiting == {} && memo == map[] && Elements(ids) == w.models.Keys
      modifies this`memo, this`visiting, this`cut
      ensures Valid() && visiting == {} && compiled.Keys == w.models.Keys
      ensures Ordered(w, order) ==>
                forall id :: id in w.models ==>
                  && compiled[id] == Expanded(w, id, Inlinable(w, id, depth), depth)
                  && (!cut ==> Ends(w, id, Inlinable(w, id, depth), depth))
      ensures Ordered(w, order) && !cut ==> AtEveryBound(w, compiled, depth)
    {
      compiled := map[];
      for i := 0 to |ids|
        invariant Valid() && visiting == {} && compiled.Keys == Elements(ids[..i])
        invariant Ordered(w, order) ==> Remembers(w, depth, memo)
        invariant Ordered(w, order) ==>
                    forall id :: id in compiled && id in w.models ==>
                      && compiled[id] == Expanded(w, id, Inlinable(w, id, depth), depth)
                      && (!cut ==> Ends(w, id, Inlinable(w, id, depth), depth))
      {
        TakeOneMore(ids, i);
        assert ids[i] in Elements(ids);
        var ephemerals := ExpandNested(ids[i], order);
        var query := RewriteModel(ids[i], ephemerals);
        compiled := compiled[ids[i] := query];
      }
      assert ids[..|ids|] == ids;
      if Ordered(w, order) && !cut {
        CompiledAtEveryBound(w, order, compiled, depth);
      }
    }
  }
}
