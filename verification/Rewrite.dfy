/**
 Compiling relation references to physical relations
 (crates/phlo-transform-core/src/rewrite.rs).

 `RewriteQuery` says what the rewrite produces; the class walks the tree with
 its stack of WITH scopes and is proved to produce exactly that.
 */
module Rewrite {
  import opened Wrappers
  import opened Identity
  import opened Sql
  import opened Resolve

  /** What a model's references are resolved and renamed with. */
  datatype Env = Env(
    entries: seq<RegistryEntry>,
    current: Option<RegistryEntry>,
    targets: map<ModelId, Relation>,
    catalog: Option<string>,
    schema: Option<string>)

  datatype Context<S> = Context(env: Env, ephemerals: map<ModelId, Query<S>>)

  function ObjectName(relation: Relation): (name: Name)
    ensures |name| >= 2
  {
    (if relation.catalog.Some? then [relation.catalog.value] else []) + [relation.schema, relation.table]
  }

  function Resolved(env: Env, name: Name): Resolution {
    if env.current.Some? then ResolveIn(env.entries, env.current.value, name) else ResolveGlobal(env.entries, name)
  }

  /** The physical name of a source reference. */
  function SourceRelation(source: SourceId, catalog: Option<string>, schema: Option<string>): Name {
    if catalog.Some? && |source.parts| < 3 then ObjectName(RelationForSource(source, catalog, schema)) else source.parts
  }

  /** What a reference becomes when it is not inlined. */
  function Physical(env: Env, name: Name): Name {
    if !IsRelationName(name) then name
    else
      match Resolved(env, name)
      case External(source) =>
        if env.catalog.Some? && |source.parts| < 3 then SourceRelation(source, env.catalog, env.schema) else name
      case Ambiguous(_) => name
      case ToModel(id) => if id in env.targets then ObjectName(env.targets[id]) else name
  }

  /** The reference names one of these models. */
  predicate Refers(env: Env, ids: set<ModelId>, name: Name) {
    IsRelationName(name) && Resolved(env, name).ToModel? && Resolved(env, name).id in ids
  }

  predicate Inlined<S>(ctx: Context<S>, name: Name) {
    Refers(ctx.env, ctx.ephemerals.Keys, name)
  }

  predicate IsCte(declared: set<string>, name: Name) {
    |name| == 1 && name[0] in declared
  }

  // -- The rewritten tree ------------------------------------------------------------

  /**
   `declared` holds every WITH name of every enclosing query. An inlined query is
   itself visited under the same names. The source sets no bound on how deep such
   visits nest; `depth` is one, and `Stops` says when it does not matter.
   */
  function RewriteQuery<S>(ctx: Context<S>, declared: set<string>, q: Query<S>, depth: nat): Query<S>
    decreases depth, q, 1
  {
    var inside := declared + Names(q.ctes);
    Query(RewriteCtes(ctx, inside, q.ctes, depth), RewriteBody(ctx, inside, q.body, depth))
  }

  function RewriteCtes<S>(ctx: Context<S>, declared: set<string>, ctes: seq<Cte<S>>, depth: nat): (r: seq<Cte<S>>)
    ensures |r| == |ctes|
    ensures CteNames(r) == CteNames(ctes)
    decreases depth, ctes, 0
  {
    if ctes == [] then []
    else
      [Cte(ctes[0].name, RewriteQuery(ctx, declared, ctes[0].query, depth))]
      + RewriteCtes(ctx, declared, ctes[1..], depth)
  }

  function RewriteBody<S>(ctx: Context<S>, declared: set<string>, body: SetExpr<S>, depth: nat): SetExpr<S>
    decreases depth, body, 0
  {
    match body
    case Select(spec, quals, from, subqueries) =>
      Select(spec, quals, RewriteFrom(ctx, declared, from, depth), RewriteAll(ctx, declared, subqueries, depth))
    case Nested(query) => Nested(RewriteQuery(ctx, declared, query, depth))
    case SetOperation(op, left, right) =>
      SetOperation(op, RewriteBody(ctx, declared, left, depth), RewriteBody(ctx, declared, right, depth))
  }

  function RewriteAll<S>(ctx: Context<S>, declared: set<string>, queries: seq<Query<S>>, depth: nat): (r: seq<Query<S>>)
    ensures |r| == |queries|
    decreases depth, queries, 0
  {
    if queries == [] then []
    else [RewriteQuery(ctx, declared, queries[0], depth)] + RewriteAll(ctx, declared, queries[1..], depth)
  }

  function RewriteFrom<S>(ctx: Context<S>, declared: set<string>, from: seq<TableFactor<S>>, depth: nat)
    : (r: seq<TableFactor<S>>)
    ensures |r| == |from|
    decreases depth, from, 0
  {
    if from == [] then []
    else [RewriteFactor(ctx, declared, from[0], depth)] + RewriteFrom(ctx, declared, from[1..], depth)
  }

  function RewriteFactor<S>(ctx: Context<S>, declared: set<string>, factor: TableFactor<S>, depth: nat): TableFactor<S>
    decreases depth, factor, 0
  {
    match factor
    case Table(name, alias) =>
      if !IsRelationName(name) || IsCte(declared, name) then factor
      else if Inlined(ctx, name) then
        var sub := ctx.ephemerals[Resolved(ctx.env, name).id];
        Derived(if depth == 0 then sub else RewriteQuery(ctx, declared, sub, depth - 1), Qualifier(name, alias))
      else Table(Physical(ctx.env, name), alias)
    case TableFunction(_, _) => factor
    case Derived(query, alias) => Derived(RewriteQuery(ctx, declared, query, depth), alias)
  }

  // -- Visits of inlined queries --------------------------------------------------------------

  /** An inlined query about to be visited, under the WITH names of the place it is inlined at. */
  datatype Point = Point(declared: set<string>, id: ModelId)

  function Points<S>(ctx: Context<S>, declared: set<string>, q: Query<S>): set<Point>
    decreases q, 1
  {
    var inside := declared + Names(q.ctes);
    PointsInCtes(ctx, inside, q.ctes) + PointsInBody(ctx, inside, q.body)
  }

  function PointsInCtes<S>(ctx: Context<S>, declared: set<string>, ctes: seq<Cte<S>>): set<Point>
    decreases ctes, 0
  {
    if ctes == [] then {} else Points(ctx, declared, ctes[0].query) + PointsInCtes(ctx, declared, ctes[1..])
  }

  function PointsInBody<S>(ctx: Context<S>, declared: set<string>, body: SetExpr<S>): set<Point>
    decreases body, 0
  {
    match body
    case Select(_, _, from, subqueries) => PointsInFrom(ctx, declared, from) + PointsInAll(ctx, declared, subqueries)
    case Nested(query) => Points(ctx, declared, query)
    case SetOperation(_, left, right) => PointsInBody(ctx, declared, left) + PointsInBody(ctx, declared, right)
  }

  function PointsInAll<S>(ctx: Context<S>, declared: set<string>, queries: seq<Query<S>>): set<Point>
    decreases queries, 0
  {
    if queries == [] then {} else Points(ctx, declared, queries[0]) + PointsInAll(ctx, declared, queries[1..])
  }

  function PointsInFrom<S>(ctx: Context<S>, declared: set<string>, from: seq<TableFactor<S>>): set<Point>
    decreases from, 0
  {
    if from == [] then {} else PointsInFactor(ctx, declared, from[0]) + PointsInFrom(ctx, declared, from[1..])
  }

  function PointsInFactor<S>(ctx: Context<S>, declared: set<string>, factor: TableFactor<S>): set<Point>
    decreases factor, 0
  {
    match factor
    case Table(name, _) =>
      if !IsCte(declared, name) && Inlined(ctx, name) then {Point(declared, Resolved(ctx.env, name).id)} else {}
    case TableFunction(_, _) => {}
    case Derived(query, _) => Points(ctx, declared, query)
  }

  /** Visiting what is inlined at these points nests no deeper than `depth`. */
  predicate AllStop<S>(ctx: Context<S>, points: set<Point>, depth: nat)
    decreases depth, 1
  {
    forall p {:trigger StopsAt(ctx, p, depth)} :: p in points ==> StopsAt(ctx, p, depth)
  }

  predicate StopsAt<S>(ctx: Context<S>, p: Point, depth: nat)
    decreases depth, 0
  {
    && depth > 0
    && (p.id in ctx.ephemerals ==> AllStop(ctx, Points(ctx, p.declared, ctx.ephemerals[p.id]), depth - 1))
  }

  lemma AllStopUnion<S>(ctx: Context<S>, a: set<Point>, b: set<Point>, depth: nat)
    ensures AllStop(ctx, a + b, depth) <==> AllStop(ctx, a, depth) && AllStop(ctx, b, depth)
  {
  }

  lemma CtesStep<S>(ctx: Context<S>, declared: set<string>, added: seq<Cte<S>>, i: nat, depth: nat)
    requires i < |added|
    ensures RewriteCtes(ctx, declared, added[i..], depth)
         == [Cte(added[i].name, RewriteQuery(ctx, declared, added[i].query, depth))]
            + RewriteCtes(ctx, declared, added[i + 1..], depth)
    ensures AllStop(ctx, PointsInCtes(ctx, declared, added[i..]), depth)
       <==> Stops(ctx, declared, added[i].query, depth)
            && AllStop(ctx, PointsInCtes(ctx, declared, added[i + 1..]), depth)
  {
    assert added[i..][1..] == added[i + 1..];
    AllStopUnion(
      ctx, Points(ctx, declared, added[i].query), PointsInCtes(ctx, declared, added[i + 1..]), depth);
  }

  predicate TableStops<S>(ctx: Context<S>, declared: set<string>, name: Name, depth: nat) {
    !IsCte(declared, name) && Inlined(ctx, name) ==>
      depth > 0 && Stops(ctx, declared, ctx.ephemerals[Resolved(ctx.env, name).id], depth - 1)
  }

  lemma TableStopsExactly<S>(ctx: Context<S>, declared: set<string>, factor: TableFactor<S>, depth: nat)
    ensures factor.Table? ==>
              (TableStops(ctx, declared, factor.name, depth)
               <==> AllStop(ctx, PointsInFactor(ctx, declared, factor), depth))
  {
    if factor.Table? && !IsCte(declared, factor.name) && Inlined(ctx, factor.name) {
      var p := Point(declared, Resolved(ctx.env, factor.name).id);
      assert AllStop(ctx, {p}, depth) <==> StopsAt(ctx, p, depth);
    }
  }

  predicate Stops<S>(ctx: Context<S>, declared: set<string>, q: Query<S>, depth: nat) {
    AllStop(ctx, Points(ctx, declared, q), depth)
  }

  // -- The rewriting visitor --------------------------------------------------------------

  /** The names on a stack of WITH scopes. */
  function Declared(scopes: seq<seq<string>>): set<string> {
    set i, n | 0 <= i < |scopes| && n in scopes[i] :: n
  }

  lemma DeclaredPush(scopes: seq<seq<string>>, names: seq<string>)
    ensures Declared(scopes + [names]) == Declared(scopes) + set n | n in names
  {
    var more := scopes + [names];
    forall n | n in Declared(scopes) ensures n in Declared(more) {
      var i :| 0 <= i < |scopes| && n in scopes[i];
      assert n in more[i];
    }
    assert more[|scopes|] == names;
  }

  class RelationRewriter<S> {
    const ctx: Context<S>
    const resolver: Resolver
    var cteScopes: seq<seq<string>>
    /** The bound kept some inlined query from being visited. */
    var cut: bool

    constructor (ctx: Context<S>, resolver: Resolver)
      requires resolver.Valid() && resolver.entries == ctx.env.entries
      ensures this.ctx == ctx && this.resolver == resolver && cteScopes == [] && !cut
    {
      this.ctx, this.resolver, cteScopes, cut := ctx, resolver, [], false;
    }

    ghost predicate Valid()
      reads this, resolver
    {
      resolver.Valid() && resolver.entries == ctx.env.entries
    }

    method IsScopedCte(name: Name) returns (found: bool)
      ensures found <==> IsCte(Declared(cteScopes), name)
    {
      if |name| != 1 {
        return false;
      }
      for i := |cteScopes| downto 0
        invariant forall k :: i <= k < |cteScopes| ==> name[0] !in cteScopes[k]
      {
        if name[0] in cteScopes[i] {
          return true;
        }
      }
      return false;
    }

    method VisitQuery(q: Query<S>, depth: nat) returns (r: Query<S>)
      requires Valid()
      modifies this`cteScopes, this`cut
      ensures cteScopes == old(cteScopes)
      ensures r == RewriteQuery(ctx, Declared(cteScopes), q, depth)
      ensures cut <==> old(cut) || !Stops(ctx, Declared(cteScopes), q, depth)
      decreases depth, q, 1
    {
      var outer := cteScopes;
      cteScopes := cteScopes + [CteNames(q.ctes)];
      DeclaredPush(outer, CteNames(q.ctes));
      var ctes := VisitCtes(q.ctes, depth);
      var body := VisitBody(q.body, depth);
      cteScopes := cteScopes[..|cteScopes| - 1];
      return Query(ctes, body);
    }

    method VisitCtes(added: seq<Cte<S>>, depth: nat) returns (ctes: seq<Cte<S>>)
      requires Valid()
      modifies this`cteScopes, this`cut
      ensures cteScopes == old(cteScopes)
      ensures ctes == RewriteCtes(ctx, Declared(cteScopes), added, depth)
      ensures cut <==> old(cut) || !AllStop(ctx, PointsInCtes(ctx, Declared(cteScopes), added), depth)
      decreases depth, added, 0
    {
      ctes := [];
      for i := 0 to |added|
        invariant cteScopes == old(cteScopes)
        invariant ctes + RewriteCtes(ctx, Declared(cteScopes), added[i..], depth)
               == RewriteCtes(ctx, Declared(cteScopes), added, depth)
        invariant cut || !AllStop(ctx, PointsInCtes(ctx, Declared(cteScopes), added[i..]), depth)
             <==> old(cut) || !AllStop(ctx, PointsInCtes(ctx, Declared(cteScopes), added), depth)
      {
        var query := VisitQuery(added[i].query, depth);
        CtesStep(ctx, Declared(cteScopes), added, i, depth);
        ctes := ctes + [Cte(added[i].name, query)];
      }
    }

    method VisitBody(body: SetExpr<S>, depth: nat) returns (r: SetExpr<S>)
      requires Valid()
      modifies this`cteScopes, this`cut
      ensures cteScopes == old(cteScopes)
      ensures r == RewriteBody(ctx, Declared(cteScopes), body, depth)
      ensures cut <==> old(cut) || !AllStop(ctx, PointsInBody(ctx, Declared(cteScopes), body), depth)
      decreases depth, body, 0
    {
      match body {
        case Select(spec, quals, from, subqueries) =>
          var factors := VisitFrom(from, depth);
          var queries := VisitAll(subqueries, depth);
          return Select(spec, quals, factors, queries);
        case Nested(query) =>
          var inner := VisitQuery(query, depth);
          return Nested(inner);
        case SetOperation(op, left, right) =>
          var l := VisitBody(left, depth);
          var r := VisitBody(right, depth);
          return SetOperation(op, l, r);
      }
    }

    method VisitFrom(from: seq<TableFactor<S>>, depth: nat) returns (factors: seq<TableFactor<S>>)
      requires Valid()
      modifies this`cteScopes, this`cut
      ensures cteScopes == old(cteScopes)
      ensures factors == RewriteFrom(ctx, Declared(cteScopes), from, depth)
      ensures cut <==> old(cut) || !AllStop(ctx, PointsInFrom(ctx, Declared(cteScopes), from), depth)
      decreases depth, from, 0
    {
      factors := [];
      for i := 0 to |from|
        invariant cteScopes == old(cteScopes)
        invariant factors + RewriteFrom(ctx, Declared(cteScopes), from[i..], depth)
               == RewriteFrom(ctx, Declared(cteScopes), from, depth)
        invariant cut || !AllStop(ctx, PointsInFrom(ctx, Declared(cteScopes), from[i..]), depth)
             <==> old(cut) || !AllStop(ctx, PointsInFrom(ctx, Declared(cteScopes), from), depth)
      {
        var factor := VisitTableFactor(from[i], depth);
        assert from[i..][1..] == from[i + 1..];
        AllStopUnion(
          ctx, PointsInFactor(ctx, Declared(cteScopes), from[i]),
          PointsInFrom(ctx, Declared(cteScopes), from[i + 1..]), depth);
        factors := factors + [factor];
      }
    }

    method VisitAll(subqueries: seq<Query<S>>, depth: nat) returns (queries: seq<Query<S>>)
      requires Valid()
      modifies this`cteScopes, this`cut
      ensures cteScopes == old(cteScopes)
      ensures queries == RewriteAll(ctx, Declared(cteScopes), subqueries, depth)
      ensures cut <==> old(cut) || !AllStop(ctx, PointsInAll(ctx, Declared(cteScopes), subqueries), depth)
      decreases depth, subqueries, 0
    {
      queries := [];
      for i := 0 to |subqueries|
        invariant cteScopes == old(cteScopes)
        invariant queries + RewriteAll(ctx, Declared(cteScopes), subqueries[i..], depth)
               == RewriteAll(ctx, Declared(cteScopes), subqueries, depth)
        invariant cut || !AllStop(ctx, PointsInAll(ctx, Declared(cteScopes), subqueries[i..]), depth)
             <==> old(cut) || !AllStop(ctx, PointsInAll(ctx, Declared(cteScopes), subqueries), depth)
      {
        var query := VisitQuery(subqueries[i], depth);
        assert subqueries[i..][1..] == subqueries[i + 1..];
        AllStopUnion(
          ctx, Points(ctx, Declared(cteScopes), subqueries[i]),
          PointsInAll(ctx, Declared(cteScopes), subqueries[i + 1..]), depth);
        queries := queries + [query];
      }
    }

    method Resolve(name: Name) returns (resolution: Resolution)
      requires Valid() && IsRelationName(name)
      ensures resolution == Resolved(ctx.env, name)
    {
      if ctx.env.current.Some? {
        resolution := resolver.ResolveFor(ctx.env.current.value, name);
      } else {
        resolution := resolver.ResolveGlobally(name);
      }
    }

    /** What a reference outside every WITH scope is replaced with, before it is visited again. */
    method Replace(name: Name, alias: Option<string>) returns (r: TableFactor<S>)
      requires Valid() && IsRelationName(name)
      ensures r == if Inlined(ctx, name)
                   then Derived(ctx.ephemerals[Resolved(ctx.env, name).id], Qualifier(name, alias))
                   else Table(Physical(ctx.env, name), alias)
    {
      var resolution := Resolve(name);
      match resolution {
        case External(source) =>
          if ctx.env.catalog.Some? && |source.parts| < 3 {
            return Table(ObjectName(RelationForSource(source, ctx.env.catalog, ctx.env.schema)), alias);
          }
          return Table(name, alias);
        case Ambiguous(_) =>
          return Table(name, alias);
        case ToModel(id) =>
          if id in ctx.ephemerals {
            return Derived(ctx.ephemerals[id], if alias.Some? then alias else Some(name[|name| - 1]));
          } else if id in ctx.env.targets {
            return Table(ObjectName(ctx.env.targets[id]), alias);
          }
          return Table(name, alias);
      }
    }

    /** Replace a reference, then visit what it was replaced with. */
    method VisitTableFactor(factor: TableFactor<S>, depth: nat) returns (r: TableFactor<S>)
      requires Valid()
      modifies this`cteScopes, this`cut
      ensures cteScopes == old(cteScopes)
      ensures r == RewriteFactor(ctx, Declared(cteScopes), factor, depth)
      ensures cut <==> old(cut) || !AllStop(ctx, PointsInFactor(ctx, Declared(cteScopes), factor), depth)
      decreases depth, factor, 1
    {
      TableStopsExactly(ctx, Declared(cteScopes), factor, depth);
      match factor {
        case TableFunction(_, _) =>
          return factor;
        case Derived(query, alias) =>
          var inner := VisitQuery(query, depth);
          return Derived(inner, alias);
        case Table(name, alias) =>
          r := VisitTable(name, alias, depth);
      }
    }

    method VisitTable(name: Name, alias: Option<string>, depth: nat) returns (r: TableFactor<S>)
      requires Valid()
      modifies this`cteScopes, this`cut
      ensures cteScopes == old(cteScopes)
      ensures r == RewriteFactor(ctx, Declared(cteScopes), Table(name, alias), depth)
      ensures cut <==> old(cut) || !TableStops(ctx, Declared(cteScopes), name, depth)
      decreases depth, TableFactor<S>.Table(name, alias), 0
    {
      var cte := IsScopedCte(name);
      if !IsRelationName(name) || cte {
        return Table(name, alias);
      }
      r := Replace(name, alias);
      if r.Derived? && depth > 0 {
        var inner := VisitQuery(r.query, depth - 1);
        r := r.(query := inner);
      } else if r.Derived? {
        cut := true;
      }
    }
  }
}
