/**
 The rewrite keeps the meaning of a query
 (crates/phlo-transform-core/src/rewrite.rs), under conditions that can be read
 off the tree before compiling it.
 */
module Meaning {
  import opened Wrappers
  import opened Identity
  import opened Sql
  import opened Resolve
  import opened Rewrite

  // -- Names a query takes from its surroundings ------------------------------------------

  /** The simple names a query uses that none of its own WITH scopes binds. */
  function FreeNames<S>(q: Query<S>): set<string>
    decreases q, 1
  {
    FreeInCtes(q.ctes, FreeInBody(q.body))
  }

  function FreeInCtes<S>(ctes: seq<Cte<S>>, inner: set<string>): set<string>
    decreases ctes, 0
  {
    if ctes == [] then inner
    else FreeNames(ctes[0].query) + (FreeInCtes(ctes[1..], inner) - {ctes[0].name})
  }

  function FreeInBody<S>(body: SetExpr<S>): set<string>
    decreases body, 0
  {
    match body
    case Select(_, _, from, subqueries) => FreeInFrom(from) + FreeInAll(subqueries)
    case Nested(query) => FreeNames(query)
    case SetOperation(_, left, right) => FreeInBody(left) + FreeInBody(right)
  }

  function FreeInAll<S>(queries: seq<Query<S>>): set<string>
    decreases queries, 0
  {
    if queries == [] then {} else FreeNames(queries[0]) + FreeInAll(queries[1..])
  }

  function FreeInFrom<S>(from: seq<TableFactor<S>>): set<string>
    decreases from, 0
  {
    if from == [] then {} else FreeInFactor(from[0]) + FreeInFrom(from[1..])
  }

  function FreeInFactor<S>(factor: TableFactor<S>): set<string>
    decreases factor, 0
  {
    match factor
    case Table(name, _) => if |name| == 1 then {name[0]} else {}
    case TableFunction(_, _) => {}
    case Derived(query, _) => FreeNames(query)
  }

  lemma {:induction false} FreeParts<S>(ctes: seq<Cte<S>>, inner: set<string>)
    ensures FreeInCtes(ctes, inner) == FreeInCtes(ctes, {}) + (inner - Names(ctes))
  {
    if ctes != [] {
      FirstName(ctes);
      FreeParts(ctes[1..], inner);
    }
  }

  lemma FirstName<S>(ctes: seq<Cte<S>>)
    requires ctes != []
    ensures Names(ctes) == {ctes[0].name} + Names(ctes[1..])
  {
  }

  /** Those of them its result can depend on: a WITH table nothing reads is left out. */
  function LiveNames<S>(q: Query<S>): set<string>
    decreases q, 1
  {
    LiveInCtes(q.ctes, LiveInBody(q.body))
  }

  function LiveInCtes<S>(ctes: seq<Cte<S>>, inner: set<string>): set<string>
    decreases ctes, 0
  {
    if ctes == [] then inner
    else
      var rest := LiveInCtes(ctes[1..], inner);
      (if ctes[0].name in rest then LiveNames(ctes[0].query) else {}) + (rest - {ctes[0].name})
  }

  function LiveInBody<S>(body: SetExpr<S>): set<string>
    decreases body, 0
  {
    match body
    case Select(_, _, from, subqueries) => LiveInFrom(from) + LiveInAll(subqueries)
    case Nested(query) => LiveNames(query)
    case SetOperation(_, left, right) => LiveInBody(left) + LiveInBody(right)
  }

  function LiveInAll<S>(queries: seq<Query<S>>): set<string>
    decreases queries, 0
  {
    if queries == [] then {} else LiveNames(queries[0]) + LiveInAll(queries[1..])
  }

  function LiveInFrom<S>(from: seq<TableFactor<S>>): set<string>
    decreases from, 0
  {
    if from == [] then {} else LiveInFactor(from[0]) + LiveInFrom(from[1..])
  }

  function LiveInFactor<S>(factor: TableFactor<S>): set<string>
    decreases factor, 0
  {
    match factor
    case Table(name, _) => if |name| == 1 then {name[0]} else {}
    case TableFunction(_, _) => {}
    case Derived(query, _) => LiveNames(query)
  }

  lemma {:induction false} LiveIsFree<S>(q: Query<S>)
    ensures LiveNames(q) <= FreeNames(q)
    decreases q, 1
  {
    BodyLiveIsFree(q.body);
    CtesLiveIsFree(q.ctes, LiveInBody(q.body), FreeInBody(q.body));
  }

  lemma {:induction false} CtesLiveIsFree<S>(ctes: seq<Cte<S>>, live: set<string>, free: set<string>)
    requires live <= free
    ensures LiveInCtes(ctes, live) <= FreeInCtes(ctes, free)
    decreases ctes, 0
  {
    if ctes != [] {
      LiveIsFree(ctes[0].query);
      CtesLiveIsFree(ctes[1..], live, free);
    }
  }

  lemma {:induction false} BodyLiveIsFree<S>(body: SetExpr<S>)
    ensures LiveInBody(body) <= FreeInBody(body)
    decreases body, 0
  {
    match body
    case Select(_, _, from, subqueries) =>
      FromLiveIsFree(from);
      AllLiveIsFree(subqueries);
    case Nested(query) =>
      LiveIsFree(query);
    case SetOperation(_, left, right) =>
      BodyLiveIsFree(left);
      BodyLiveIsFree(right);
  }

  lemma {:induction false} AllLiveIsFree<S>(queries: seq<Query<S>>)
    ensures LiveInAll(queries) <= FreeInAll(queries)
    decreases queries, 0
  {
    if queries != [] {
      LiveIsFree(queries[0]);
      AllLiveIsFree(queries[1..]);
    }
  }

  lemma {:induction false} FromLiveIsFree<S>(from: seq<TableFactor<S>>)
    ensures LiveInFrom(from) <= FreeInFrom(from)
    decreases from, 0
  {
    if from != [] {
      FactorLiveIsFree(from[0]);
      FromLiveIsFree(from[1..]);
    }
  }

  lemma {:induction false} FactorLiveIsFree<S>(factor: TableFactor<S>)
    ensures LiveInFactor(factor) <= FreeInFactor(factor)
    decreases factor, 0
  {
    if factor.Derived? {
      LiveIsFree(factor.query);
    }
  }

  ghost predicate SameOn<T>(names: set<string>, a: map<string, T>, b: map<string, T>) {
    forall n :: n in names ==> (n in a <==> n in b) && (n in a && n in b ==> a[n] == b[n])
  }

  /** A query sees no more of the WITH tables around it than the names it reads. */
  lemma {:induction false} EvalSameOn<S, T, C>(
    m: Interp<S, T, C>, q: Query<S>, base: Name -> T, a: map<string, T>, b: map<string, T>, outer: C)
    requires SameOn(LiveNames(q), a, b)
    ensures Eval(m, q, base, a, outer) == Eval(m, q, base, b, outer)
    decreases q, 1
  {
    CtesSameOn(m, q.ctes, LiveInBody(q.body), base, a, b);
    BodySameOn(m, q.body, base, EvalCtes(m, q.ctes, base, a), EvalCtes(m, q.ctes, base, b), outer);
  }

  lemma {:induction false} CtesSameOn<S, T, C>(
    m: Interp<S, T, C>, ctes: seq<Cte<S>>, inner: set<string>, base: Name -> T, a: map<string, T>, b: map<string, T>)
    requires SameOn(LiveInCtes(ctes, inner), a, b)
    ensures SameOn(inner, EvalCtes(m, ctes, base, a), EvalCtes(m, ctes, base, b))
    decreases ctes, 0
  {
    if ctes != [] {
      var name, query := ctes[0].name, ctes[0].query;
      if name in LiveInCtes(ctes[1..], inner) {
        EvalSameOn(m, query, base, a, b, m.top);
      }
      CtesSameOn(
        m, ctes[1..], inner, base, a[name := Eval(m, query, base, a, m.top)],
        b[name := Eval(m, query, base, b, m.top)]);
    }
  }

  lemma {:induction false} BodySameOn<S, T, C>(
    m: Interp<S, T, C>, body: SetExpr<S>, base: Name -> T, a: map<string, T>, b: map<string, T>, outer: C)
    requires SameOn(LiveInBody(body), a, b)
    ensures EvalBody(m, body, base, a, outer) == EvalBody(m, body, base, b, outer)
    decreases body, 0
  {
    match body
    case Select(spec, quals, from, subqueries) =>
      FromSameOn(m, quals, from, base, a, b);
      var contexts := m.contexts(spec, EvalFrom(m, quals, from, base, a), outer);
      forall c | c in contexts ensures EvalAll(m, subqueries, base, a, c) == EvalAll(m, subqueries, base, b, c) {
        AllSameOn(m, subqueries, base, a, b, c);
      }
      assert EvalPerContext(m, subqueries, base, a, contexts) == EvalPerContext(m, subqueries, base, b, contexts);
    case Nested(query) =>
      EvalSameOn(m, query, base, a, b, outer);
    case SetOperation(op, left, right) =>
      BodySameOn(m, left, base, a, b, outer);
      BodySameOn(m, right, base, a, b, outer);
  }

  lemma {:induction false} AllSameOn<S, T, C>(
    m: Interp<S, T, C>, queries: seq<Query<S>>, base: Name -> T, a: map<string, T>, b: map<string, T>, outer: C)
    requires SameOn(LiveInAll(queries), a, b)
    ensures EvalAll(m, queries, base, a, outer) == EvalAll(m, queries, base, b, outer)
    decreases queries, 0
  {
    if queries != [] {
      EvalSameOn(m, queries[0], base, a, b, outer);
      AllSameOn(m, queries[1..], base, a, b, outer);
    }
  }

  lemma {:induction false} FromSameOn<S, T, C>(
    m: Interp<S, T, C>, quals: set<string>, from: seq<TableFactor<S>>, base: Name -> T,
    a: map<string, T>, b: map<string, T>)
    requires SameOn(LiveInFrom(from), a, b)
    ensures EvalFrom(m, quals, from, base, a) == EvalFrom(m, quals, from, base, b)
    decreases from, 0
  {
    if from != [] {
      FactorSameOn(m, from[0], base, a, b);
      FromSameOn(m, quals, from[1..], base, a, b);
    }
  }

  lemma {:induction false} FactorSameOn<S, T, C>(
    m: Interp<S, T, C>, factor: TableFactor<S>, base: Name -> T, a: map<string, T>, b: map<string, T>)
    requires SameOn(LiveInFactor(factor), a, b)
    ensures EvalFactor(m, factor, base, a) == EvalFactor(m, factor, base, b)
    decreases factor, 0
  {
    if factor.Derived? {
      EvalSameOn(m, factor.query, base, a, b, m.top);
    }
  }

  // -- Queries the rewrite leaves alone -------------------------------------------------------

  /** Resolving a physical name again changes nothing. */
  predicate Stable(env: Env, ids: set<ModelId>, name: Name) {
    IsRelationName(name) ==> !Refers(env, ids, name) && Physical(env, name) == name
  }

  /** The relation names a query refers to outside its WITH scopes: the source's relation extraction. */
  function References<S>(declared: set<string>, q: Query<S>): set<Name>
    decreases q, 1
  {
    var inside := declared + Names(q.ctes);
    ReferencesInCtes(inside, q.ctes) + ReferencesInBody(inside, q.body)
  }

  function ReferencesInCtes<S>(declared: set<string>, ctes: seq<Cte<S>>): set<Name>
    decreases ctes, 0
  {
    if ctes == [] then {} else References(declared, ctes[0].query) + ReferencesInCtes(declared, ctes[1..])
  }

  function ReferencesInBody<S>(declared: set<string>, body: SetExpr<S>): set<Name>
    decreases body, 0
  {
    match body
    case Select(_, _, from, subqueries) => ReferencesInFrom(declared, from) + ReferencesInAll(declared, subqueries)
    case Nested(query) => References(declared, query)
    case SetOperation(_, left, right) => ReferencesInBody(declared, left) + ReferencesInBody(declared, right)
  }

  function ReferencesInAll<S>(declared: set<string>, queries: seq<Query<S>>): set<Name>
    decreases queries, 0
  {
    if queries == [] then {} else References(declared, queries[0]) + ReferencesInAll(declared, queries[1..])
  }

  function ReferencesInFrom<S>(declared: set<string>, from: seq<TableFactor<S>>): set<Name>
    decreases from, 0
  {
    if from == [] then {} else ReferencesInFactor(declared, from[0]) + ReferencesInFrom(declared, from[1..])
  }

  function ReferencesInFactor<S>(declared: set<string>, factor: TableFactor<S>): set<Name>
    decreases factor, 0
  {
    match factor
    case Table(name, _) => if IsRelationName(name) && !IsCte(declared, name) then {name} else {}
    case TableFunction(_, _) => {}
    case Derived(query, _) => References(declared, query)
  }

  ghost predicate AllStable(env: Env, ids: set<ModelId>, names: set<Name>) {
    forall name :: name in names ==> Stable(env, ids, name)
  }

  /** A query whose references are all stable is a fixpoint of the rewrite, also under further WITH names. */
  lemma {:induction false} StableIsFixpoint<S>(
    ctx: Context<S>, within: set<string>, declared: set<string>, q: Query<S>, depth: nat)
    requires within <= declared && AllStable(ctx.env, ctx.ephemerals.Keys, References(within, q))
    ensures RewriteQuery(ctx, declared, q, depth) == q
    decreases q, 1
  {
    StableCtes(ctx, within + Names(q.ctes), declared + Names(q.ctes), q.ctes, depth);
    StableBody(ctx, within + Names(q.ctes), declared + Names(q.ctes), q.body, depth);
  }

  lemma {:induction false} StableCtes<S>(
    ctx: Context<S>, within: set<string>, declared: set<string>, ctes: seq<Cte<S>>, depth: nat)
    requires within <= declared && AllStable(ctx.env, ctx.ephemerals.Keys, ReferencesInCtes(within, ctes))
    ensures RewriteCtes(ctx, declared, ctes, depth) == ctes
    decreases ctes, 0
  {
    if ctes != [] {
      StableIsFixpoint(ctx, within, declared, ctes[0].query, depth);
      StableCtes(ctx, within, declared, ctes[1..], depth);
    }
  }

  lemma {:induction false} StableBody<S>(
    ctx: Context<S>, within: set<string>, declared: set<string>, body: SetExpr<S>, depth: nat)
    requires within <= declared && AllStable(ctx.env, ctx.ephemerals.Keys, ReferencesInBody(within, body))
    ensures RewriteBody(ctx, declared, body, depth) == body
    decreases body, 0
  {
    match body
    case Select(_, _, from, subqueries) =>
      StableFrom(ctx, within, declared, from, depth);
      StableAll(ctx, within, declared, subqueries, depth);
    case Nested(query) =>
      StableIsFixpoint(ctx, within, declared, query, depth);
    case SetOperation(_, left, right) =>
      StableBody(ctx, within, declared, left, depth);
      StableBody(ctx, within, declared, right, depth);
  }

  lemma {:induction false} StableAll<S>(
    ctx: Context<S>, within: set<string>, declared: set<string>, queries: seq<Query<S>>, depth: nat)
    requires within <= declared && AllStable(ctx.env, ctx.ephemerals.Keys, ReferencesInAll(within, queries))
    ensures RewriteAll(ctx, declared, queries, depth) == queries
    decreases queries, 0
  {
    if queries != [] {
      StableIsFixpoint(ctx, within, declared, queries[0], depth);
      StableAll(ctx, within, declared, queries[1..], depth);
    }
  }

  lemma {:induction false} StableFrom<S>(
    ctx: Context<S>, within: set<string>, declared: set<string>, from: seq<TableFactor<S>>, depth: nat)
    requires within <= declared && AllStable(ctx.env, ctx.ephemerals.Keys, ReferencesInFrom(within, from))
    ensures RewriteFrom(ctx, declared, from, depth) == from
    decreases from, 0
  {
    if from != [] {
      StableFactor(ctx, within, declared, from[0], depth);
      StableFrom(ctx, within, declared, from[1..], depth);
    }
  }

  lemma {:induction false} StableFactor<S>(
    ctx: Context<S>, within: set<string>, declared: set<string>, factor: TableFactor<S>, depth: nat)
    requires within <= declared && AllStable(ctx.env, ctx.ephemerals.Keys, ReferencesInFactor(within, factor))
    ensures RewriteFactor(ctx, declared, factor, depth) == factor
    decreases factor, 0
  {
    match factor
    case Table(name, _) =>
      assert !IsRelationName(name) || IsCte(within, name) || Stable(ctx.env, ctx.ephemerals.Keys, name);
    case TableFunction(_, _) =>
    case Derived(query, _) =>
      StableIsFixpoint(ctx, within, declared, query, depth);
  }

  // -- When the rewrite is faithful ---------------------------------------------------------------

  /** Where a query is compiled: its environment, and the models inlined into it with the simple names each leaves. */
  datatype Place = Place(env: Env, free: map<ModelId, set<string>>)

  /** A simple name compiling would not touch even outside every WITH scope. */
  predicate LeftAlone(env: Env, ids: set<ModelId>, name: Name) {
    |name| == 1 && IsRelationName(name) && Stable(env, ids, name)
  }

  /**
   Read off the query before compiling it, `visible` being the WITH names in
   scope in SQL and `declared` those the rewrite takes to be in scope:
   - a reference the rewrite takes for a WITH table is one, or would be left alone anyway;
   - no reference is ambiguous;
   - a renamed table keeps its qualifier, or its block uses neither the old nor the new one;
   - where a model is inlined, no WITH name in scope is a simple name it leaves free.
   */
  ghost predicate Faithful<S>(place: Place, visible: set<string>, declared: set<string>, q: Query<S>)
    decreases q, 1
  {
    var inside := declared + Names(q.ctes);
    FaithfulCtes(place, visible, inside, q.ctes) && FaithfulBody(place, visible + Names(q.ctes), inside, q.body)
  }

  ghost predicate FaithfulCtes<S>(place: Place, visible: set<string>, declared: set<string>, ctes: seq<Cte<S>>)
    decreases ctes, 0
  {
    ctes != [] ==>
      && Faithful(place, visible, declared, ctes[0].query)
      && FaithfulCtes(place, visible + {ctes[0].name}, declared, ctes[1..])
  }

  ghost predicate FaithfulBody<S>(place: Place, visible: set<string>, declared: set<string>, body: SetExpr<S>)
    decreases body, 0
  {
    match body
    case Select(_, quals, from, subqueries) =>
      FaithfulFrom(place, visible, declared, quals, from) && FaithfulAll(place, visible, declared, subqueries)
    case Nested(query) => Faithful(place, visible, declared, query)
    case SetOperation(_, left, right) =>
      FaithfulBody(place, visible, declared, left) && FaithfulBody(place, visible, declared, right)
  }

  ghost predicate FaithfulAll<S>(place: Place, visible: set<string>, declared: set<string>, queries: seq<Query<S>>)
    decreases queries, 0
  {
    queries != [] ==>
      Faithful(place, visible, declared, queries[0]) && FaithfulAll(place, visible, declared, queries[1..])
  }

  ghost predicate FaithfulFrom<S>(
    place: Place, visible: set<string>, declared: set<string>, quals: set<string>, from: seq<TableFactor<S>>)
    decreases from, 0
  {
    from != [] ==>
      && FaithfulFactor(place, visible, declared, quals, from[0])
      && FaithfulFrom(place, visible, declared, quals, from[1..])
  }

  ghost predicate FaithfulFactor<S>(
    place: Place, visible: set<string>, declared: set<string>, quals: set<string>, factor: TableFactor<S>)
    decreases factor, 0
  {
    match factor
    case Table(name, alias) =>
      if !IsRelationName(name) then true
      else if IsCte(declared, name) then name[0] in visible || LeftAlone(place.env, place.free.Keys, name)
      else if Refers(place.env, place.free.Keys, name) then place.free[Resolved(place.env, name).id] !! visible
      else
        && !Resolved(place.env, name).Ambiguous?
        && KeepsQualifier(quals, name, Physical(place.env, name), alias)
    case TableFunction(_, _) => true
    case Derived(query, _) => Faithful(place, visible, declared, query)
  }

  predicate KeepsQualifier(quals: set<string>, name: Name, renamed: Name, alias: Option<string>)
    requires name != [] && renamed != []
  {
    var before, after := name[|name| - 1], renamed[|renamed| - 1];
    alias.Some? || before == after || (Lower(before) !in quals && Lower(after) !in quals)
  }

  lemma PhysicalNonEmpty(env: Env, name: Name)
    requires name != []
    ensures Physical(env, name) != []
    ensures |Physical(env, name)| == 1 ==> Physical(env, name) == name
  {
  }

  /** The queries to inline refer to nothing but physical names, which compiling leaves alone. */
  ghost predicate Settled<S>(ctx: Context<S>, physical: set<Name>, place: Place) {
    && place.env == ctx.env && place.free.Keys == ctx.ephemerals.Keys
    && AllStable(ctx.env, ctx.ephemerals.Keys, physical)
    && forall id :: id in ctx.ephemerals ==> Lands(ctx.ephemerals[id], physical, place.free[id])
  }

  ghost predicate Lands<S>(q: Query<S>, physical: set<Name>, simple: set<string>) {
    && (forall within :: References(within, q) <= physical)
    && FreeNames(q) <= simple
  }

  // -- A query depends on its references only --------------------------------------------------------

  ghost predicate SameReads<T>(place: Place, names: set<Name>, a: Name -> T, b: Name -> T) {
    forall name: Name :: name in names || !IsRelationName(name) || LeftAlone(place.env, place.free.Keys, name) ==>
      a(name) == b(name)
  }

  /** Under the guard, relations a query does not refer to cannot influence it. */
  lemma {:induction false} EvalReadsReferences<S, T, C>(
    m: Interp<S, T, C>, place: Place, declared: set<string>, q: Query<S>,
    a: Name -> T, b: Name -> T, ctes: map<string, T>, outer: C)
    requires Faithful(place, ctes.Keys, declared, q) && SameReads(place, References(declared, q), a, b)
    ensures Eval(m, q, a, ctes, outer) == Eval(m, q, b, ctes, outer)
    decreases q, 1
  {
    var inside := declared + Names(q.ctes);
    CtesReadReferences(m, place, inside, q.ctes, a, b, ctes);
    BodyReadsReferences(m, place, inside, q.body, a, b, EvalCtes(m, q.ctes, a, ctes), outer);
  }

  lemma {:induction false} CtesReadReferences<S, T, C>(
    m: Interp<S, T, C>, place: Place, declared: set<string>, added: seq<Cte<S>>,
    a: Name -> T, b: Name -> T, ctes: map<string, T>)
    requires FaithfulCtes(place, ctes.Keys, declared, added)
    requires SameReads(place, ReferencesInCtes(declared, added), a, b)
    ensures EvalCtes(m, added, a, ctes) == EvalCtes(m, added, b, ctes)
    decreases added, 0
  {
    if added != [] {
      EvalReadsReferences(m, place, declared, added[0].query, a, b, ctes, m.top);
      var next := ctes[added[0].name := Eval(m, added[0].query, a, ctes, m.top)];
      assert next.Keys == ctes.Keys + {added[0].name};
      CtesReadReferences(m, place, declared, added[1..], a, b, next);
    }
  }

  lemma {:induction false} BodyReadsReferences<S, T, C>(
    m: Interp<S, T, C>, place: Place, declared: set<string>, body: SetExpr<S>,
    a: Name -> T, b: Name -> T, ctes: map<string, T>, outer: C)
    requires FaithfulBody(place, ctes.Keys, declared, body) && SameReads(place, ReferencesInBody(declared, body), a, b)
    ensures EvalBody(m, body, a, ctes, outer) == EvalBody(m, body, b, ctes, outer)
    decreases body, 0
  {
    match body
    case Select(spec, quals, from, subqueries) =>
      FromReadsReferences(m, place, declared, quals, from, a, b, ctes);
      var contexts := m.contexts(spec, EvalFrom(m, quals, from, a, ctes), outer);
      forall c | c in contexts ensures EvalAll(m, subqueries, a, ctes, c) == EvalAll(m, subqueries, b, ctes, c) {
        AllReadReferences(m, place, declared, subqueries, a, b, ctes, c);
      }
      assert EvalPerContext(m, subqueries, a, ctes, contexts) == EvalPerContext(m, subqueries, b, ctes, contexts);
    case Nested(query) =>
      EvalReadsReferences(m, place, declared, query, a, b, ctes, outer);
    case SetOperation(op, left, right) =>
      BodyReadsReferences(m, place, declared, left, a, b, ctes, outer);
      BodyReadsReferences(m, place, declared, right, a, b, ctes, outer);
  }

  lemma {:induction false} AllReadReferences<S, T, C>(
    m: Interp<S, T, C>, place: Place, declared: set<string>, queries: seq<Query<S>>,
    a: Name -> T, b: Name -> T, ctes: map<string, T>, outer: C)
    requires FaithfulAll(place, ctes.Keys, declared, queries)
    requires SameReads(place, ReferencesInAll(declared, queries), a, b)
    ensures EvalAll(m, queries, a, ctes, outer) == EvalAll(m, queries, b, ctes, outer)
    decreases queries, 0
  {
    if queries != [] {
      EvalReadsReferences(m, place, declared, queries[0], a, b, ctes, outer);
      AllReadReferences(m, place, declared, queries[1..], a, b, ctes, outer);
    }
  }

  lemma {:induction false} FromReadsReferences<S, T, C>(
    m: Interp<S, T, C>, place: Place, declared: set<string>, quals: set<string>, from: seq<TableFactor<S>>,
    a: Name -> T, b: Name -> T, ctes: map<string, T>)
    requires FaithfulFrom(place, ctes.Keys, declared, quals, from)
    requires SameReads(place, ReferencesInFrom(declared, from), a, b)
    ensures EvalFrom(m, quals, from, a, ctes) == EvalFrom(m, quals, from, b, ctes)
    decreases from, 0
  {
    if from != [] {
      FactorReadsReferences(m, place, declared, quals, from[0], a, b, ctes);
      FromReadsReferences(m, place, declared, quals, from[1..], a, b, ctes);
    }
  }

  lemma {:induction false} FactorReadsReferences<S, T, C>(
    m: Interp<S, T, C>, place: Place, declared: set<string>, quals: set<string>, factor: TableFactor<S>,
    a: Name -> T, b: Name -> T, ctes: map<string, T>)
    requires FaithfulFactor(place, ctes.Keys, declared, quals, factor)
    requires SameReads(place, ReferencesInFactor(declared, factor), a, b)
    ensures EvalFactor(m, factor, a, ctes) == EvalFactor(m, factor, b, ctes)
    decreases factor, 0
  {
    if factor.Derived? {
      EvalReadsReferences(m, place, declared, factor.query, a, b, ctes, m.top);
    }
  }

  // -- The rewritten query refers to physical names ----------------------------------------------------

  ghost predicate RenamedInto<S>(
    ctx: Context<S>, place: Place, names: set<Name>, physical: set<Name>, simple: set<string>)
    requires place.free.Keys == ctx.ephemerals.Keys
  {
    forall name :: name in names ==>
      if Inlined(ctx, name) then place.free[Resolved(ctx.env, name).id] <= simple
      else
        && Physical(ctx.env, name) in physical
        && (|Physical(ctx.env, name)| == 1 ==> Physical(ctx.env, name)[0] in simple)
  }

  /** Names that are read past a WITH scope stay as they are. */
  ghost predicate LeftInto<S>(ctx: Context<S>, names: set<string>, simple: set<string>) {
    "" in simple && forall n {:trigger StaysName(ctx, n)} :: n in names && StaysName(ctx, n) ==> n in simple
  }

  predicate StaysName<S>(ctx: Context<S>, n: string) {
    LeftAlone(ctx.env, ctx.ephemerals.Keys, [n])
  }

  /** Every reference of the rewritten query, and every name it leaves free, is physical. */
  lemma {:induction false} RewriteLands<S>(
    ctx: Context<S>, place: Place, physical: set<Name>, simple: set<string>, visible: set<string>,
    declared: set<string>, within: set<string>,
    q: Query<S>, depth: nat)
    requires Settled(ctx, physical, place) && Faithful(place, visible, declared, q)
    requires declared <= within && RenamedInto(ctx, place, References(declared, q), physical, simple)
    requires LeftInto(ctx, FreeNames(q) - visible, simple)
    ensures References(within, RewriteQuery(ctx, declared, q, depth)) <= physical
    ensures FreeNames(RewriteQuery(ctx, declared, q, depth)) <= simple + visible
    decreases q, 1
  {
    var inside, r := declared + Names(q.ctes), RewriteQuery(ctx, declared, q, depth);
    assert Names(r.ctes) == Names(q.ctes);
    FreeParts(q.ctes, FreeInBody(q.body));
    BodyLands(ctx, place, physical, simple, visible + Names(q.ctes), inside, within + Names(q.ctes), q.body, depth);
    CtesLand(ctx, place, physical, simple, visible, inside, within + Names(q.ctes), q.ctes, FreeInBody(r.body), depth);
  }

  lemma {:induction false} CtesLand<S>(
    ctx: Context<S>, place: Place, physical: set<Name>, simple: set<string>, visible: set<string>,
    declared: set<string>, within: set<string>,
    ctes: seq<Cte<S>>, inner: set<string>, depth: nat)
    requires Settled(ctx, physical, place) && FaithfulCtes(place, visible, declared, ctes)
    requires declared <= within && RenamedInto(ctx, place, ReferencesInCtes(declared, ctes), physical, simple)
    requires LeftInto(ctx, FreeInCtes(ctes, {}) - visible, simple)
    requires inner <= simple + visible + Names(ctes)
    ensures ReferencesInCtes(within, RewriteCtes(ctx, declared, ctes, depth)) <= physical
    ensures FreeInCtes(RewriteCtes(ctx, declared, ctes, depth), inner) <= simple + visible
    decreases ctes, 0
  {
    if ctes != [] {
      RewriteLands(ctx, place, physical, simple, visible, declared, within, ctes[0].query, depth);
      FirstName(ctes);
      CtesLand(ctx, place, physical, simple, visible + {ctes[0].name}, declared, within, ctes[1..], inner, depth);
    }
  }

  lemma {:induction false} BodyLands<S>(
    ctx: Context<S>, place: Place, physical: set<Name>, simple: set<string>, visible: set<string>,
    declared: set<string>, within: set<string>,
    body: SetExpr<S>, depth: nat)
    requires Settled(ctx, physical, place) && FaithfulBody(place, visible, declared, body)
    requires declared <= within && RenamedInto(ctx, place, ReferencesInBody(declared, body), physical, simple)
    requires LeftInto(ctx, FreeInBody(body) - visible, simple)
    ensures ReferencesInBody(within, RewriteBody(ctx, declared, body, depth)) <= physical
    ensures FreeInBody(RewriteBody(ctx, declared, body, depth)) <= simple + visible
    decreases body, 0
  {
    match body
    case Select(_, quals, from, subqueries) =>
      FromLands(ctx, place, physical, simple, visible, declared, within, quals, from, depth);
      AllLand(ctx, place, physical, simple, visible, declared, within, subqueries, depth);
    case Nested(query) =>
      RewriteLands(ctx, place, physical, simple, visible, declared, within, query, depth);
    case SetOperation(_, left, right) =>
      BodyLands(ctx, place, physical, simple, visible, declared, within, left, depth);
      BodyLands(ctx, place, physical, simple, visible, declared, within, right, depth);
  }

  lemma {:induction false} AllLand<S>(
    ctx: Context<S>, place: Place, physical: set<Name>, simple: set<string>, visible: set<string>,
    declared: set<string>, within: set<string>,
    queries: seq<Query<S>>, depth: nat)
    requires Settled(ctx, physical, place) && FaithfulAll(place, visible, declared, queries)
    requires declared <= within && RenamedInto(ctx, place, ReferencesInAll(declared, queries), physical, simple)
    requires LeftInto(ctx, FreeInAll(queries) - visible, simple)
    ensures ReferencesInAll(within, RewriteAll(ctx, declared, queries, depth)) <= physical
    ensures FreeInAll(RewriteAll(ctx, declared, queries, depth)) <= simple + visible
    decreases queries, 0
  {
    if queries != [] {
      RewriteLands(ctx, place, physical, simple, visible, declared, within, queries[0], depth);
      AllLand(ctx, place, physical, simple, visible, declared, within, queries[1..], depth);
    }
  }

  lemma {:induction false} FromLands<S>(
    ctx: Context<S>, place: Place, physical: set<Name>, simple: set<string>, visible: set<string>,
    declared: set<string>, within: set<string>,
    quals: set<string>, from: seq<TableFactor<S>>, depth: nat)
    requires Settled(ctx, physical, place) && FaithfulFrom(place, visible, declared, quals, from)
    requires declared <= within && RenamedInto(ctx, place, ReferencesInFrom(declared, from), physical, simple)
    requires LeftInto(ctx, FreeInFrom(from) - visible, simple)
    ensures ReferencesInFrom(within, RewriteFrom(ctx, declared, from, depth)) <= physical
    ensures FreeInFrom(RewriteFrom(ctx, declared, from, depth)) <= simple + visible
    decreases from, 0
  {
    if from != [] {
      FactorLands(ctx, place, physical, simple, visible, declared, within, quals, from[0], depth);
      FromLands(ctx, place, physical, simple, visible, declared, within, quals, from[1..], depth);
    }
  }

  lemma {:induction false} FactorLands<S>(
    ctx: Context<S>, place: Place, physical: set<Name>, simple: set<string>, visible: set<string>,
    declared: set<string>, within: set<string>,
    quals: set<string>, factor: TableFactor<S>, depth: nat)
    requires Settled(ctx, physical, place) && FaithfulFactor(place, visible, declared, quals, factor)
    requires declared <= within && RenamedInto(ctx, place, ReferencesInFactor(declared, factor), physical, simple)
    requires LeftInto(ctx, FreeInFactor(factor) - visible, simple)
    ensures ReferencesInFactor(within, RewriteFactor(ctx, declared, factor, depth)) <= physical
    ensures FreeInFactor(RewriteFactor(ctx, declared, factor, depth)) <= simple + visible
    decreases factor, 0
  {
    match factor
    case Table(name, alias) =>
      if IsRelationName(name) && !IsCte(declared, name) && Inlined(ctx, name) {
        var id := Resolved(ctx.env, name).id;
        assert name in ReferencesInFactor(declared, factor);
        InlinedLands(ctx, physical, place.free[id], declared, within, ctx.ephemerals[id], depth);
      } else if IsRelationName(name) && !IsCte(declared, name) {
        assert name in ReferencesInFactor(declared, factor);
      } else if |name| == 1 {
        assert name == [name[0]];
        assert IsRelationName(name) && name[0] !in visible ==> StaysName(ctx, name[0]);
      }
    case TableFunction(_, _) =>
    case Derived(query, _) =>
      RewriteLands(ctx, place, physical, simple, visible, declared, within, query, depth);
  }

  lemma InlinedLands<S>(
    ctx: Context<S>, physical: set<Name>, simple: set<string>, declared: set<string>, within: set<string>,
    sub: Query<S>, depth: nat)
    requires AllStable(ctx.env, ctx.ephemerals.Keys, physical) && Lands(sub, physical, simple)
    ensures depth > 0 ==> RewriteQuery(ctx, declared, sub, depth - 1) == sub
    ensures References(within, sub) <= physical && FreeNames(sub) <= simple
  {
    if depth > 0 {
      assert References({}, sub) <= physical;
      StableIsFixpoint(ctx, {}, declared, sub, depth - 1);
    }
  }

  // -- The rewritten query computes the same table ------------------------------------------------------

  /**
   `base` reads a name as what it stands for, `db` holds the physical
   relations: on `names`, and on names compiling leaves alone, the two agree
   through the renaming, and an inlined query computes what its reference stands
   for.
   */
  ghost predicate Represents<S, T, C>(
    m: Interp<S, T, C>, ctx: Context<S>, names: set<Name>, base: Name -> T, db: Name -> T)
  {
    forall name: Name ::
      name in names || !IsRelationName(name) || LeftAlone(ctx.env, ctx.ephemerals.Keys, name) ==>
        base(name) == Delivered(m, ctx, name, db)
  }

  /** What the rewritten form of a reference reads. */
  ghost function Delivered<S, T, C>(m: Interp<S, T, C>, ctx: Context<S>, name: Name, db: Name -> T): T {
    if Inlined(ctx, name) then Eval(m, ctx.ephemerals[Resolved(ctx.env, name).id], db, map[], m.top)
    else db(Physical(ctx.env, name))
  }

  /**
   Over the physical relations, the rewritten query computes what the query
   computes over the relations its names stand for, in every scope and context.
   */
  lemma {:induction false} RewriteKeepsMeaning<S, T, C>(
    m: Interp<S, T, C>, ctx: Context<S>, names: set<Name>, physical: set<Name>, place: Place,
    declared: set<string>,
    q: Query<S>, depth: nat,
    base: Name -> T, db: Name -> T, ctes: map<string, T>, outer: C)
    requires Represents(m, ctx, names, base, db) && Settled(ctx, physical, place)
    requires ctes.Keys <= declared
    requires Faithful(place, ctes.Keys, declared, q)
    requires References(declared, q) <= names
    ensures Eval(m, RewriteQuery(ctx, declared, q, depth), db, ctes, outer) == Eval(m, q, base, ctes, outer)
    decreases q, 1
  {
    var inside := declared + Names(q.ctes);
    RewriteKeepsCtes(m, ctx, names, physical, place, inside, q.ctes, depth, base, db, ctes);
    RewriteKeepsBody(
      m, ctx, names, physical, place, inside, q.body, depth, base, db, EvalCtes(m, q.ctes, base, ctes), outer);
  }

  lemma {:induction false} RewriteKeepsCtes<S, T, C>(
    m: Interp<S, T, C>, ctx: Context<S>, names: set<Name>, physical: set<Name>, place: Place,
    declared: set<string>,
    added: seq<Cte<S>>, depth: nat,
    base: Name -> T, db: Name -> T, ctes: map<string, T>)
    requires Represents(m, ctx, names, base, db) && Settled(ctx, physical, place)
    requires ctes.Keys <= declared && Names(added) <= declared
    requires FaithfulCtes(place, ctes.Keys, declared, added)
    requires ReferencesInCtes(declared, added) <= names
    ensures EvalCtes(m, RewriteCtes(ctx, declared, added, depth), db, ctes) == EvalCtes(m, added, base, ctes)
    decreases added, 0
  {
    if added != [] {
      RewriteKeepsMeaning(m, ctx, names, physical, place, declared, added[0].query, depth, base, db, ctes, m.top);
      var next := ctes[added[0].name := Eval(m, added[0].query, base, ctes, m.top)];
      FirstName(added);
      assert next.Keys == ctes.Keys + {added[0].name};
      RewriteKeepsCtes(m, ctx, names, physical, place, declared, added[1..], depth, base, db, next);
    }
  }

  lemma {:induction false} RewriteKeepsBody<S, T, C>(
    m: Interp<S, T, C>, ctx: Context<S>, names: set<Name>, physical: set<Name>, place: Place,
    declared: set<string>,
    body: SetExpr<S>, depth: nat,
    base: Name -> T, db: Name -> T, ctes: map<string, T>, outer: C)
    requires Represents(m, ctx, names, base, db) && Settled(ctx, physical, place)
    requires ctes.Keys <= declared
    requires FaithfulBody(place, ctes.Keys, declared, body)
    requires ReferencesInBody(declared, body) <= names
    ensures EvalBody(m, RewriteBody(ctx, declared, body, depth), db, ctes, outer)
        == EvalBody(m, body, base, ctes, outer)
    decreases body, 0
  {
    match body
    case Select(spec, quals, from, subqueries) =>
      RewriteKeepsFrom(m, ctx, names, physical, place, declared, quals, from, depth, base, db, ctes);
      var queries := RewriteAll(ctx, declared, subqueries, depth);
      var contexts := m.contexts(spec, EvalFrom(m, quals, from, base, ctes), outer);
      forall c | c in contexts ensures EvalAll(m, queries, db, ctes, c) == EvalAll(m, subqueries, base, ctes, c) {
        RewriteKeepsAll(m, ctx, names, physical, place, declared, subqueries, depth, base, db, ctes, c);
      }
      assert EvalPerContext(m, queries, db, ctes, contexts) == EvalPerContext(m, subqueries, base, ctes, contexts);
    case Nested(query) =>
      RewriteKeepsMeaning(m, ctx, names, physical, place, declared, query, depth, base, db, ctes, outer);
    case SetOperation(op, left, right) =>
      RewriteKeepsBody(m, ctx, names, physical, place, declared, left, depth, base, db, ctes, outer);
      RewriteKeepsBody(m, ctx, names, physical, place, declared, right, depth, base, db, ctes, outer);
  }

  lemma {:induction false} RewriteKeepsAll<S, T, C>(
    m: Interp<S, T, C>, ctx: Context<S>, names: set<Name>, physical: set<Name>, place: Place,
    declared: set<string>,
    queries: seq<Query<S>>, depth: nat,
    base: Name -> T, db: Name -> T, ctes: map<string, T>, outer: C)
    requires Represents(m, ctx, names, base, db) && Settled(ctx, physical, place)
    requires ctes.Keys <= declared
    requires FaithfulAll(place, ctes.Keys, declared, queries)
    requires ReferencesInAll(declared, queries) <= names
    ensures EvalAll(m, RewriteAll(ctx, declared, queries, depth), db, ctes, outer)
         == EvalAll(m, queries, base, ctes, outer)
    decreases queries, 0
  {
    if queries != [] {
      RewriteKeepsMeaning(m, ctx, names, physical, place, declared, queries[0], depth, base, db, ctes, outer);
      RewriteKeepsAll(m, ctx, names, physical, place, declared, queries[1..], depth, base, db, ctes, outer);
    }
  }

  lemma {:induction false} RewriteKeepsFrom<S, T, C>(
    m: Interp<S, T, C>, ctx: Context<S>, names: set<Name>, physical: set<Name>, place: Place,
    declared: set<string>,
    quals: set<string>, from: seq<TableFactor<S>>,
    depth: nat, base: Name -> T, db: Name -> T, ctes: map<string, T>)
    requires Represents(m, ctx, names, base, db) && Settled(ctx, physical, place)
    requires ctes.Keys <= declared
    requires FaithfulFrom(place, ctes.Keys, declared, quals, from)
    requires ReferencesInFrom(declared, from) <= names
    ensures EvalFrom(m, quals, RewriteFrom(ctx, declared, from, depth), db, ctes)
         == EvalFrom(m, quals, from, base, ctes)
    decreases from, 0
  {
    if from != [] {
      RewriteKeepsFactor(m, ctx, names, physical, place, declared, quals, from[0], depth, base, db, ctes);
      RewriteKeepsFrom(m, ctx, names, physical, place, declared, quals, from[1..], depth, base, db, ctes);
    }
  }

  lemma {:induction false} RewriteKeepsFactor<S, T, C>(
    m: Interp<S, T, C>, ctx: Context<S>, names: set<Name>, physical: set<Name>, place: Place,
    declared: set<string>,
    quals: set<string>, factor: TableFactor<S>,
    depth: nat, base: Name -> T, db: Name -> T, ctes: map<string, T>)
    requires Represents(m, ctx, names, base, db) && Settled(ctx, physical, place)
    requires ctes.Keys <= declared
    requires FaithfulFactor(place, ctes.Keys, declared, quals, factor)
    requires ReferencesInFactor(declared, factor) <= names
    ensures Masked(quals, EvalFactor(m, RewriteFactor(ctx, declared, factor, depth), db, ctes))
         == Masked(quals, EvalFactor(m, factor, base, ctes))
    decreases factor, 0
  {
    match factor
    case Table(name, alias) =>
      if IsRelationName(name) && !IsCte(declared, name) && Inlined(ctx, name) {
        var id := Resolved(ctx.env, name).id;
        InlineKeepsMeaning(
          m, ctx, physical, place.free[id], ctx.ephemerals[id], declared, depth, db, ctes);
      } else if IsRelationName(name) {
        PhysicalNonEmpty(ctx.env, name);
        assert base(name) == db(Physical(ctx.env, name)) || (IsCte(declared, name) && name[0] in ctes);
      } else {
        assert base(name) == db(name);
      }
    case TableFunction(_, _) =>
    case Derived(query, _) =>
      RewriteKeepsMeaning(m, ctx, names, physical, place, declared, query, depth, base, db, ctes, m.top);
  }

  /** An inlined query, visited again under the WITH names of its new place, still computes its model. */
  lemma InlineKeepsMeaning<S, T, C>(
    m: Interp<S, T, C>, ctx: Context<S>, physical: set<Name>, simple: set<string>, sub: Query<S>,
    declared: set<string>, depth: nat, db: Name -> T, ctes: map<string, T>)
    requires AllStable(ctx.env, ctx.ephemerals.Keys, physical) && Lands(sub, physical, simple)
    requires simple !! ctes.Keys
    ensures depth > 0 ==> RewriteQuery(ctx, declared, sub, depth - 1) == sub
    ensures Eval(m, sub, db, ctes, m.top) == Eval(m, sub, db, map[], m.top)
  {
    InlinedLands(ctx, physical, simple, declared, declared, sub, depth);
    LiveIsFree(sub);
    EvalSameOn(m, sub, db, ctes, map[], m.top);
  }
}
