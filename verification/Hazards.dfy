/**
 Where compilation does not keep meaning: for a query that is one reference, the
 exact conditions over every meaning and database, and the smallest queries that
 break them (crates/phlo-transform-core/src/rewrite.rs).
 */
module Hazards {
  import opened Wrappers
  import opened Identity
  import opened Digraph
  import opened Sql
  import opened Resolve
  import opened Rewrite
  import opened Meaning
  import opened Compile
  import opened CompiledMeaning

  // -- Telling tables apart ---------------------------------------------------------------------------

  datatype Size = Size(n: nat)

  function Total(frames: seq<Frame<Size>>): nat {
    if frames == [] then 0 else frames[0].table.n + Total(frames[1..])
  }

  function Sum(values: seq<Size>): nat {
    if values == [] then 0 else values[0].n + Sum(values[1..])
  }

  /** Tables are numbers and every query is larger than what it reads, subqueries included. */
  function Sizes<S>(): Interp<S, Size, ()> {
    Interp(
      (spec: S, frames: seq<Frame<Size>>, outer: ()) => {()},
      (spec: S, frames: seq<Frame<Size>>, outer: (), nested: map<(), seq<Size>>) =>
        Size(1 + Total(frames) + if () in nested then Sum(nested[()]) else 0),
      (op: SetOp, left: Size, right: Size) => Size(1 + left.n + right.n),
      (name: Name) => Size(0),
      ())
  }

  lemma CombinedSize<S>(
    op: SetOp, left: SetExpr<S>, right: SetExpr<S>, base: Name -> Size, ctes: map<string, Size>)
    ensures EvalBody<S, Size, ()>(Sizes(), SetOperation(op, left, right), base, ctes, ()).n
         == 1 + EvalBody<S, Size, ()>(Sizes(), left, base, ctes, ()).n
            + EvalBody<S, Size, ()>(Sizes(), right, base, ctes, ()).n
  {
    var l, r := EvalBody(Sizes<S>(), left, base, ctes, ()), EvalBody(Sizes<S>(), right, base, ctes, ());
    assert EvalBody(Sizes<S>(), SetOperation(op, left, right), base, ctes, ()) == Sizes<S>().combine(op, l, r);
  }

  lemma {:induction false} SizesPositive<S>(body: SetExpr<S>, base: Name -> Size, ctes: map<string, Size>)
    ensures EvalBody<S, Size, ()>(Sizes(), body, base, ctes, ()).n > 0
    decreases body, 0
  {
    match body
    case Select(_, _, _, _) =>
    case Nested(query) =>
      SizesPositive(query.body, base, EvalCtes(Sizes(), query.ctes, base, ctes));
    case SetOperation(op, left, right) =>
      CombinedSize(op, left, right, base, ctes);
  }

  // -- Names a query reads count -------------------------------------------------------------------------

  predicate AtLeast(ctes: map<string, Size>, name: string, size: nat) {
    name in ctes && ctes[name].n >= size
  }

  lemma {:induction false} LiveCounts<S>(
    q: Query<S>, base: Name -> Size, ctes: map<string, Size>, name: string, size: nat)
    requires name in LiveNames(q) && AtLeast(ctes, name, size)
    ensures Eval<S, Size, ()>(Sizes(), q, base, ctes, ()).n >= size
    decreases q, 1
  {
    var read := LiveInCtesCounts(q.ctes, LiveInBody(q.body), base, ctes, name, size);
    LiveInBodyCounts(q.body, base, EvalCtes(Sizes(), q.ctes, base, ctes), read, size);
  }

  lemma {:induction false} LiveInCtesCounts<S>(
    ctes: seq<Cte<S>>, inner: set<string>, base: Name -> Size, before: map<string, Size>, name: string, size: nat)
    returns (read: string)
    requires name in LiveInCtes(ctes, inner) && AtLeast(before, name, size)
    ensures read in inner && AtLeast(EvalCtes(Sizes(), ctes, base, before), read, size)
    decreases ctes, 0
  {
    if ctes == [] {
      read := name;
    } else {
      var first, rest := ctes[0], LiveInCtes(ctes[1..], inner);
      var table := Eval(Sizes(), first.query, base, before, ());
      if name in rest && name != first.name {
        read := LiveInCtesCounts(ctes[1..], inner, base, before[first.name := table], name, size);
      } else {
        LiveCounts(first.query, base, before, name, size);
        read := LiveInCtesCounts(ctes[1..], inner, base, before[first.name := table], first.name, size);
      }
    }
  }

  lemma {:induction false} LiveInBodyCounts<S>(
    body: SetExpr<S>, base: Name -> Size, ctes: map<string, Size>, name: string, size: nat)
    requires name in LiveInBody(body) && AtLeast(ctes, name, size)
    ensures EvalBody<S, Size, ()>(Sizes(), body, base, ctes, ()).n >= size
    decreases body, 0
  {
    match body
    case Select(spec, quals, from, subqueries) =>
      var nested := EvalPerContext(Sizes(), subqueries, base, ctes, {()});
      assert nested[()] == EvalAll(Sizes(), subqueries, base, ctes, ());
      if name in LiveInFrom(from) {
        LiveInFromCounts(quals, from, base, ctes, name, size);
      } else {
        LiveInAllCounts(subqueries, base, ctes, name, size);
      }
    case Nested(query) =>
      LiveCounts(query, base, ctes, name, size);
    case SetOperation(op, left, right) =>
      CombinedSize(op, left, right, base, ctes);
      if name in LiveInBody(left) {
        LiveInBodyCounts(left, base, ctes, name, size);
      } else {
        LiveInBodyCounts(right, base, ctes, name, size);
      }
  }

  lemma {:induction false} LiveInAllCounts<S>(
    queries: seq<Query<S>>, base: Name -> Size, ctes: map<string, Size>, name: string, size: nat)
    requires name in LiveInAll(queries) && AtLeast(ctes, name, size)
    ensures Sum(EvalAll(Sizes(), queries, base, ctes, ())) >= size
    decreases queries, 0
  {
    if name in LiveNames(queries[0]) {
      LiveCounts(queries[0], base, ctes, name, size);
    } else {
      LiveInAllCounts(queries[1..], base, ctes, name, size);
    }
  }

  lemma {:induction false} LiveInFromCounts<S>(
    quals: set<string>, from: seq<TableFactor<S>>, base: Name -> Size, ctes: map<string, Size>, name: string, size: nat)
    requires name in LiveInFrom(from) && AtLeast(ctes, name, size)
    ensures Total(EvalFrom(Sizes<S>(), quals, from, base, ctes)) >= size
    decreases from, 0
  {
    if name in LiveInFactor(from[0]) {
      LiveInFactorCounts(from[0], base, ctes, name, size);
    } else {
      LiveInFromCounts(quals, from[1..], base, ctes, name, size);
    }
  }

  lemma {:induction false} LiveInFactorCounts<S>(
    factor: TableFactor<S>, base: Name -> Size, ctes: map<string, Size>, name: string, size: nat)
    requires name in LiveInFactor(factor) && AtLeast(ctes, name, size)
    ensures EvalFactor<S, Size, ()>(Sizes(), factor, base, ctes).table.n >= size
    decreases factor, 0
  {
    if factor.Derived? {
      LiveCounts(factor.query, base, ctes, name, size);
    }
  }

  // -- One reference --------------------------------------------------------------------------------------

  /** SELECT .. FROM name AS alias. */
  function OneReference<S>(spec: S, quals: set<string>, name: Name, alias: Option<string>): Query<S> {
    Query([], Select(spec, quals, [Table(name, alias)], []))
  }

  /**
   Compiling the reference keeps its meaning: for every meaning of blocks over
   tables that are numbers, every such physical database, and every value of the
   WITH tables in scope. Tables this poor tell enough apart: where a reference is
   kept over numbers, `KeptOverAnything` keeps it over tables of any kind.
   */
  ghost predicate Kept<S(!new)>(
    ctx: Context<S>, visible: set<string>, declared: set<string>, spec: S, quals: set<string>, name: Name,
    alias: Option<string>, depth: nat)
  {
    forall m: Interp<S, Size, ()>, db: Name -> Size, ctes: map<string, Size> ::
      ctes.Keys == visible ==> KeptIn(ctx, declared, spec, quals, name, alias, depth, m, db, ctes)
  }

  ghost predicate KeptIn<S, T, C>(
    ctx: Context<S>, declared: set<string>, spec: S, quals: set<string>, name: Name, alias: Option<string>,
    depth: nat, m: Interp<S, T, C>, db: Name -> T, ctes: map<string, T>)
  {
    var q := OneReference(spec, quals, name, alias);
    Eval(m, RewriteQuery(ctx, declared, q, depth), db, ctes, m.top)
      == Eval(m, q, Standing(m, ctx, db), ctes, m.top)
  }

  /** Every name read as what it stands for. */
  ghost function Standing<S, T, C>(m: Interp<S, T, C>, ctx: Context<S>, db: Name -> T): Name -> T {
    name => Delivered(m, ctx, name, db)
  }

  function SelectOne<S, T, C>(
    m: Interp<S, T, C>, spec: S, frame: Frame<T>, outer: C): T
  {
    var contexts := m.contexts(spec, [frame], outer);
    m.select(spec, [frame], outer, map c | c in contexts :: [])
  }

  lemma OneEvaluates<S, T, C>(
    m: Interp<S, T, C>, spec: S, quals: set<string>, factor: TableFactor<S>, db: Name -> T, ctes: map<string, T>,
    outer: C)
    ensures Eval(m, Query([], Select(spec, quals, [factor], [])), db, ctes, outer)
         == SelectOne(m, spec, Masked(quals, EvalFactor(m, factor, db, ctes)), outer)
  {
    var frame := Masked(quals, EvalFactor(m, factor, db, ctes));
    assert [factor][1..] == [];
    assert EvalFrom(m, quals, [factor], db, ctes) == [frame];
    var contexts := m.contexts(spec, [frame], outer);
    assert EvalPerContext(m, [], db, ctes, contexts) == map c | c in contexts :: [];
  }

  lemma OneRewrites<S>(
    ctx: Context<S>, declared: set<string>, spec: S, quals: set<string>, name: Name, alias: Option<string>, depth: nat)
    ensures RewriteQuery(ctx, declared, OneReference(spec, quals, name, alias), depth)
         == Query([], Select(spec, quals, [RewriteFactor(ctx, declared, Table(name, alias), depth)], []))
  {
    var from: seq<TableFactor<S>> := [Table(name, alias)];
    var none: seq<Cte<S>> := [];
    assert from[1..] == [];
    assert declared + Names(none) == declared;
    assert RewriteFrom(ctx, declared, from[1..], depth) == [];
    assert RewriteFrom(ctx, declared, from, depth) == [RewriteFactor(ctx, declared, from[0], depth)];
    assert RewriteCtes(ctx, declared, none, depth) == [];
  }

  ghost function CompiledFrame<S, T, C>(
    ctx: Context<S>, declared: set<string>, quals: set<string>, name: Name, alias: Option<string>, depth: nat,
    m: Interp<S, T, C>, db: Name -> T, ctes: map<string, T>): Frame<T>
  {
    Masked(quals, EvalFactor(m, RewriteFactor(ctx, declared, Table(name, alias), depth), db, ctes))
  }

  ghost function OriginalFrame<S, T, C>(
    ctx: Context<S>, quals: set<string>, name: Name, alias: Option<string>, m: Interp<S, T, C>, db: Name -> T,
    ctes: map<string, T>): Frame<T>
  {
    Masked(quals, EvalFactor(m, TableFactor<S>.Table(name, alias), Standing(m, ctx, db), ctes))
  }

  /** The reference is kept in an evaluation exactly when its block cannot tell the two frames apart. */
  lemma KeptByFrames<S, T, C>(
    ctx: Context<S>, declared: set<string>, spec: S, quals: set<string>, name: Name, alias: Option<string>,
    depth: nat, m: Interp<S, T, C>, db: Name -> T, ctes: map<string, T>)
    ensures KeptIn(ctx, declared, spec, quals, name, alias, depth, m, db, ctes)
       <==> (SelectOne(m, spec, CompiledFrame(ctx, declared, quals, name, alias, depth, m, db, ctes), m.top)
             == SelectOne(m, spec, OriginalFrame(ctx, quals, name, alias, m, db, ctes), m.top))
  {
    OneRewrites(ctx, declared, spec, quals, name, alias, depth);
    OneEvaluates(m, spec, quals, RewriteFactor(ctx, declared, Table(name, alias), depth), db, ctes, m.top);
    OneEvaluates(m, spec, quals, Table(name, alias), Standing(m, ctx, db), ctes, m.top);
  }

  lemma SizeOfOne<S>(spec: S, frame: Frame<Size>)
    ensures SelectOne(Sizes<S>(), spec, frame, ()) == Size(1 + frame.table.n)
  {
    assert [frame][1..] == [];
    assert Total([frame]) == frame.table.n;
    var contexts := Sizes<S>().contexts(spec, [frame], ());
    var nested: map<(), seq<Size>> := map c | c in contexts :: [];
    assert Sum(nested[()]) == 0;
  }

  lemma KeptHere<S(!new)>(
    ctx: Context<S>, visible: set<string>, declared: set<string>, spec: S, quals: set<string>, name: Name,
    alias: Option<string>, depth: nat, m: Interp<S, Size, ()>, db: Name -> Size, ctes: map<string, Size>)
    requires Kept(ctx, visible, declared, spec, quals, name, alias, depth) && ctes.Keys == visible
    ensures SelectOne(m, spec, CompiledFrame(ctx, declared, quals, name, alias, depth, m, db, ctes), m.top)
         == SelectOne(m, spec, OriginalFrame(ctx, quals, name, alias, m, db, ctes), m.top)
  {
    KeptByFrames(ctx, declared, spec, quals, name, alias, depth, m, db, ctes);
    assert KeptIn(ctx, declared, spec, quals, name, alias, depth, m, db, ctes);
  }

  function Constant(n: nat): Name -> Size {
    name => Size(n)
  }

  function OneAt(name: Name): Name -> Size {
    n => if n == name then Size(1) else Size(0)
  }

  function AllOf(names: set<string>, n: nat): map<string, Size> {
    map x | x in names :: Size(n)
  }

  /** What has to hold of a reference: as a WITH table, as a renamed one, as an inlined one. */
  ghost predicate Harmless<S>(
    ctx: Context<S>, visible: set<string>, declared: set<string>, quals: set<string>, name: Name,
    alias: Option<string>)
  {
    if IsCte(declared, name) then name[0] in visible || LeftAlone(ctx.env, ctx.ephemerals.Keys, name)
    else if Inlined(ctx, name) then LiveNames(ctx.ephemerals[Resolved(ctx.env, name).id]) !! visible
    else Physical(ctx.env, name) != [] && KeepsQualifier(quals, name, Physical(ctx.env, name), alias)
  }

  /** A query to be inlined that a second visit leaves as it is. */
  ghost predicate SettledIfInlined<S>(ctx: Context<S>, declared: set<string>, name: Name) {
    !IsCte(declared, name) && Inlined(ctx, name) ==>
      AllStable(ctx.env, ctx.ephemerals.Keys, References({}, ctx.ephemerals[Resolved(ctx.env, name).id]))
  }

  /** A harmless reference is kept, over tables of any kind. */
  lemma KeptWhereHarmless<S, T, C>(
    ctx: Context<S>, visible: set<string>, declared: set<string>, spec: S, quals: set<string>, name: Name,
    alias: Option<string>, depth: nat, m: Interp<S, T, C>, db: Name -> T, ctes: map<string, T>)
    requires visible <= declared && IsRelationName(name) && ctes.Keys == visible
    requires SettledIfInlined(ctx, declared, name) && Harmless(ctx, visible, declared, quals, name, alias)
    ensures KeptIn(ctx, declared, spec, quals, name, alias, depth, m, db, ctes)
  {
    KeptByFrames(ctx, declared, spec, quals, name, alias, depth, m, db, ctes);
    if !IsCte(declared, name) && Inlined(ctx, name) {
      InlinedFrame(ctx, declared, name, alias, depth);
      EvalSameOn(m, ctx.ephemerals[Resolved(ctx.env, name).id], db, ctes, map[], m.top);
    }
  }

  /**
   A reference the rewrite takes for a WITH table keeps its meaning if and only if
   it is one to SQL, or names something that would be left alone anyway.
   */
  lemma HiddenReferenceExactly<S(!new)>(
    ctx: Context<S>, visible: set<string>, declared: set<string>, spec: S, quals: set<string>, x: string,
    alias: Option<string>, depth: nat)
    requires visible <= declared && x in declared && IsRelationName([x])
    ensures Kept(ctx, visible, declared, spec, quals, [x], alias, depth)
       <==> x in visible || LeftAlone(ctx.env, ctx.ephemerals.Keys, [x])
  {
    if x in visible || LeftAlone(ctx.env, ctx.ephemerals.Keys, [x]) {
      forall m: Interp<S, Size, ()>, db: Name -> Size, ctes: map<string, Size> | ctes.Keys == visible
        ensures KeptIn(ctx, declared, spec, quals, [x], alias, depth, m, db, ctes)
      {
        KeptWhereHarmless(ctx, visible, declared, spec, quals, [x], alias, depth, m, db, ctes);
      }
    } else {
      HiddenReferenceLost(ctx, visible, declared, spec, quals, x, alias, depth);
    }
  }

  lemma HiddenReferenceLost<S(!new)>(
    ctx: Context<S>, visible: set<string>, declared: set<string>, spec: S, quals: set<string>, x: string,
    alias: Option<string>, depth: nat)
    requires x in declared && IsRelationName([x])
    requires x !in visible && !LeftAlone(ctx.env, ctx.ephemerals.Keys, [x])
    ensures !Kept(ctx, visible, declared, spec, quals, [x], alias, depth)
  {
    var ctes := AllOf(visible, 0);
    var db := if Inlined(ctx, [x]) then Constant(0) else OneAt([x]);
    if Kept(ctx, visible, declared, spec, quals, [x], alias, depth) {
      KeptHere(ctx, visible, declared, spec, quals, [x], alias, depth, Sizes(), db, ctes);
      SizeOfOne(spec, CompiledFrame(ctx, declared, quals, [x], alias, depth, Sizes(), db, ctes));
      SizeOfOne(spec, OriginalFrame(ctx, quals, [x], alias, Sizes(), db, ctes));
      if Inlined(ctx, [x]) {
        var sub := ctx.ephemerals[Resolved(ctx.env, [x]).id];
        SizesPositive(sub.body, db, EvalCtes(Sizes(), sub.ctes, db, map[]));
      }
      assert false;
    }
  }

  /** A renamed reference keeps its meaning if and only if its block cannot see the change of qualifier. */
  lemma RenamedReferenceExactly<S(!new)>(
    ctx: Context<S>, visible: set<string>, declared: set<string>, spec: S, quals: set<string>, name: Name,
    alias: Option<string>, depth: nat)
    requires visible <= declared && IsRelationName(name) && !IsCte(declared, name) && !Inlined(ctx, name)
    ensures Physical(ctx.env, name) != []
    ensures Kept(ctx, visible, declared, spec, quals, name, alias, depth)
       <==> KeepsQualifier(quals, name, Physical(ctx.env, name), alias)
  {
    PhysicalNonEmpty(ctx.env, name);
    if KeepsQualifier(quals, name, Physical(ctx.env, name), alias) {
      forall m: Interp<S, Size, ()>, db: Name -> Size, ctes: map<string, Size> | ctes.Keys == visible
        ensures KeptIn(ctx, declared, spec, quals, name, alias, depth, m, db, ctes)
      {
        KeptWhereHarmless(ctx, visible, declared, spec, quals, name, alias, depth, m, db, ctes);
      }
    } else {
      RenamedReferenceLost(ctx, visible, declared, spec, quals, name, alias, depth);
    }
  }

  /** A block that asks for the qualifier of its input. */
  function AsksFor<S>(qualifier: Option<string>): Interp<S, Size, ()> {
    Interp(
      (spec: S, frames: seq<Frame<Size>>, outer: ()) => {},
      (spec: S, frames: seq<Frame<Size>>, outer: (), nested: map<(), seq<Size>>) =>
        if frames != [] && frames[0].qualifier == qualifier then Size(1) else Size(0),
      (op: SetOp, left: Size, right: Size) => left,
      (name: Name) => Size(0),
      ())
  }

  lemma RenamedReferenceLost<S(!new)>(
    ctx: Context<S>, visible: set<string>, declared: set<string>, spec: S, quals: set<string>, name: Name,
    alias: Option<string>, depth: nat)
    requires IsRelationName(name) && !IsCte(declared, name) && !Inlined(ctx, name)
    requires Physical(ctx.env, name) != [] && !KeepsQualifier(quals, name, Physical(ctx.env, name), alias)
    ensures !Kept(ctx, visible, declared, spec, quals, name, alias, depth)
  {
    var ctes, db := AllOf(visible, 0), Constant(0);
    var compiled := CompiledFrame(ctx, declared, quals, name, alias, depth, Sizes(), db, ctes);
    var m := AsksFor(compiled.qualifier);
    assert CompiledFrame(ctx, declared, quals, name, alias, depth, m, db, ctes).qualifier == compiled.qualifier;
    assert OriginalFrame(ctx, quals, name, alias, m, db, ctes).qualifier != compiled.qualifier;
    if Kept(ctx, visible, declared, spec, quals, name, alias, depth) {
      KeptHere(ctx, visible, declared, spec, quals, name, alias, depth, m, db, ctes);
      assert false;
    }
  }

  /** An inlined reference keeps its meaning if and only if no WITH name in scope is a simple name its query reads. */
  lemma InlinedReferenceExactly<S(!new)>(
    ctx: Context<S>, visible: set<string>, declared: set<string>, spec: S, quals: set<string>, name: Name,
    alias: Option<string>, depth: nat)
    requires visible <= declared && !IsCte(declared, name) && Inlined(ctx, name)
    requires var sub := ctx.ephemerals[Resolved(ctx.env, name).id];
             AllStable(ctx.env, ctx.ephemerals.Keys, References({}, sub))
    ensures Kept(ctx, visible, declared, spec, quals, name, alias, depth)
       <==> LiveNames(ctx.ephemerals[Resolved(ctx.env, name).id]) !! visible
  {
    var sub := ctx.ephemerals[Resolved(ctx.env, name).id];
    InlinedFrame(ctx, declared, name, alias, depth);
    if LiveNames(sub) !! visible {
      forall m: Interp<S, Size, ()>, db: Name -> Size, ctes: map<string, Size> | ctes.Keys == visible
        ensures KeptIn(ctx, declared, spec, quals, name, alias, depth, m, db, ctes)
      {
        KeptWhereHarmless(ctx, visible, declared, spec, quals, name, alias, depth, m, db, ctes);
      }
    } else {
      InlinedReferenceLost(ctx, visible, declared, spec, quals, name, alias, depth, sub);
    }
  }

  lemma InlinedFrame<S>(ctx: Context<S>, declared: set<string>, name: Name, alias: Option<string>, depth: nat)
    requires !IsCte(declared, name) && Inlined(ctx, name)
    requires var sub := ctx.ephemerals[Resolved(ctx.env, name).id];
             AllStable(ctx.env, ctx.ephemerals.Keys, References({}, sub))
    ensures RewriteFactor(ctx, declared, Table(name, alias), depth)
         == Derived(ctx.ephemerals[Resolved(ctx.env, name).id], Qualifier(name, alias))
  {
    if depth > 0 {
      StableIsFixpoint(ctx, {}, declared, ctx.ephemerals[Resolved(ctx.env, name).id], depth - 1);
    }
  }

  lemma InlinedReferenceLost<S(!new)>(
    ctx: Context<S>, visible: set<string>, declared: set<string>, spec: S, quals: set<string>, name: Name,
    alias: Option<string>, depth: nat, sub: Query<S>)
    requires visible <= declared && !IsCte(declared, name) && Inlined(ctx, name)
    requires RewriteFactor(ctx, declared, Table(name, alias), depth) == Derived(sub, Qualifier(name, alias))
    requires sub == ctx.ephemerals[Resolved(ctx.env, name).id] && !(LiveNames(sub) !! visible)
    ensures !Kept(ctx, visible, declared, spec, quals, name, alias, depth)
  {
    var n :| n in LiveNames(sub) && n in visible;
    var db := Constant(0);
    var alone := Eval(Sizes(), sub, db, map[], ());
    var ctes := AllOf(visible, alone.n + 1);
    if Kept(ctx, visible, declared, spec, quals, name, alias, depth) {
      KeptHere(ctx, visible, declared, spec, quals, name, alias, depth, Sizes(), db, ctes);
      SizeOfOne(spec, CompiledFrame(ctx, declared, quals, name, alias, depth, Sizes(), db, ctes));
      SizeOfOne(spec, OriginalFrame(ctx, quals, name, alias, Sizes(), db, ctes));
      LiveCounts(sub, db, ctes, n, alone.n + 1);
      assert false;
    }
  }

  /** What keeps a reference over tables that are numbers keeps it over tables of any kind. */
  lemma KeptOverAnything<S(!new), T, C>(
    ctx: Context<S>, visible: set<string>, declared: set<string>, spec: S, quals: set<string>, name: Name,
    alias: Option<string>, depth: nat, m: Interp<S, T, C>, db: Name -> T, ctes: map<string, T>)
    requires visible <= declared && IsRelationName(name) && ctes.Keys == visible
    requires SettledIfInlined(ctx, declared, name)
    requires Kept(ctx, visible, declared, spec, quals, name, alias, depth)
    ensures KeptIn(ctx, declared, spec, quals, name, alias, depth, m, db, ctes)
  {
    if IsCte(declared, name) {
      assert name == [name[0]];
      HiddenReferenceExactly(ctx, visible, declared, spec, quals, name[0], alias, depth);
    } else if Inlined(ctx, name) {
      InlinedReferenceExactly(ctx, visible, declared, spec, quals, name, alias, depth);
    } else {
      RenamedReferenceExactly(ctx, visible, declared, spec, quals, name, alias, depth);
    }
    KeptWhereHarmless(ctx, visible, declared, spec, quals, name, alias, depth, m, db, ctes);
  }

  // -- The smallest queries ---------------------------------------------------------------------------------

  /** A block that returns its first input. */
  function First<T>(default: T): Interp<(), T, ()> {
    Interp(
      (spec, frames, outer) => {},
      (spec, frames: seq<Frame<T>>, outer, nested) => if frames == [] then default else frames[0].table,
      (op, left, right) => left,
      name => default,
      ())
  }

  function SelectFactor(factor: TableFactor<()>): SetExpr<()> {
    Select((), {}, [factor], [])
  }

  function SelectFrom(name: Name): Query<()> {
    Query([], SelectFactor(Table(name, None)))
  }

  /** WITH x AS (SELECT FROM name) SELECT FROM factor. */
  function WithOne(x: string, name: Name, factor: TableFactor<()>): Query<()> {
    Query([Cte(x, SelectFrom(name))], SelectFactor(factor))
  }

  lemma RewriteSelect(ctx: Context<()>, declared: set<string>, factor: TableFactor<()>, depth: nat)
    ensures RewriteBody(ctx, declared, SelectFactor(factor), depth)
         == SelectFactor(RewriteFactor(ctx, declared, factor, depth))
  {
    assert [factor][1..] == [];
    assert RewriteFrom(ctx, declared, [factor][1..], depth) == [];
  }

  lemma RewriteWithOne(ctx: Context<()>, x: string, name: Name, factor: TableFactor<()>, depth: nat)
    requires RewriteFactor(ctx, {x}, Table(name, None), depth) == Table(name, None)
    ensures RewriteQuery(ctx, {}, WithOne(x, name, factor), depth)
         == WithOne(x, name, RewriteFactor(ctx, {x}, factor, depth))
  {
    var q := WithOne(x, name, factor);
    assert q.ctes[1..] == [] && {} + Names(q.ctes) == {x};
    RewriteSelect(ctx, {x}, Table(name, None), depth);
    RewriteSelect(ctx, {x}, factor, depth);
    assert {x} + Names<()>([]) == {x};
    assert RewriteQuery(ctx, {x}, SelectFrom(name), depth) == SelectFrom(name);
    assert RewriteCtes(ctx, {x}, q.ctes[1..], depth) == [];
  }

  lemma EvalSelect<T>(default: T, factor: TableFactor<()>, db: Name -> T, ctes: map<string, T>)
    ensures EvalBody(First(default), SelectFactor(factor), db, ctes, ())
         == EvalFactor(First(default), factor, db, ctes).table
  {
    var frames := EvalFrom(First(default), {}, [factor], db, ctes);
    assert frames[0] == Masked({}, EvalFactor(First(default), factor, db, ctes));
  }

  lemma EvalWithOne<T>(default: T, x: string, name: Name, factor: TableFactor<()>, db: Name -> T)
    ensures Eval(First(default), WithOne(x, name, factor), db, map[], ())
         == EvalFactor(First(default), factor, db, map[x := db(name)]).table
  {
    var q, none: map<string, T> := WithOne(x, name, factor), map[];
    var one := none[x := db(name)];
    assert one == map[x := db(name)];
    EvalSelect(default, Table(name, None), db, none);
    assert EvalCtes(First(default), [], db, none) == none;
    assert Eval(First(default), SelectFrom(name), db, none, ()) == db(name);
    assert q.ctes[1..] == [];
    assert EvalCtes(First(default), [], db, one) == one;
    assert EvalCtes(First(default), q.ctes, db, none) == one;
    EvalSelect(default, factor, db, one);
  }

  /** The database in which one relation alone differs from all others. */
  function Only(name: Name): Name -> bool {
    n => n == name
  }

  /**
   A WITH table named like the materialised model it reads hides the model: the
   compiled query reads the relation `x` instead of the model's target.
   */
  lemma OwnNameHidesModel(ctx: Context<()>, x: string, id: ModelId, depth: nat)
    requires IsRelationName([x]) && Resolved(ctx.env, [x]) == ToModel(id)
    requires id in ctx.env.targets && id !in ctx.ephemerals
    ensures var q := WithOne(x, [x], Table([x], None));
            && Eval(First(false), RewriteQuery(ctx, {}, q, depth), Only([x]), map[], ()) == true
            && Eval(First(false), q, Standing(First(false), ctx, Only([x])), map[], ()) == false
  {
    var factor := TableFactor<()>.Table([x], None);
    RewriteWithOne(ctx, x, [x], factor, depth);
    EvalWithOne(false, x, [x], factor, Only([x]));
    EvalWithOne(false, x, [x], factor, Standing(First(false), ctx, Only([x])));
  }

  /**
   Without a default catalog, an ephemeral model that reads a one-part source `s`
   and is inlined under a WITH table `s` reads that table instead of the source.
   */
  lemma InlinedSourceIsCaptured(env: Env, e: Name, id: ModelId, s: string, t: Name, depth: nat)
    requires IsRelationName(e) && Resolved(env, e) == ToModel(id) && e != [s] && t != [s]
    requires IsRelationName([s]) && IsRelationName(t) && Resolved(env, t) == External(SourceId(t)) && env.catalog.None?
    ensures var ctx, q := Context(env, map[id := SelectFrom([s])]), WithOne(s, t, Table(e, None));
            && Eval(First(false), RewriteQuery(ctx, {}, q, depth), Only(t), map[], ()) == true
            && Eval(First(false), q, Standing(First(false), ctx, Only(t)), map[], ()) == false
  {
    var ctx, factor := Context(env, map[id := SelectFrom([s])]), TableFactor<()>.Table(e, None);
    var base := Standing(First(false), ctx, Only(t));
    var inlined := InlineUnderWith(ctx, id, s, e, depth);
    RewriteWithOne(ctx, s, t, factor, depth);
    EvalWithOne(false, s, t, inlined, Only(t));
    EvalSource(false, s, Only(t), map[s := true]);
    EvalWithOne(false, s, t, factor, base);
    EvalSource(false, s, Only(t), map[]);
  }

  lemma InlineUnderWith(ctx: Context<()>, id: ModelId, s: string, e: Name, depth: nat)
    returns (inlined: TableFactor<()>)
    requires IsRelationName(e) && Resolved(ctx.env, e) == ToModel(id) && e != [s]
    requires ctx.ephemerals == map[id := SelectFrom([s])]
    ensures inlined.Derived? && inlined.query == SelectFrom([s])
    ensures RewriteFactor(ctx, {s}, Table(e, None), depth) == inlined
  {
    if depth > 0 {
      assert {s} + Names<()>([]) == {s};
      RewriteSelect(ctx, {s}, Table([s], None), depth - 1);
    }
    inlined := Derived(SelectFrom([s]), Some(e[|e| - 1]));
  }

  lemma EvalSource<T>(default: T, s: string, db: Name -> T, ctes: map<string, T>)
    ensures Eval(First(default), SelectFrom([s]), db, ctes, ()) == if s in ctes then ctes[s] else db([s])
  {
    assert EvalCtes(First(default), [], db, ctes) == ctes;
    EvalSelect(default, Table([s], None), db, ctes);
  }

  /** Every name a model reads from outside resolves to one thing. */
  ghost predicate Unambiguous<S>(w: Workspace<S>, id: ModelId)
    requires id in w.models
  {
    && (forall name :: name in ReferencesOf(w.models[id].statements) ==>
          IsRelationName(name) && !Resolved(EnvFor(w, id), name).Ambiguous?)
    && (SingleQuery(w.models[id]) ==>
          forall n :: n in FreeNames(QueryOf(w, id)) ==> !Resolved(EnvFor(w, id), [n]).Ambiguous?)
  }

  lemma CatalogQualifies<S>(w: Workspace<S>, id: ModelId, name: Name)
    requires w.catalog.Some? && Registered(w) && id in w.models
    requires IsRelationName(name) && !Resolved(EnvFor(w, id), name).Ambiguous?
    ensures |Physical(EnvFor(w, id), name)| >= 2
  {
    ResolvesToKnown(w.entries, EntryFor(id, w.models[id]), name);
    if ToModelName(w, id, name) {
      ResolvedIsModel(w, id, name);
    }
  }

  lemma CatalogLeavesNothing<S>(w: Workspace<S>, id: ModelId)
    requires w.catalog.Some? && Registered(w) && id in w.models && Unambiguous(w, id)
    ensures OwnSimple(w, id) == {""}
  {
    forall n | n in OwnSimple(w, id) ensures n == "" {
      if n != "" {
        if name :| name in ReferencesOf(w.models[id].statements) && !ToModelName(w, id, name)
                   && |Physical(EnvFor(w, id), name)| == 1 && Physical(EnvFor(w, id), name)[0] == n {
          CatalogQualifies(w, id, name);
        } else {
          CatalogQualifies(w, id, [n]);
        }
        assert false;
      }
    }
  }

  /** With a default catalog every physical name has several parts, so no WITH name can capture one. */
  lemma CatalogPreventsCapture<S>(w: Workspace<S>, id: ModelId)
    requires w.catalog.Some? && Registered(w) && InlinedGraph(w).Closed() && id in w.models
    requires forall m :: m in w.models ==> Unambiguous(w, m)
    ensures FreeOf(w, id) == {""}
  {
    FreeOfOwn(w, id);
    CatalogLeavesNothing(w, id);
    assert "" in FreeOf(w, id);
    forall n | n in FreeOf(w, id) ensures n == "" {
      var m :| m in w.models && Reaches(InlinedGraph(w), id, m) && n in OwnSimple(w, m);
      CatalogLeavesNothing(w, m);
    }
  }
}
