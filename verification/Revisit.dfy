/**
 When the visits of inlined queries come to an end
 (crates/phlo-transform-core/src/rewrite.rs).

 A replaced reference is visited again, and nothing in the source bounds how
 deep that goes. It ends exactly when no inlined query leads back to itself
 under the same WITH names; then some bound is never met, and from it on the
 bound makes no difference to the result.
 */
module Revisit {
  import opened Wrappers
  import opened Collections
  import opened Identity
  import opened Sql
  import opened Resolve
  import opened Rewrite

  // -- A bound that is never met makes no difference ---------------------------------------------

  lemma {:induction false} StopsBelow<S>(ctx: Context<S>, points: set<Point>, depth: nat, more: nat)
    requires AllStop(ctx, points, depth) && depth <= more
    ensures AllStop(ctx, points, more)
    decreases depth
  {
    forall p | p in points ensures StopsAt(ctx, p, more) {
      assert StopsAt(ctx, p, depth);
      if p.id in ctx.ephemerals {
        StopsBelow(ctx, Points(ctx, p.declared, ctx.ephemerals[p.id]), depth - 1, more - 1);
      }
    }
  }

  /** Visits that stay above the bound give the same query under any larger one. */
  lemma {:induction false} DepthIsEnough<S>(
    ctx: Context<S>, declared: set<string>, q: Query<S>, depth: nat, more: nat)
    requires Stops(ctx, declared, q, depth) && depth <= more
    ensures RewriteQuery(ctx, declared, q, more) == RewriteQuery(ctx, declared, q, depth)
    ensures Stops(ctx, declared, q, more)
    decreases depth, q, 1
  {
    StopsBelow(ctx, Points(ctx, declared, q), depth, more);
    var inside := declared + Names(q.ctes);
    AllStopUnion(ctx, PointsInCtes(ctx, inside, q.ctes), PointsInBody(ctx, inside, q.body), depth);
    CtesEnough(ctx, inside, q.ctes, depth, more);
    BodyEnough(ctx, inside, q.body, depth, more);
  }

  lemma {:induction false} CtesEnough<S>(
    ctx: Context<S>, declared: set<string>, ctes: seq<Cte<S>>, depth: nat, more: nat)
    requires AllStop(ctx, PointsInCtes(ctx, declared, ctes), depth) && depth <= more
    ensures RewriteCtes(ctx, declared, ctes, more) == RewriteCtes(ctx, declared, ctes, depth)
    decreases depth, ctes, 0
  {
    if ctes != [] {
      AllStopUnion(ctx, Points(ctx, declared, ctes[0].query), PointsInCtes(ctx, declared, ctes[1..]), depth);
      DepthIsEnough(ctx, declared, ctes[0].query, depth, more);
      CtesEnough(ctx, declared, ctes[1..], depth, more);
    }
  }

  lemma {:induction false} BodyEnough<S>(
    ctx: Context<S>, declared: set<string>, body: SetExpr<S>, depth: nat, more: nat)
    requires AllStop(ctx, PointsInBody(ctx, declared, body), depth) && depth <= more
    ensures RewriteBody(ctx, declared, body, more) == RewriteBody(ctx, declared, body, depth)
    decreases depth, body, 0
  {
    match body
    case Select(_, _, from, subqueries) =>
      AllStopUnion(ctx, PointsInFrom(ctx, declared, from), PointsInAll(ctx, declared, subqueries), depth);
      FromEnough(ctx, declared, from, depth, more);
      AllEnough(ctx, declared, subqueries, depth, more);
    case Nested(query) =>
      DepthIsEnough(ctx, declared, query, depth, more);
    case SetOperation(_, left, right) =>
      AllStopUnion(ctx, PointsInBody(ctx, declared, left), PointsInBody(ctx, declared, right), depth);
      BodyEnough(ctx, declared, left, depth, more);
      BodyEnough(ctx, declared, right, depth, more);
  }

  lemma {:induction false} AllEnough<S>(
    ctx: Context<S>, declared: set<string>, queries: seq<Query<S>>, depth: nat, more: nat)
    requires AllStop(ctx, PointsInAll(ctx, declared, queries), depth) && depth <= more
    ensures RewriteAll(ctx, declared, queries, more) == RewriteAll(ctx, declared, queries, depth)
    decreases depth, queries, 0
  {
    if queries != [] {
      AllStopUnion(ctx, Points(ctx, declared, queries[0]), PointsInAll(ctx, declared, queries[1..]), depth);
      DepthIsEnough(ctx, declared, queries[0], depth, more);
      AllEnough(ctx, declared, queries[1..], depth, more);
    }
  }

  lemma {:induction false} FromEnough<S>(
    ctx: Context<S>, declared: set<string>, from: seq<TableFactor<S>>, depth: nat, more: nat)
    requires AllStop(ctx, PointsInFrom(ctx, declared, from), depth) && depth <= more
    ensures RewriteFrom(ctx, declared, from, more) == RewriteFrom(ctx, declared, from, depth)
    decreases depth, from, 0
  {
    if from != [] {
      AllStopUnion(ctx, PointsInFactor(ctx, declared, from[0]), PointsInFrom(ctx, declared, from[1..]), depth);
      FactorEnough(ctx, declared, from[0], depth, more);
      FromEnough(ctx, declared, from[1..], depth, more);
    }
  }

  lemma SameInlined<S>(
    ctx: Context<S>, declared: set<string>, name: Name, alias: Option<string>, depth: nat, inner: Query<S>)
    requires !IsCte(declared, name) && Inlined(ctx, name) && depth > 0
    requires inner == RewriteQuery(ctx, declared, ctx.ephemerals[Resolved(ctx.env, name).id], depth - 1)
    ensures RewriteFactor(ctx, declared, Table(name, alias), depth) == Derived(inner, Qualifier(name, alias))
  {
  }

  lemma SameRenamed<S>(
    ctx: Context<S>, declared: set<string>, name: Name, alias: Option<string>, depth: nat, more: nat)
    requires IsCte(declared, name) || !Inlined(ctx, name)
    ensures RewriteFactor(ctx, declared, Table(name, alias), more)
         == RewriteFactor(ctx, declared, Table(name, alias), depth)
  {
  }

  lemma {:induction false} FactorEnough<S>(
    ctx: Context<S>, declared: set<string>, factor: TableFactor<S>, depth: nat, more: nat)
    requires AllStop(ctx, PointsInFactor(ctx, declared, factor), depth) && depth <= more
    ensures RewriteFactor(ctx, declared, factor, more) == RewriteFactor(ctx, declared, factor, depth)
    decreases depth, factor, 1
  {
    match factor
    case Table(name, alias) =>
      TableStopsExactly(ctx, declared, factor, depth);
      if !IsCte(declared, name) && Inlined(ctx, name) {
        var sub := ctx.ephemerals[Resolved(ctx.env, name).id];
        var inner := RewriteQuery(ctx, declared, sub, depth - 1);
        DepthIsEnough(ctx, declared, sub, depth - 1, more - 1);
        SameInlined(ctx, declared, name, alias, depth, inner);
        SameInlined(ctx, declared, name, alias, more, inner);
      } else {
        SameRenamed(ctx, declared, name, alias, depth, more);
      }
    case TableFunction(_, _) =>
    case Derived(query, _) =>
      DepthIsEnough(ctx, declared, query, depth, more);
  }

  // -- Chains of visits ------------------------------------------------------------------------------

  /** Each visit is made from inside the one before it. */
  predicate IsChain<S>(ctx: Context<S>, from: set<Point>, chain: seq<Point>)
    decreases |chain|
  {
    chain != [] ==> chain[0] in from && IsChain(ctx, Inside(ctx, chain[0]), chain[1..])
  }

  /** The visits made from inside a visit. */
  function Inside<S>(ctx: Context<S>, p: Point): set<Point> {
    if p.id in ctx.ephemerals then Points(ctx, p.declared, ctx.ephemerals[p.id]) else {}
  }

  lemma {:induction false} StoppingBoundsChains<S>(ctx: Context<S>, from: set<Point>, chain: seq<Point>, depth: nat)
    requires AllStop(ctx, from, depth) && IsChain(ctx, from, chain)
    ensures |chain| <= depth
    decreases depth
  {
    if chain != [] {
      assert StopsAt(ctx, chain[0], depth);
      if chain[0].id in ctx.ephemerals {
        StoppingBoundsChains(ctx, Inside(ctx, chain[0]), chain[1..], depth - 1);
      }
    }
  }

  lemma {:induction false} CutHasChain<S>(ctx: Context<S>, from: set<Point>, depth: nat) returns (chain: seq<Point>)
    requires !AllStop(ctx, from, depth)
    ensures IsChain(ctx, from, chain) && |chain| == depth + 1
    decreases depth
  {
    var p :| p in from && !StopsAt(ctx, p, depth);
    if depth == 0 {
      chain := [p];
    } else {
      var rest := CutHasChain(ctx, Inside(ctx, p), depth - 1);
      chain := [p] + rest;
      assert chain[1..] == rest;
    }
  }

  lemma {:induction false} ChainSplits<S>(ctx: Context<S>, from: set<Point>, a: seq<Point>, b: seq<Point>)
    requires a != []
    ensures IsChain(ctx, from, a + b) <==> IsChain(ctx, from, a) && IsChain(ctx, Inside(ctx, a[|a| - 1]), b)
    decreases |a|
  {
    assert (a + b)[1..] == a[1..] + b;
    if |a| > 1 {
      ChainSplits(ctx, Inside(ctx, a[0]), a[1..], b);
    } else {
      assert a[1..] + b == b;
    }
  }

  /** A chain that comes back to a visit can go round again. */
  lemma {:induction false} ChainGoesRound<S>(
    ctx: Context<S>, from: set<Point>, chain: seq<Point>, i: nat, j: nat, length: nat) returns (longer: seq<Point>)
    requires IsChain(ctx, from, chain) && i < j < |chain| && chain[i] == chain[j]
    ensures IsChain(ctx, from, longer) && |longer| >= length
    decreases length - |chain|
  {
    if |chain| >= length {
      longer := chain;
    } else {
      var upTo, again := chain[..j + 1], chain[i + 1..];
      assert chain == chain[..i + 1] + again && chain == upTo + chain[j + 1..];
      ChainSplits(ctx, from, chain[..i + 1], again);
      ChainSplits(ctx, from, upTo, chain[j + 1..]);
      ChainSplits(ctx, from, upTo, again);
      longer := ChainGoesRound(ctx, from, upTo + again, i, j, length);
    }
  }

  // -- There are finitely many visits ---------------------------------------------------------------------

  /** Every WITH name in a query. */
  function WithNames<S>(q: Query<S>): set<string>
    decreases q, 1
  {
    Names(q.ctes) + WithNamesInCtes(q.ctes) + WithNamesInBody(q.body)
  }

  function WithNamesInCtes<S>(ctes: seq<Cte<S>>): set<string>
    decreases ctes, 0
  {
    if ctes == [] then {} else WithNames(ctes[0].query) + WithNamesInCtes(ctes[1..])
  }

  function WithNamesInBody<S>(body: SetExpr<S>): set<string>
    decreases body, 0
  {
    match body
    case Select(_, _, from, subqueries) => WithNamesInFrom(from) + WithNamesInAll(subqueries)
    case Nested(query) => WithNames(query)
    case SetOperation(_, left, right) => WithNamesInBody(left) + WithNamesInBody(right)
  }

  function WithNamesInAll<S>(queries: seq<Query<S>>): set<string>
    decreases queries, 0
  {
    if queries == [] then {} else WithNames(queries[0]) + WithNamesInAll(queries[1..])
  }

  function WithNamesInFrom<S>(from: seq<TableFactor<S>>): set<string>
    decreases from, 0
  {
    if from == [] then {} else WithNamesInFactor(from[0]) + WithNamesInFrom(from[1..])
  }

  function WithNamesInFactor<S>(factor: TableFactor<S>): set<string>
    decreases factor, 0
  {
    match factor
    case Table(_, _) => {}
    case TableFunction(_, _) => {}
    case Derived(query, _) => WithNames(query)
  }

  ghost predicate PointsWithin<S>(ctx: Context<S>, points: set<Point>, names: set<string>) {
    forall p :: p in points ==> p.declared <= names && p.id in ctx.ephemerals
  }

  lemma {:induction false} PointsAreWithin<S>(ctx: Context<S>, declared: set<string>, q: Query<S>, names: set<string>)
    requires declared + WithNames(q) <= names
    ensures PointsWithin(ctx, Points(ctx, declared, q), names)
    decreases q, 1
  {
    CtesAreWithin(ctx, declared + Names(q.ctes), q.ctes, names);
    BodyIsWithin(ctx, declared + Names(q.ctes), q.body, names);
  }

  lemma {:induction false} CtesAreWithin<S>(
    ctx: Context<S>, declared: set<string>, ctes: seq<Cte<S>>, names: set<string>)
    requires declared + WithNamesInCtes(ctes) <= names
    ensures PointsWithin(ctx, PointsInCtes(ctx, declared, ctes), names)
    decreases ctes, 0
  {
    if ctes != [] {
      PointsAreWithin(ctx, declared, ctes[0].query, names);
      CtesAreWithin(ctx, declared, ctes[1..], names);
    }
  }

  lemma {:induction false} BodyIsWithin<S>(ctx: Context<S>, declared: set<string>, body: SetExpr<S>, names: set<string>)
    requires declared + WithNamesInBody(body) <= names
    ensures PointsWithin(ctx, PointsInBody(ctx, declared, body), names)
    decreases body, 0
  {
    match body
    case Select(_, _, from, subqueries) =>
      FromIsWithin(ctx, declared, from, names);
      AllAreWithin(ctx, declared, subqueries, names);
    case Nested(query) =>
      PointsAreWithin(ctx, declared, query, names);
    case SetOperation(_, left, right) =>
      BodyIsWithin(ctx, declared, left, names);
      BodyIsWithin(ctx, declared, right, names);
  }

  lemma {:induction false} AllAreWithin<S>(
    ctx: Context<S>, declared: set<string>, queries: seq<Query<S>>, names: set<string>)
    requires declared + WithNamesInAll(queries) <= names
    ensures PointsWithin(ctx, PointsInAll(ctx, declared, queries), names)
    decreases queries, 0
  {
    if queries != [] {
      PointsAreWithin(ctx, declared, queries[0], names);
      AllAreWithin(ctx, declared, queries[1..], names);
    }
  }

  lemma {:induction false} FromIsWithin<S>(
    ctx: Context<S>, declared: set<string>, from: seq<TableFactor<S>>, names: set<string>)
    requires declared + WithNamesInFrom(from) <= names
    ensures PointsWithin(ctx, PointsInFrom(ctx, declared, from), names)
    decreases from, 0
  {
    if from != [] {
      FactorIsWithin(ctx, declared, from[0], names);
      FromIsWithin(ctx, declared, from[1..], names);
    }
  }

  lemma {:induction false} FactorIsWithin<S>(
    ctx: Context<S>, declared: set<string>, factor: TableFactor<S>, names: set<string>)
    requires declared + WithNamesInFactor(factor) <= names
    ensures PointsWithin(ctx, PointsInFactor(ctx, declared, factor), names)
    decreases factor, 0
  {
    if factor.Derived? {
      PointsAreWithin(ctx, declared, factor.query, names);
    }
  }

  /** Every WITH name a visit can be made under. */
  function AllNames<S>(ctx: Context<S>, declared: set<string>, q: Query<S>): set<string> {
    declared + WithNames(q) + set id, n | id in ctx.ephemerals && n in WithNames(ctx.ephemerals[id]) :: n
  }

  function AllPoints<S>(ctx: Context<S>, names: set<string>): set<Point> {
    set d: set<string>, id | d <= names && id in ctx.ephemerals :: Point(d, id)
  }

  lemma {:induction false} ChainIsWithin<S>(ctx: Context<S>, from: set<Point>, chain: seq<Point>, names: set<string>)
    requires PointsWithin(ctx, from, names) && IsChain(ctx, from, chain)
    requires forall id :: id in ctx.ephemerals ==> WithNames(ctx.ephemerals[id]) <= names
    ensures Elements(chain) <= AllPoints(ctx, names)
    decreases |chain|
  {
    if chain != [] {
      var p := chain[0];
      PointsAreWithin(ctx, p.declared, ctx.ephemerals[p.id], names);
      ChainIsWithin(ctx, Inside(ctx, p), chain[1..], names);
      assert Elements(chain) == {p} + Elements(chain[1..]);
    }
  }

  // -- Exactly when the visits end --------------------------------------------------------------------------

  /** Some inlined query is visited again from inside its own visit, under the same WITH names. */
  ghost predicate ComesBack<S>(ctx: Context<S>, declared: set<string>, q: Query<S>) {
    exists chain :: IsChain(ctx, Points(ctx, declared, q), chain) && !Distinct(chain)
  }

  lemma ReturnNeverStops<S>(ctx: Context<S>, from: set<Point>, chain: seq<Point>, depth: nat)
    requires IsChain(ctx, from, chain) && !Distinct(chain)
    ensures !AllStop(ctx, from, depth)
  {
    var i, j :| 0 <= i < j < |chain| && chain[i] == chain[j];
    var longer := ChainGoesRound(ctx, from, chain, i, j, depth + 1);
    if AllStop(ctx, from, depth) {
      StoppingBoundsChains(ctx, from, longer, depth);
    }
  }

  lemma NoReturnStops<S>(ctx: Context<S>, declared: set<string>, q: Query<S>)
    requires !ComesBack(ctx, declared, q)
    ensures Stops(ctx, declared, q, |AllPoints(ctx, AllNames(ctx, declared, q))|)
  {
    var names := AllNames(ctx, declared, q);
    var bound := |AllPoints(ctx, names)|;
    if !Stops(ctx, declared, q, bound) {
      var chain := CutHasChain(ctx, Points(ctx, declared, q), bound);
      assert Distinct(chain);
      PointsAreWithin(ctx, declared, q, names);
      forall id | id in ctx.ephemerals ensures WithNames(ctx.ephemerals[id]) <= names {
      }
      ChainIsWithin(ctx, Points(ctx, declared, q), chain, names);
      DistinctSize(chain);
      SubsetSize(Elements(chain), AllPoints(ctx, names));
    }
  }

  /** The visits of a query come to an end if and only if no inlined query comes back to itself. */
  lemma VisitsEndExactly<S>(ctx: Context<S>, declared: set<string>, q: Query<S>)
    ensures (exists depth: nat :: Stops(ctx, declared, q, depth)) <==> !ComesBack(ctx, declared, q)
  {
    if !ComesBack(ctx, declared, q) {
      NoReturnStops(ctx, declared, q);
    } else {
      var chain :| IsChain(ctx, Points(ctx, declared, q), chain) && !Distinct(chain);
      forall depth: nat ensures !Stops(ctx, declared, q, depth) {
        ReturnNeverStops(ctx, Points(ctx, declared, q), chain, depth);
      }
    }
  }
}
