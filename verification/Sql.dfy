/**
 A relational syntax tree and its meaning.

 The tree keeps what compilation acts on: relation references, derived tables,
 WITH scopes and set operations. What a SELECT block does with its inputs (its
 projection, joins, filters, grouping, ordering, limits) is a specification
 `S` whose meaning an `Interp` supplies, so that results about compilation hold
 for every meaning of the blocks.
 */
module Sql {
  import opened Wrappers

  /** A possibly qualified relation name. */
  type Name = seq<string>

  datatype SetOp = UnionAll | Union | Except | Intersect

  datatype Query<S> = Query(ctes: seq<Cte<S>>, body: SetExpr<S>)

  datatype Cte<S> = Cte(name: string, query: Query<S>)

  /**
   `quals` are the relation qualifiers, in lower case, by which the block's own
   expressions or those of its correlated subqueries can tell its inputs apart.
   */
  datatype SetExpr<S> =
    | Select(spec: S, quals: set<string>, from: seq<TableFactor<S>>, subqueries: seq<Query<S>>)
    | Nested(query: Query<S>)
    | SetOperation(op: SetOp, left: SetExpr<S>, right: SetExpr<S>)

  datatype TableFactor<S> =
    | Table(name: Name, alias: Option<string>)
    | TableFunction(name: Name, alias: Option<string>)
    | Derived(query: Query<S>, alias: Option<string>)

  /** An input of a block: its rows and the qualifier they can be addressed by. */
  datatype Frame<T> = Frame(qualifier: Option<string>, table: T)

  /**
   What blocks, set operations and table functions mean. A block first says in
   which row contexts `C` its subqueries run; it then gets their results per
   context. `top` is the context of a query that is nobody's subquery.
   */
  datatype Interp<!S, !T, !C(==)> = Interp(
    contexts: (S, seq<Frame<T>>, C) -> set<C>,
    select: (S, seq<Frame<T>>, C, map<C, seq<T>>) -> T,
    combine: (SetOp, T, T) -> T,
    tableFunction: Name -> T,
    top: C)

  // -- Names --------------------------------------------------------------------

  function LowerChar(c: char): char {
    if 'A' <= c <= 'Z' then c - 'A' + 'a' else c
  }

  function Lower(text: string): (r: string)
    ensures |r| == |text|
    ensures forall i :: 0 <= i < |text| ==> r[i] == LowerChar(text[i])
  {
    if text == "" then "" else [LowerChar(text[0])] + Lower(text[1..])
  }

  /** A name the compiler can resolve: no part is missing. */
  predicate IsRelationName(name: Name) {
    name != [] && "" !in name
  }

  /** The qualifier a relation reference goes by: its alias, else its last part. */
  function Qualifier(name: Name, alias: Option<string>): Option<string> {
    if alias.Some? then alias
    else if name == [] then None
    else Some(name[|name| - 1])
  }

  function CteNames<S>(ctes: seq<Cte<S>>): (names: seq<string>)
    ensures |names| == |ctes|
  {
    if ctes == [] then [] else [ctes[0].name] + CteNames(ctes[1..])
  }

  function Names<S>(ctes: seq<Cte<S>>): set<string> {
    set n | n in CteNames(ctes)
  }

  // -- Evaluation -----------------------------------------------------------------

  /** A block cannot tell apart qualifiers it never mentions. */
  function Masked<T>(quals: set<string>, frame: Frame<T>): Frame<T> {
    if frame.qualifier.Some? && Lower(frame.qualifier.value) in quals then frame else frame.(qualifier := None)
  }

  /** `base` gives the relations outside the query, `ctes` the WITH tables in scope. */
  ghost function Eval<S, T, C>(
    meaning: Interp<S, T, C>, q: Query<S>, base: Name -> T, ctes: map<string, T>, outer: C): T
    decreases q, 1
  {
    EvalBody(meaning, q.body, base, EvalCtes(meaning, q.ctes, base, ctes), outer)
  }

  /** Each WITH query sees the ones before it, and runs without an outer row. */
  ghost function EvalCtes<S, T, C>(
    meaning: Interp<S, T, C>, added: seq<Cte<S>>, base: Name -> T, ctes: map<string, T>): (r: map<string, T>)
    ensures r.Keys == ctes.Keys + Names(added)
    decreases added, 0
  {
    if added == [] then ctes
    else
      var table := Eval(meaning, added[0].query, base, ctes, meaning.top);
      EvalCtes(meaning, added[1..], base, ctes[added[0].name := table])
  }

  ghost function EvalBody<S, T, C>(
    meaning: Interp<S, T, C>, body: SetExpr<S>, base: Name -> T, ctes: map<string, T>, outer: C): T
    decreases body, 0
  {
    match body
    case Select(spec, quals, from, subqueries) =>
      var frames := EvalFrom(meaning, quals, from, base, ctes);
      var contexts := meaning.contexts(spec, frames, outer);
      meaning.select(spec, frames, outer, EvalPerContext(meaning, subqueries, base, ctes, contexts))
    case Nested(query) => Eval(meaning, query, base, ctes, outer)
    case SetOperation(op, left, right) =>
      meaning.combine(
        op, EvalBody(meaning, left, base, ctes, outer), EvalBody(meaning, right, base, ctes, outer))
  }

  /** The results of a block's subqueries in each of its row contexts. */
  ghost function EvalPerContext<S, T, C>(
    meaning: Interp<S, T, C>, queries: seq<Query<S>>, base: Name -> T, ctes: map<string, T>, contexts: set<C>)
    : map<C, seq<T>>
    decreases queries, 1
  {
    map c | c in contexts :: EvalAll(meaning, queries, base, ctes, c)
  }

  ghost function EvalAll<S, T, C>(
    meaning: Interp<S, T, C>, queries: seq<Query<S>>, base: Name -> T, ctes: map<string, T>, outer: C): (r: seq<T>)
    ensures |r| == |queries|
    decreases queries, 0
  {
    if queries == [] then []
    else [Eval(meaning, queries[0], base, ctes, outer)] + EvalAll(meaning, queries[1..], base, ctes, outer)
  }

  ghost function EvalFrom<S, T, C>(
    meaning: Interp<S, T, C>, quals: set<string>, from: seq<TableFactor<S>>, base: Name -> T, ctes: map<string, T>)
    : (r: seq<Frame<T>>)
    ensures |r| == |from|
    decreases from, 0
  {
    if from == [] then []
    else
      [Masked(quals, EvalFactor(meaning, from[0], base, ctes))]
      + EvalFrom(meaning, quals, from[1..], base, ctes)
  }

  /** A simple name means the WITH table of that name, if one is in scope. */
  ghost function EvalFactor<S, T, C>(
    meaning: Interp<S, T, C>, factor: TableFactor<S>, base: Name -> T, ctes: map<string, T>): Frame<T>
    decreases factor, 0
  {
    match factor
    case Table(name, alias) =>
      Frame(Qualifier(name, alias), if |name| == 1 && name[0] in ctes then ctes[name[0]] else base(name))
    case TableFunction(name, alias) => Frame(Qualifier(name, alias), meaning.tableFunction(name))
    case Derived(query, alias) => Frame(alias, Eval(meaning, query, base, ctes, meaning.top))
  }
}
