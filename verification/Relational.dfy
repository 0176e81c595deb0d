/**
 What the analysed fragment of SQL means: tables whose rows have identities,
 scalar expressions, and blocks that join, filter and project.

 Scalar operators are those of some `Engine`; nothing is assumed about them
 here. Row identities make it possible to say that a row of one result is "the
 same row" as one of another.
 */
module Relational {
  import opened Wrappers
  import opened Sql

  datatype Value = Null | Bool(b: bool) | Num(n: int) | Text(text: string)

  type Row = seq<Value>

  /** A base row's key; a combination of input rows; a row of a union; a distinct row. */
  datatype RowId =
    | Key(key: int)
    | Combined(combo: seq<Option<RowId>>)
    | FromLeft(id: RowId)
    | FromRight(id: RowId)
    | Distinct(row: Row)

  datatype Extent = Extent(header: seq<string>, rows: map<RowId, Row>)

  ghost predicate Rectangular(extent: Extent) {
    forall id :: id in extent.rows ==> |extent.rows[id]| == |extent.header|
  }

  // -- Syntax of blocks ----------------------------------------------------------------------

  datatype UnaryOp = Not | Minus | Plus | OtherUnary(name: string)

  datatype BinaryOp =
    | Add | Subtract | Multiply | Modulo | Divide | Concat
    | Gt | Lt | GtEq | LtEq | Eq | NotEq | And | Or | Xor
    | OtherBinary(name: string)

  datatype Expr =
    | Col(qualifier: Option<string>, name: string)
    | Literal(value: Value)
    | Parens(inner: Expr)
    | Cast(attempt: bool, target: string, inner: Expr)
    | Unary(op: UnaryOp, inner: Expr)
    | Binary(bop: BinaryOp, left: Expr, right: Expr)
    | Test(test: string, inner: Expr) // IS [NOT] NULL, TRUE, FALSE, UNKNOWN
    | Match(match_: string, args: seq<Expr>) // IN lists, BETWEEN, LIKE and its kin
    // at most one operand, at most one ELSE
    | Case(operand: seq<Expr>, conditions: seq<Expr>, results: seq<Expr>, otherwise: seq<Expr>)
    | Call(function_: string, args: seq<Expr>)
    | Extraction(part: string, args: seq<Expr>) // EXTRACT, SUBSTRING, TRIM
    | Rounded(down: bool, inner: Expr) // CEIL, FLOOR
    | Unanalysed(id: nat) // subqueries, tuples, arrays and whatever else is not looked into

  datatype JoinKind = Comma | Cross | Inner | LeftOuter | RightOuter | FullOuter

  datatype Join = Join(kind: JoinKind, on: Option<Expr>)

  datatype Item = Selected(expr: Expr, alias: Option<string>) | Wildcard | QualifiedWildcard(qualifier: string)

  /** `joins[k]` says how the block's `k`th relation is joined to those before it. */
  datatype Block =
    | Block(joins: seq<Join>, selection: Option<Expr>, projection: seq<Item>)
    | Rows(rows: seq<seq<Expr>>)

  // -- Column references ------------------------------------------------------------------------

  /** A relation's qualifier and column names. */
  datatype Heading = Heading(qualifier: Option<string>, names: seq<string>)

  predicate Qualifies(heading: Heading, qualifier: Option<string>) {
    qualifier.Some? ==> heading.qualifier.Some? && Lower(heading.qualifier.value) == Lower(qualifier.value)
  }

  /** The indexes from `j` on whose name is this one, whatever its case. */
  function NameIndexes(names: seq<string>, name: string, j: nat): (r: seq<nat>)
    requires j <= |names|
    ensures forall i :: 0 <= i < |r| ==> r[i] < |names|
    decreases |names| - j
  {
    if j == |names| then []
    else (if Lower(names[j]) == Lower(name) then [j] else []) + NameIndexes(names, name, j + 1)
  }

  /** Where a column reference can be found: relation and column, from relation `k` on. */
  function Positions(headings: seq<Heading>, qualifier: Option<string>, name: string, k: nat): (r: seq<(nat, nat)>)
    requires k <= |headings|
    ensures forall i :: 0 <= i < |r| ==> r[i].0 < |headings| && r[i].1 < |headings[r[i].0].names|
    decreases |headings| - k
  {
    if k == |headings| then []
    else
      (if Qualifies(headings[k], qualifier) then Paired(k, NameIndexes(headings[k].names, name, 0)) else [])
      + Positions(headings, qualifier, name, k + 1)
  }

  function Paired(k: nat, indexes: seq<nat>): (r: seq<(nat, nat)>)
    ensures |r| == |indexes| && forall i :: 0 <= i < |r| ==> r[i] == (k, indexes[i])
  {
    if indexes == [] then [] else [(k, indexes[0])] + Paired(k, indexes[1..])
  }

  // -- Expressions ----------------------------------------------------------------------------------

  /** A combination of rows, one for each relation in scope. */
  datatype Env = Env(headings: seq<Heading>, rows: seq<Row>)

  datatype Engine = Engine(
    unary: (UnaryOp, Value) -> Value,
    binary: (BinaryOp, Value, Value) -> Value,
    cast: (bool, string, Value) -> Value,
    test: (string, Value) -> bool,
    match_: (string, seq<Value>) -> Value,
    call: (string, seq<Value>) -> Value,
    extract: (string, seq<Value>) -> Value,
    round: (bool, Value) -> Value,
    unanalysed: (nat, Env, seq<Extent>) -> Value,
    tableFunction: Name -> Extent)

  /** A reference resolves in the innermost scope that knows the name, and there it must be unique. */
  function ColumnValue(qualifier: Option<string>, name: string, env: Env, outer: Env): Value {
    var here := Positions(env.headings, qualifier, name, 0);
    if |here| == 1 then At(env, here[0])
    else if |here| > 1 then Null
    else
      var there := Positions(outer.headings, qualifier, name, 0);
      if |there| == 1 then At(outer, there[0]) else Null
  }

  function At(env: Env, position: (nat, nat)): Value {
    if position.0 < |env.rows| && position.1 < |env.rows[position.0]|
    then env.rows[position.0][position.1] else Null
  }

  function EvalExpr(e: Engine, expr: Expr, env: Env, outer: Env, nested: seq<Extent>): Value
    decreases expr, 1
  {
    match expr
    case Col(qualifier, name) => ColumnValue(qualifier, name, env, outer)
    case Literal(value) => value
    case Parens(inner) => EvalExpr(e, inner, env, outer, nested)
    case Cast(attempt, target, inner) => e.cast(attempt, target, EvalExpr(e, inner, env, outer, nested))
    case Unary(op, inner) => e.unary(op, EvalExpr(e, inner, env, outer, nested))
    case Binary(op, left, right) =>
      e.binary(op, EvalExpr(e, left, env, outer, nested), EvalExpr(e, right, env, outer, nested))
    case Test(test, inner) => Bool(e.test(test, EvalExpr(e, inner, env, outer, nested)))
    case Match(kind, args) => e.match_(kind, EvalExprs(e, args, env, outer, nested))
    case Case(operand, conditions, results, otherwise) =>
      Chosen(
        e, EvalExprs(e, operand, env, outer, nested), EvalExprs(e, conditions, env, outer, nested),
        EvalExprs(e, results, env, outer, nested), EvalExprs(e, otherwise, env, outer, nested))
    case Call(name, args) => e.call(name, EvalExprs(e, args, env, outer, nested))
    case Extraction(part, args) => e.extract(part, EvalExprs(e, args, env, outer, nested))
    case Rounded(down, inner) => e.round(down, EvalExpr(e, inner, env, outer, nested))
    case Unanalysed(id) => e.unanalysed(id, env, nested)
  }

  function EvalExprs(e: Engine, exprs: seq<Expr>, env: Env, outer: Env, nested: seq<Extent>): (r: seq<Value>)
    ensures |r| == |exprs|
    decreases exprs, 0
  {
    if exprs == [] then []
    else [EvalExpr(e, exprs[0], env, outer, nested)] + EvalExprs(e, exprs[1..], env, outer, nested)
  }

  /** The first branch whose condition holds, or equals the operand; else the ELSE value, or NULL. */
  function Chosen(
    e: Engine, subject: seq<Value>, conditions: seq<Value>, results: seq<Value>, otherwise: seq<Value>): Value
  {
    if conditions == [] || results == [] then (if otherwise == [] then Null else otherwise[0])
    else
      var holds := if subject == [] then conditions[0] else e.binary(Eq, subject[0], conditions[0]);
      if holds == Bool(true) then results[0] else Chosen(e, subject, conditions[1..], results[1..], otherwise)
  }

  // -- Joins -----------------------------------------------------------------------------------------

  /** One row of each relation joined so far; `None` pads an outer join. */
  type Combo = seq<Option<RowId>>

  function HeadingOf(frame: Frame<Extent>): Heading {
    Heading(frame.qualifier, frame.table.header)
  }

  function Headings(frames: seq<Frame<Extent>>): (r: seq<Heading>)
    ensures |r| == |frames| && forall k :: 0 <= k < |frames| ==> r[k] == HeadingOf(frames[k])
  {
    if frames == [] then [] else [HeadingOf(frames[0])] + Headings(frames[1..])
  }

  function Nulls(n: nat): (r: Row)
    ensures |r| == n && forall i :: 0 <= i < n ==> r[i] == Null
  {
    if n == 0 then [] else [Null] + Nulls(n - 1)
  }

  function RowOf(frame: Frame<Extent>, id: Option<RowId>): Row {
    if id.Some? && id.value in frame.table.rows then frame.table.rows[id.value] else Nulls(|frame.table.header|)
  }

  function RowsOf(frames: seq<Frame<Extent>>, combo: Combo): (r: seq<Row>)
    ensures |r| == |frames|
    ensures forall k :: 0 <= k < |frames| ==> r[k] == RowOf(frames[k], if k < |combo| then combo[k] else None)
  {
    if frames == [] then []
    else if combo == [] then [RowOf(frames[0], None)] + RowsOf(frames[1..], [])
    else [RowOf(frames[0], combo[0])] + RowsOf(frames[1..], combo[1..])
  }

  function EnvOf(frames: seq<Frame<Extent>>, combo: Combo): Env {
    Env(Headings(frames), RowsOf(frames, combo))
  }

  /** The results of a block's subqueries for one combination of its rows. */
  function NestedFor(nested: map<Env, seq<Extent>>, env: Env): seq<Extent> {
    if env in nested then nested[env] else []
  }

  predicate Holds(
    e: Engine, condition: Option<Expr>, frames: seq<Frame<Extent>>, combo: Combo, outer: Env,
    nested: map<Env, seq<Extent>>)
  {
    condition.Some? ==>
      var env := EnvOf(frames, combo);
      EvalExpr(e, condition.value, env, outer, NestedFor(nested, env)) == Bool(true)
  }

  ghost function Matched(
    e: Engine, on: Option<Expr>, combos: set<Combo>, frames: seq<Frame<Extent>>, outer: Env,
    nested: map<Env, seq<Extent>>): set<Combo>
    requires frames != []
  {
    set c, id | c in combos && id in frames[|frames| - 1].table.rows
      && Holds(e, on, frames, c + [Some(id)], outer, nested) :: c + [Some(id)]
  }

  function Padding(n: nat): (r: Combo)
    ensures |r| == n && forall k :: 0 <= k < n ==> r[k] == None
  {
    if n == 0 then [] else [None] + Padding(n - 1)
  }

  /** The combinations after joining the last of `frames` to those before it. */
  ghost function JoinLast(
    e: Engine, join: Join, combos: set<Combo>, frames: seq<Frame<Extent>>, outer: Env, nested: map<Env, seq<Extent>>)
    : set<Combo>
    requires frames != []
  {
    var matched := Matched(e, join.on, combos, frames, outer, nested);
    var right := frames[|frames| - 1].table.rows.Keys;
    matched
    + (if join.kind.LeftOuter? || join.kind.FullOuter?
       then set c | c in combos && (forall id :: id in right ==> c + [Some(id)] !in matched) :: c + [None]
       else {})
    + (if join.kind.RightOuter? || join.kind.FullOuter?
       then set id | id in right && (forall c :: c in combos ==> c + [Some(id)] !in matched)
            :: Padding(|frames| - 1) + [Some(id)]
       else {})
  }

  function JoinAt(joins: seq<Join>, k: nat): Join {
    if k < |joins| then joins[k] else Join(Comma, None)
  }

  /**
   All items of FROM joined from left to right. SQL binds JOIN tighter than the
   comma, which matters for a RIGHT or FULL JOIN after a comma only: there the
   items before the comma are padded here, and are not in SQL.
   */
  ghost function Joined(
    e: Engine, joins: seq<Join>, frames: seq<Frame<Extent>>, outer: Env, nested: map<Env, seq<Extent>>): set<Combo>
  {
    if frames == [] then {[]}
    else
      var n := |frames| - 1;
      JoinLast(e, JoinAt(joins, n), Joined(e, joins, frames[..n], outer, nested), frames, outer, nested)
  }

  // -- Blocks ----------------------------------------------------------------------------------------

  function Digits(n: nat): string {
    if n < 10 then [('0' as int + n) as char] else Digits(n / 10) + Digits(n % 10)
  }

  /** The name of an output column that has none of its own. */
  function PositionName(position: nat): string {
    "column" + Digits(position)
  }

  function ExprName(expr: Expr): Option<string> {
    match expr
    case Col(_, name) => Some(name)
    case _ => None
  }

  function ItemName(item: Item, position: nat): string
    requires item.Selected?
  {
    item.alias.GetOr(ExprName(item.expr).GetOr(PositionName(position)))
  }

  function AllNames(headings: seq<Heading>, qualifier: Option<string>): seq<string> {
    if headings == [] then []
    else
      (if Qualifies(headings[0], qualifier) then headings[0].names else [])
      + AllNames(headings[1..], qualifier)
  }

  function AllValues(headings: seq<Heading>, rows: seq<Row>, qualifier: Option<string>): Row
    requires |headings| == |rows|
  {
    if headings == [] then []
    else
      (if Qualifies(headings[0], qualifier) then rows[0] else [])
      + AllValues(headings[1..], rows[1..], qualifier)
  }

  /** The names one projection item gives. */
  function ItemNames(item: Item, headings: seq<Heading>, position: nat): seq<string> {
    match item
    case Selected(_, _) => [ItemName(item, position)]
    case Wildcard => AllNames(headings, None)
    case QualifiedWildcard(qualifier) => AllNames(headings, Some(qualifier))
  }

  function OutputNames(items: seq<Item>, headings: seq<Heading>): seq<string> {
    if items == [] then []
    else
      var before := OutputNames(items[..|items| - 1], headings);
      before + ItemNames(items[|items| - 1], headings, |before|)
  }

  /** The values one projection item gives. */
  function ItemValues(e: Engine, item: Item, env: Env, outer: Env, nested: seq<Extent>): Row
    requires |env.headings| == |env.rows|
  {
    match item
    case Selected(expr, _) => [EvalExpr(e, expr, env, outer, nested)]
    case Wildcard => AllValues(env.headings, env.rows, None)
    case QualifiedWildcard(qualifier) => AllValues(env.headings, env.rows, Some(qualifier))
  }

  function OutputRow(e: Engine, items: seq<Item>, env: Env, outer: Env, nested: seq<Extent>): Row
    requires |env.headings| == |env.rows|
  {
    if items == [] then []
    else
      OutputRow(e, items[..|items| - 1], env, outer, nested)
      + ItemValues(e, items[|items| - 1], env, outer, nested)
  }

  ghost function KeptCombos(
    e: Engine, joins: seq<Join>, selection: Option<Expr>, frames: seq<Frame<Extent>>, outer: Env,
    nested: map<Env, seq<Extent>>): set<Combo>
  {
    set c | c in Joined(e, joins, frames, outer, nested) && Holds(e, selection, frames, c, outer, nested)
  }

  ghost function SelectRows(
    e: Engine, block: Block, frames: seq<Frame<Extent>>, outer: Env, nested: map<Env, seq<Extent>>)
    : Extent
    requires block.Block?
  {
    var kept := KeptCombos(e, block.joins, block.selection, frames, outer, nested);
    var ids := set c | c in kept :: Combined(c);
    Extent(
      OutputNames(block.projection, Headings(frames)),
      map id | id in ids ::
        var env := EnvOf(frames, id.combo);
        OutputRow(e, block.projection, env, outer, NestedFor(nested, env)))
  }

  function PositionNames(n: nat): (r: seq<string>)
    ensures |r| == n && forall i :: 0 <= i < n ==> r[i] == PositionName(i)
  {
    if n == 0 then [] else PositionNames(n - 1) + [PositionName(n - 1)]
  }

  const NO_ENV := Env([], [])

  function LiteralRows(e: Engine, rows: seq<seq<Expr>>, outer: Env, nested: seq<Extent>): Extent {
    var width := if rows == [] then 0 else |rows[0]|;
    Extent(
      PositionNames(width),
      map i | 0 <= i < |rows| && |rows[i]| == width :: Key(i) := EvalExprs(e, rows[i], NO_ENV, outer, nested))
  }

  // -- Set operations -----------------------------------------------------------------------------

  function Values(extent: Extent): set<Row> {
    set id | id in extent.rows :: extent.rows[id]
  }

  function LeftRows(rows: map<RowId, Row>): (r: map<RowId, Row>)
    ensures forall id :: id in r ==> id.FromLeft? && id.id in rows && r[id] == rows[id.id]
    ensures forall id :: id in rows ==> FromLeft(id) in r
  {
    map id | id in rows :: FromLeft(id) := rows[id]
  }

  function RightRows(rows: map<RowId, Row>): (r: map<RowId, Row>)
    ensures forall id :: id in r ==> id.FromRight? && id.id in rows && r[id] == rows[id.id]
    ensures forall id :: id in rows ==> FromRight(id) in r
  {
    map id | id in rows :: FromRight(id) := rows[id]
  }

  function DistinctRows(rows: set<Row>): (r: map<RowId, Row>)
    ensures forall id :: id in r ==> id.Distinct? && id.row in rows && r[id] == id.row
    ensures forall row :: row in rows ==> Distinct(row) in r
  {
    map row | row in rows :: Distinct(row) := row
  }

  function Combine(op: SetOp, left: Extent, right: Extent): Extent {
    match op
    case UnionAll => Extent(left.header, LeftRows(left.rows) + RightRows(right.rows))
    case Union => Extent(left.header, DistinctRows(Values(left) + Values(right)))
    case Except =>
      Extent(left.header, LeftRows(map id | id in left.rows && left.rows[id] !in Values(right) :: left.rows[id]))
    case Intersect =>
      Extent(left.header, LeftRows(map id | id in left.rows && left.rows[id] in Values(right) :: left.rows[id]))
  }

  // -- The meaning -----------------------------------------------------------------------------------

  /** Every combination of rows of the first relations, padding included. */
  ghost function AllCombos(frames: seq<Frame<Extent>>): set<Combo> {
    if frames == [] then {[]}
    else
      var n := |frames| - 1;
      set c, o | c in AllCombos(frames[..n])
        && o in {None} + (set id | id in frames[n].table.rows :: Some(id)) :: c + [o]
  }

  /** A subquery runs for every combination its block may look at. */
  ghost function Contexts(frames: seq<Frame<Extent>>): set<Env> {
    set k, c | 0 <= k <= |frames| && c in AllCombos(frames[..k]) :: EnvOf(frames[..k], c)
  }

  ghost function MeaningOf(e: Engine): Interp<Block, Extent, Env> {
    Interp(
      (block: Block, frames, outer) => Contexts(frames),
      (block: Block, frames, outer, nested) =>
        if block.Block? then SelectRows(e, block, frames, outer, nested)
        else LiteralRows(e, block.rows, outer, NestedFor(nested, NO_ENV)),
      (op, left, right) => Combine(op, left, right),
      name => e.tableFunction(name),
      NO_ENV)
  }
}
