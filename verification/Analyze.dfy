/**
 Column resolution, nullability and lineage of a query
 (crates/phlo-transform-core/src/analyze.rs).

 An input is an upstream column with how it contributes. Inputs are kept as a
 set: the source sorts them and drops repetitions of (column, directness,
 transformation).
 */
module Analyze {
  import opened Wrappers
  import opened Identity
  import opened Graph
  import opened Resolve
  import opened Sql
  import opened Relational
  import opened Semantic
  import Lineage

  /** A column of a model or of a source. */
  datatype ColumnRef = ColumnRef(relation: Dependency, column: string)

  datatype Input = Input(column: ColumnRef, directness: Lineage.Directness, transformation: Lineage.Transformation)

  /** `complete` is false when part of what produced the column was not analysed. */
  datatype Column = Column(name: string, nullability: Nullability, inputs: set<Input>, complete: bool)

  datatype Inferred = Inferred(nullability: Nullability, inputs: set<Input>, complete: bool)

  const UNKNOWN := Inferred(UnknownNull, {}, false)

  datatype ScopedRelation = ScopedRelation(qualifier: Option<string>, columns: seq<Column>)

  type Scope = seq<ScopedRelation>

  datatype SchemaColumn = SchemaColumn(name: string, nullability: Nullability)

  datatype Schema = Schema(known: bool, columns: seq<SchemaColumn>)

  /** Resolution in the analysed model's context, and the schemas of upstream models and sources. */
  datatype Analyzer = Analyzer(resolve: Name -> Resolution, schemas: map<Dependency, Schema>)

  /** WITH columns by lower-case name; whether an input schema was missing; whether a union did not fit. */
  datatype State = State(ctes: map<string, seq<Column>>, unknown: bool, failed: bool)

  // -- Scopes ---------------------------------------------------------------------------------

  function ColumnNames(columns: seq<Column>): (r: seq<string>)
    ensures |r| == |columns| && forall j :: 0 <= j < |columns| ==> r[j] == columns[j].name
  {
    if columns == [] then [] else [columns[0].name] + ColumnNames(columns[1..])
  }

  function ScopeHeadings(scope: Scope): (r: seq<Heading>)
    ensures |r| == |scope|
    ensures forall k :: 0 <= k < |scope| ==> r[k] == Heading(scope[k].qualifier, ColumnNames(scope[k].columns))
  {
    if scope == [] then []
    else [Heading(scope[0].qualifier, ColumnNames(scope[0].columns))] + ScopeHeadings(scope[1..])
  }

  function ResolveColumn(scope: Scope, qualifier: Option<string>, name: string): Inferred {
    var found := Positions(ScopeHeadings(scope), qualifier, name, 0);
    if |found| == 1 then
      var column := scope[found[0].0].columns[found[0].1];
      Inferred(column.nullability, column.inputs, column.complete)
    else UNKNOWN
  }

  function ColumnsFor(scope: Scope, qualifier: Option<string>): seq<Column> {
    if scope == [] then []
    else
      (if Qualifies(Heading(scope[0].qualifier, ColumnNames(scope[0].columns)), qualifier)
          then scope[0].columns else [])
      + ColumnsFor(scope[1..], qualifier)
  }

  // -- Expressions -----------------------------------------------------------------------------

  /** Direct inputs take on the transformation an expression applies; indirect ones keep theirs. */
  function Retag(inputs: set<Input>, transformation: Lineage.Transformation): set<Input> {
    set i | i in inputs :: if i.directness.Direct? then i.(transformation := transformation) else i
  }

  function MarkIndirect(inputs: set<Input>, transformation: Lineage.Transformation): set<Input> {
    set i | i in inputs :: Input(i.column, Lineage.Indirect, transformation)
  }

  predicate NeverNullFunction(name: string) {
    name in {
      "count", "count_if", "approx_distinct", "row_number", "rank", "dense_rank",
      "current_date", "now", "current_timestamp", "localtimestamp"}
  }

  predicate IsAggregate(name: string) {
    name in {
      "count", "count_if", "sum", "avg", "min", "max", "arbitrary", "any_value", "approx_distinct",
      "approx_percentile", "approx_set", "stddev", "stddev_samp", "stddev_pop", "variance", "var_samp", "var_pop",
      "bool_and", "bool_or", "every", "array_agg", "listagg", "checksum", "merge"}
  }

  function CallKind(name: string): Lineage.Transformation {
    if IsAggregate(name) then Lineage.Aggregation
    else if name in {"if", "ifnull", "nullif", "coalesce"} then Lineage.Conditional
    else Lineage.Transformed
  }

  function Infer(expr: Expr, scope: Scope): Inferred
    decreases expr, 1
  {
    match expr
    case Col(qualifier, name) => ResolveColumn(scope, qualifier, name)
    case Literal(value) => Inferred(if value.Null? then Nullable else NotNull, {}, true)
    case Parens(inner) => Infer(inner, scope)
    case Cast(attempt, _, inner) =>
      var i := Infer(inner, scope);
      Inferred(if attempt then Nullable else i.nullability, Retag(i.inputs, Lineage.Transformed), i.complete)
    case Unary(op, inner) =>
      var i := Infer(inner, scope);
      Inferred(
        if op.OtherUnary? then UnknownNull else i.nullability, Retag(i.inputs, Lineage.Transformed), i.complete)
    case Binary(op, left, right) =>
      var l, r := Infer(left, scope), Infer(right, scope);
      Inferred(
        if op.OtherBinary? then UnknownNull else l.nullability.Merge(r.nullability),
        Retag(l.inputs + r.inputs, Lineage.Transformed), l.complete && r.complete)
    case Test(_, inner) =>
      var i := Infer(inner, scope);
      Inferred(NotNull, Retag(i.inputs, Lineage.Transformed), i.complete)
    case Match(_, args) =>
      var i := InferAll(args, scope);
      Inferred(UnknownNull, Retag(i.inputs, Lineage.Transformed), i.complete)
    case Case(operand, conditions, results, otherwise) =>
      var o, c, r, x :=
        InferAll(operand, scope), InferAll(conditions, scope), InferAll(results, scope), InferAll(otherwise, scope);
      Inferred(
        (if otherwise != [] then NotNull else Nullable).Merge(r.nullability).Merge(x.nullability),
        Retag(o.inputs + c.inputs + r.inputs + x.inputs, Lineage.Conditional),
        o.complete && c.complete && r.complete && x.complete)
    case Call(name, args) =>
      var i := InferAll(args, scope);
      Inferred(
        if NeverNullFunction(name) then NotNull else UnknownNull, Retag(i.inputs, CallKind(name)), i.complete)
    case Extraction(_, args) =>
      var i := InferAll(args, scope);
      Inferred(Nullable, Retag(i.inputs, Lineage.Transformed), i.complete)
    case Rounded(_, inner) =>
      var i := Infer(inner, scope);
      Inferred(i.nullability, Retag(i.inputs, Lineage.Transformed), i.complete)
    case Unanalysed(_) => UNKNOWN
  }

  /** Several expressions at once: merged nullability, all inputs, and whether all were analysed. */
  function InferAll(exprs: seq<Expr>, scope: Scope): Inferred
    decreases exprs, 0
  {
    if exprs == [] then Inferred(NotNull, {}, true)
    else
      var i, rest := Infer(exprs[0], scope), InferAll(exprs[1..], scope);
      Inferred(i.nullability.Merge(rest.nullability), i.inputs + rest.inputs, i.complete && rest.complete)
  }

  // -- Relations ---------------------------------------------------------------------------------

  function SchemaColumns(relation: Dependency, columns: seq<SchemaColumn>): (r: seq<Column>)
    ensures |r| == |columns|
    ensures forall j :: 0 <= j < |columns| ==>
              r[j] == Column(
                columns[j].name, columns[j].nullability,
                {Input(ColumnRef(relation, columns[j].name), Lineage.Direct, Lineage.Identity)}, true)
  {
    if columns == [] then []
    else
      [Column(
        columns[0].name, columns[0].nullability,
        {Input(ColumnRef(relation, columns[0].name), Lineage.Direct, Lineage.Identity)}, true)]
      + SchemaColumns(relation, columns[1..])
  }

  function RelationOf(resolution: Resolution): Option<Dependency> {
    match resolution
    case ToModel(id) => Some(OnModel(id))
    case External(source) => Some(OnSource(source))
    case Ambiguous(_) => None
  }

  /** The columns a relation's schema declares, and whether the schema is missing or partial. */
  function BaseColumns(a: Analyzer, name: Name): (seq<Column>, bool) {
    var relation := RelationOf(a.resolve(name));
    if relation.None? then ([], false)
    else if relation.value !in a.schemas then ([], true)
    else
      var schema := a.schemas[relation.value];
      (SchemaColumns(relation.value, schema.columns), !schema.known)
  }

  // -- Queries --------------------------------------------------------------------------------------

  /** The FROM scope, what join constraints contribute, and whether they were fully analysed. */
  datatype BuiltScope = BuiltScope(scope: Scope, inputs: set<Input>, complete: bool)

  /** Lower-case WITH names analysed along with a query. */
  function Declares(q: Query<Block>): set<string>
    decreases q, 1
  {
    DeclaresCtes(q.ctes) + DeclaresBody(q.body)
  }

  function DeclaresCtes(ctes: seq<Cte<Block>>): set<string>
    decreases ctes, 0
  {
    if ctes == [] then {} else Declares(ctes[0].query) + {Lower(ctes[0].name)} + DeclaresCtes(ctes[1..])
  }

  function DeclaresBody(body: SetExpr<Block>): set<string>
    decreases body, 0
  {
    match body
    case Select(block, _, from, _) => if block.Block? then DeclaresFrom(from) else {}
    case Nested(query) => Declares(query)
    case SetOperation(_, left, right) => DeclaresBody(left) + DeclaresBody(right)
  }

  function DeclaresFrom(from: seq<TableFactor<Block>>): set<string>
    decreases from, 0
  {
    if from == [] then {} else DeclaresFactor(from[0]) + DeclaresFrom(from[1..])
  }

  function DeclaresFactor(factor: TableFactor<Block>): set<string>
    decreases factor, 0
  {
    match factor
    case Derived(query, _) => Declares(query)
    case Table(_, _) => {}
    case TableFunction(_, _) => {}
  }

  function AnalyzeQuery(a: Analyzer, q: Query<Block>, s: State): (r: (seq<Column>, State))
    ensures r.1.ctes.Keys == s.ctes.Keys + Declares(q)
    ensures (s.unknown ==> r.1.unknown) && (s.failed ==> r.1.failed)
    decreases q, 1
  {
    AnalyzeBody(a, q.body, AnalyzeCtes(a, q.ctes, s))
  }

  function AnalyzeCtes(a: Analyzer, ctes: seq<Cte<Block>>, s: State): (r: State)
    ensures r.ctes.Keys == s.ctes.Keys + DeclaresCtes(ctes)
    ensures (s.unknown ==> r.unknown) && (s.failed ==> r.failed)
    decreases ctes, 0
  {
    if ctes == [] then s else AnalyzeCtes(a, ctes[1..], EnterCte(a, ctes[0], s))
  }

  function EnterCte(a: Analyzer, cte: Cte<Block>, s: State): (r: State)
    ensures r.ctes.Keys == s.ctes.Keys + Declares(cte.query) + {Lower(cte.name)}
    ensures (s.unknown ==> r.unknown) && (s.failed ==> r.failed)
    decreases cte, 0
  {
    var (columns, t) := AnalyzeQuery(a, cte.query, s);
    t.(ctes := t.ctes[Lower(cte.name) := columns])
  }

  function AnalyzeBody(a: Analyzer, body: SetExpr<Block>, s: State): (r: (seq<Column>, State))
    ensures r.1.ctes.Keys == s.ctes.Keys + DeclaresBody(body)
    ensures (s.unknown ==> r.1.unknown) && (s.failed ==> r.1.failed)
    decreases body, 0
  {
    match body
    case Select(block, _, from, _) =>
      if block.Rows? then (RowColumns(block.rows), s)
      else
        var (built, t) := BuildScope(a, block.joins, 0, from, BuiltScope([], {}, true), s);
        (SelectColumns(block, built), t)
    case Nested(query) => AnalyzeQuery(a, query, s)
    case SetOperation(_, left, right) =>
      var (l, t) := AnalyzeBody(a, left, s);
      var (r, u) := AnalyzeBody(a, right, t);
      (CombineColumns(l, r), u.(failed := u.failed || |l| != |r|))
  }

  /** `VALUES`: the first row decides. */
  function RowColumns(rows: seq<seq<Expr>>): seq<Column> {
    if rows == [] then [] else LiteralColumns(rows[0])
  }

  function LiteralColumns(row: seq<Expr>): (r: seq<Column>)
    ensures |r| == |row|
    ensures forall j :: 0 <= j < |row| ==>
              var i := Infer(row[j], []);
              r[j] == Column(PositionName(j), i.nullability, i.inputs, i.complete)
  {
    if row == [] then []
    else
      var last := Infer(row[|row| - 1], []);
      LiteralColumns(row[..|row| - 1])
      + [Column(PositionName(|row| - 1), last.nullability, last.inputs, last.complete)]
  }

  /** Left names; merged nullability; the inputs of both sides. */
  function CombineColumns(left: seq<Column>, right: seq<Column>): (r: seq<Column>)
    ensures |r| == |left|
    ensures forall j :: 0 <= j < |left| ==> r[j] == (if j < |right| then CombineColumn(left[j], right[j]) else left[j])
  {
    if left == [] then []
    else
      var n := |left| - 1;
      CombineColumns(left[..n], right) + [if n < |right| then CombineColumn(left[n], right[n]) else left[n]]
  }

  function CombineColumn(left: Column, right: Column): Column {
    Column(
      left.name, left.nullability.Merge(right.nullability), left.inputs + right.inputs,
      left.complete && right.complete)
  }

  /** Add the relations from the block's `k`th on. */
  function BuildScope(
    a: Analyzer, joins: seq<Join>, k: nat, from: seq<TableFactor<Block>>, built: BuiltScope, s: State)
    : (r: (BuiltScope, State))
    ensures r.1.ctes.Keys == s.ctes.Keys + DeclaresFrom(from)
    ensures (s.unknown ==> r.1.unknown) && (s.failed ==> r.1.failed)
    decreases from, 0
  {
    if from == [] then (built, s)
    else
      var (relation, t) := AnalyzeFactor(a, from[0], s);
      BuildScope(a, joins, k + 1, from[1..], AddRelation(built, JoinAt(joins, k), relation), t)
  }

  /** A relation that cannot be analysed is skipped, its join constraint with it. */
  function AddRelation(built: BuiltScope, join: Join, relation: Option<ScopedRelation>): BuiltScope {
    if relation.None? then built
    else
      var scope := built.scope + [relation.value];
      if join.on.None? then built.(scope := scope)
      else
        var i := Infer(join.on.value, scope);
        BuiltScope(scope, built.inputs + MarkIndirect(i.inputs, Lineage.JoinKey), built.complete && i.complete)
  }

  function AnalyzeFactor(a: Analyzer, factor: TableFactor<Block>, s: State): (r: (Option<ScopedRelation>, State))
    ensures r.1.ctes.Keys == s.ctes.Keys + DeclaresFactor(factor)
    ensures (s.unknown ==> r.1.unknown) && (s.failed ==> r.1.failed)
    decreases factor, 0
  {
    match factor
    case Table(name, alias) =>
      if |name| == 1 && Lower(name[0]) in s.ctes then
        (Some(ScopedRelation(Qualifier(name, alias), s.ctes[Lower(name[0])])), s)
      else if !IsRelationName(name) then (None, s)
      else
        var (columns, missing) := BaseColumns(a, name);
        (Some(ScopedRelation(Qualifier(name, alias), columns)), s.(unknown := s.unknown || missing))
    case TableFunction(_, _) => (None, s)
    case Derived(query, alias) =>
      var (columns, t) := AnalyzeQuery(a, query, s);
      (Some(ScopedRelation(alias, columns)), t)
  }

  // -- Blocks -----------------------------------------------------------------------------------------

  /** What the block's clauses contribute to every output column. */
  function Clauses(block: Block, built: BuiltScope): (set<Input>, bool)
    requires block.Block?
  {
    if block.selection.None? then (built.inputs, built.complete)
    else
      var i := Infer(block.selection.value, built.scope);
      (built.inputs + MarkIndirect(i.inputs, Lineage.Filter), built.complete && i.complete)
  }

  function SelectColumns(block: Block, built: BuiltScope): seq<Column>
    requires block.Block?
  {
    var (indirect, complete) := Clauses(block, built);
    ItemColumns(block.projection, built.scope, indirect, complete)
  }

  function WithClauses(columns: seq<Column>, indirect: set<Input>, complete: bool): (r: seq<Column>)
    ensures |r| == |columns|
    ensures forall j :: 0 <= j < |columns| ==>
              r[j] == columns[j].(inputs := columns[j].inputs + indirect, complete := columns[j].complete && complete)
  {
    if columns == [] then []
    else
      [columns[0].(inputs := columns[0].inputs + indirect, complete := columns[0].complete && complete)]
      + WithClauses(columns[1..], indirect, complete)
  }

  /** The columns one projection item gives. */
  function ItemOf(item: Item, position: nat, scope: Scope, indirect: set<Input>, complete: bool): seq<Column> {
    match item
    case Selected(expr, _) =>
      var i := Infer(expr, scope);
      [Column(ItemName(item, position), i.nullability, i.inputs + indirect, i.complete && complete)]
    case Wildcard => WithClauses(ColumnsFor(scope, None), indirect, complete)
    case QualifiedWildcard(qualifier) => WithClauses(ColumnsFor(scope, Some(qualifier)), indirect, complete)
  }

  function ItemColumns(items: seq<Item>, scope: Scope, indirect: set<Input>, complete: bool): seq<Column> {
    if items == [] then []
    else
      var before := ItemColumns(items[..|items| - 1], scope, indirect, complete);
      before + ItemOf(items[|items| - 1], |before|, scope, indirect, complete)
  }
}
