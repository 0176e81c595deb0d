/**
 The analyser's claims hold of what queries evaluate to
 (crates/phlo-transform-core/src/analyze.rs): a column inferred NOT NULL holds
 no NULL, and a completely analysed column cannot be told apart by anything
 but its recorded inputs.
 */
module AnalyzeSound {
  import opened Wrappers
  import opened Sql
  import opened Resolve
  import opened Relational
  import opened Semantic
  import opened Analyze
  import opened Meaning
  import Lineage

  // -- Expressions --------------------------------------------------------------------------

  /** The columns whose values flow into a column. */
  function DirectRefs(inputs: set<Input>): set<ColumnRef> {
    set i | i in inputs && i.directness.Direct? :: i.column
  }

  lemma RetagKeepsRefs(inputs: set<Input>, transformation: Lineage.Transformation)
    ensures DirectRefs(Retag(inputs, transformation)) == DirectRefs(inputs)
  {
    forall i | i in inputs && i.directness.Direct? ensures i.column in DirectRefs(Retag(inputs, transformation)) {
      assert i.(transformation := transformation) in Retag(inputs, transformation);
    }
  }

  lemma RefsOfUnion(a: set<Input>, b: set<Input>)
    ensures DirectRefs(a + b) == DirectRefs(a) + DirectRefs(b)
  {
  }

  /** Analysed operators yield NULL for NULL operands only; tests never do. */
  ghost predicate Strict(e: Engine) {
    && (forall op: UnaryOp, v :: !op.OtherUnary? && v != Null ==> e.unary(op, v) != Null)
    && (forall op: BinaryOp, v, u :: !op.OtherBinary? && v != Null && u != Null ==> e.binary(op, v, u) != Null)
    && (forall target, v :: v != Null ==> e.cast(false, target, v) != Null)
    && (forall down, v :: v != Null ==> e.round(down, v) != Null)
    && forall name, args :: NeverNullFunction(name) ==> e.call(name, args) != Null
  }

  /** Every qualifier an expression mentions is among the block's qualifiers. */
  predicate Covers(quals: set<string>, expr: Expr)
    decreases expr, 1
  {
    match expr
    case Col(qualifier, _) => qualifier.Some? ==> Lower(qualifier.value) in quals
    case Parens(inner) => Covers(quals, inner)
    case Cast(_, _, inner) => Covers(quals, inner)
    case Unary(_, inner) => Covers(quals, inner)
    case Binary(_, left, right) => Covers(quals, left) && Covers(quals, right)
    case Test(_, inner) => Covers(quals, inner)
    case Match(_, args) => CoversAll(quals, args)
    case Case(operand, conditions, results, otherwise) =>
      && CoversAll(quals, operand) && CoversAll(quals, conditions)
      && CoversAll(quals, results) && CoversAll(quals, otherwise)
    case Call(_, args) => CoversAll(quals, args)
    case Extraction(_, args) => CoversAll(quals, args)
    case Rounded(_, inner) => Covers(quals, inner)
    case Literal(_) => true
    case Unanalysed(_) => true
  }

  predicate CoversAll(quals: set<string>, exprs: seq<Expr>)
    decreases exprs, 0
  {
    exprs != [] ==> Covers(quals, exprs[0]) && CoversAll(quals, exprs[1..])
  }

  function MaskHeading(quals: set<string>, heading: Heading): Heading {
    if heading.qualifier.Some? && Lower(heading.qualifier.value) in quals then heading
    else heading.(qualifier := None)
  }

  ghost predicate MaskedHeadings(quals: set<string>, all: seq<Heading>, masked: seq<Heading>) {
    |masked| == |all| && forall k :: 0 <= k < |all| ==> masked[k] == MaskHeading(quals, all[k])
  }

  lemma MaskKeepsQualifying(quals: set<string>, heading: Heading, qualifier: Option<string>)
    requires qualifier.Some? ==> Lower(qualifier.value) in quals
    ensures Qualifies(MaskHeading(quals, heading), qualifier) == Qualifies(heading, qualifier)
  {
  }

  lemma {:induction false} MaskKeepsPositions(
    quals: set<string>, all: seq<Heading>, masked: seq<Heading>, qualifier: Option<string>, name: string, k: nat)
    requires MaskedHeadings(quals, all, masked) && k <= |all|
    requires qualifier.Some? ==> Lower(qualifier.value) in quals
    ensures Positions(masked, qualifier, name, k) == Positions(all, qualifier, name, k)
    decreases |all| - k
  {
    if k < |all| {
      MaskKeepsQualifying(quals, all[k], qualifier);
      MaskKeepsPositions(quals, all, masked, qualifier, name, k + 1);
    }
  }

  ghost predicate NullClaims(columns: seq<Column>, row: Row) {
    && |row| == |columns|
    && forall j :: 0 <= j < |columns| && columns[j].nullability == NotNull ==> row[j] != Null
  }

  ghost predicate SameClaims(columns: seq<Column>, row: Row, other: Row, direct: set<ColumnRef>) {
    && |row| == |columns| && |other| == |columns|
    && forall j :: 0 <= j < |columns| && columns[j].complete && DirectRefs(columns[j].inputs) <= direct ==>
         row[j] == other[j]
  }

  /** The scope describes the environment, qualifiers masked. */
  ghost predicate Describes(quals: set<string>, scope: Scope, env: Env) {
    && MaskedHeadings(quals, ScopeHeadings(scope), env.headings) && |env.rows| == |scope|
  }

  ghost predicate RowsNullClaims(scope: Scope, env: Env) {
    |env.rows| == |scope| && forall k :: 0 <= k < |scope| ==> NullClaims(scope[k].columns, env.rows[k])
  }

  ghost predicate RowsSameClaims(scope: Scope, env: Env, other: Env, direct: set<ColumnRef>) {
    && |env.rows| == |scope| && |other.rows| == |scope|
    && forall k :: 0 <= k < |scope| ==> SameClaims(scope[k].columns, env.rows[k], other.rows[k], direct)
  }

  lemma ColumnFound(quals: set<string>, scope: Scope, env: Env, qualifier: Option<string>, name: string)
    requires Describes(quals, scope, env) && (qualifier.Some? ==> Lower(qualifier.value) in quals)
    ensures Positions(env.headings, qualifier, name, 0) == Positions(ScopeHeadings(scope), qualifier, name, 0)
  {
    MaskKeepsPositions(quals, ScopeHeadings(scope), env.headings, qualifier, name, 0);
  }

  /** An expression inferred NOT NULL does not evaluate to NULL. */
  lemma {:induction false} InferNotNull(
    e: Engine, quals: set<string>, expr: Expr, scope: Scope, env: Env, outer: Env, nested: seq<Extent>)
    requires Strict(e) && Covers(quals, expr)
    requires Describes(quals, scope, env) && RowsNullClaims(scope, env)
    requires Infer(expr, scope).nullability == NotNull
    ensures EvalExpr(e, expr, env, outer, nested) != Null
    decreases expr, 1
  {
    match expr
    case Col(qualifier, name) => ColumnFound(quals, scope, env, qualifier, name);
    case Parens(inner) => InferNotNull(e, quals, inner, scope, env, outer, nested);
    case Cast(_, _, inner) => InferNotNull(e, quals, inner, scope, env, outer, nested);
    case Unary(_, inner) => InferNotNull(e, quals, inner, scope, env, outer, nested);
    case Binary(_, left, right) =>
      InferNotNull(e, quals, left, scope, env, outer, nested);
      InferNotNull(e, quals, right, scope, env, outer, nested);
    case Case(operand, conditions, results, otherwise) =>
      InferAllNotNull(e, quals, results, scope, env, outer, nested);
      InferAllNotNull(e, quals, otherwise, scope, env, outer, nested);
      ChosenNotNull(
        e, EvalExprs(e, operand, env, outer, nested), EvalExprs(e, conditions, env, outer, nested),
        EvalExprs(e, results, env, outer, nested), EvalExprs(e, otherwise, env, outer, nested));
    case Rounded(_, inner) => InferNotNull(e, quals, inner, scope, env, outer, nested);
    case Literal(_) =>
    case Test(_, _) =>
    case Call(_, _) =>
    case Match(_, _) =>
    case Extraction(_, _) =>
    case Unanalysed(_) =>
  }

  ghost predicate NoNulls(values: seq<Value>) {
    forall i :: 0 <= i < |values| ==> values[i] != Null
  }

  lemma {:induction false} InferAllNotNull(
    e: Engine, quals: set<string>, exprs: seq<Expr>, scope: Scope, env: Env, outer: Env, nested: seq<Extent>)
    requires Strict(e) && CoversAll(quals, exprs)
    requires Describes(quals, scope, env) && RowsNullClaims(scope, env)
    requires InferAll(exprs, scope).nullability == NotNull
    ensures NoNulls(EvalExprs(e, exprs, env, outer, nested))
    decreases exprs, 0
  {
    if exprs != [] {
      InferNotNull(e, quals, exprs[0], scope, env, outer, nested);
      InferAllNotNull(e, quals, exprs[1..], scope, env, outer, nested);
    }
  }

  lemma {:induction false} ChosenNotNull(
    e: Engine, subject: seq<Value>, conditions: seq<Value>, results: seq<Value>, otherwise: seq<Value>)
    requires NoNulls(results) && NoNulls(otherwise) && otherwise != []
    ensures Chosen(e, subject, conditions, results, otherwise) != Null
  {
    if conditions != [] && results != [] {
      ChosenNotNull(e, subject, conditions[1..], results[1..], otherwise);
    }
  }

  /** A completely analysed expression depends on the columns it reads directly, and on nothing else. */
  lemma {:induction false} InferDepends(
    e: Engine, quals: set<string>, expr: Expr, scope: Scope, env: Env, other: Env, outer: Env,
    nested: seq<Extent>, nested': seq<Extent>, direct: set<ColumnRef>)
    requires Covers(quals, expr) && Describes(quals, scope, env) && Describes(quals, scope, other)
    requires RowsSameClaims(scope, env, other, direct) && outer == NO_ENV
    requires Infer(expr, scope).complete && DirectRefs(Infer(expr, scope).inputs) <= direct
    ensures EvalExpr(e, expr, env, outer, nested) == EvalExpr(e, expr, other, outer, nested')
    decreases expr, 1
  {
    match expr
    case Col(qualifier, name) =>
      ColumnFound(quals, scope, env, qualifier, name);
      ColumnFound(quals, scope, other, qualifier, name);
    case Parens(inner) => InferDepends(e, quals, inner, scope, env, other, outer, nested, nested', direct);
    case Cast(_, _, inner) =>
      RetagKeepsRefs(Infer(inner, scope).inputs, Lineage.Transformed);
      InferDepends(e, quals, inner, scope, env, other, outer, nested, nested', direct);
    case Unary(_, inner) =>
      RetagKeepsRefs(Infer(inner, scope).inputs, Lineage.Transformed);
      InferDepends(e, quals, inner, scope, env, other, outer, nested, nested', direct);
    case Binary(_, left, right) =>
      RetagKeepsRefs(Infer(left, scope).inputs + Infer(right, scope).inputs, Lineage.Transformed);
      RefsOfUnion(Infer(left, scope).inputs, Infer(right, scope).inputs);
      InferDepends(e, quals, left, scope, env, other, outer, nested, nested', direct);
      InferDepends(e, quals, right, scope, env, other, outer, nested, nested', direct);
    case Test(_, inner) =>
      RetagKeepsRefs(Infer(inner, scope).inputs, Lineage.Transformed);
      InferDepends(e, quals, inner, scope, env, other, outer, nested, nested', direct);
    case Match(_, args) =>
      RetagKeepsRefs(InferAll(args, scope).inputs, Lineage.Transformed);
      InferAllDepends(e, quals, args, scope, env, other, outer, nested, nested', direct);
    case Case(operand, conditions, results, otherwise) =>
      CaseRefs(operand, conditions, results, otherwise, scope);
      InferAllDepends(e, quals, operand, scope, env, other, outer, nested, nested', direct);
      InferAllDepends(e, quals, conditions, scope, env, other, outer, nested, nested', direct);
      InferAllDepends(e, quals, results, scope, env, other, outer, nested, nested', direct);
      InferAllDepends(e, quals, otherwise, scope, env, other, outer, nested, nested', direct);
    case Call(name, args) =>
      RetagKeepsRefs(InferAll(args, scope).inputs, CallKind(name));
      InferAllDepends(e, quals, args, scope, env, other, outer, nested, nested', direct);
    case Extraction(_, args) =>
      RetagKeepsRefs(InferAll(args, scope).inputs, Lineage.Transformed);
      InferAllDepends(e, quals, args, scope, env, other, outer, nested, nested', direct);
    case Rounded(_, inner) =>
      RetagKeepsRefs(Infer(inner, scope).inputs, Lineage.Transformed);
      InferDepends(e, quals, inner, scope, env, other, outer, nested, nested', direct);
    case Literal(_) =>
    case Unanalysed(_) =>
  }

  lemma CaseRefs(operand: seq<Expr>, conditions: seq<Expr>, results: seq<Expr>, otherwise: seq<Expr>, scope: Scope)
    ensures DirectRefs(Infer(Case(operand, conditions, results, otherwise), scope).inputs)
         == DirectRefs(InferAll(operand, scope).inputs) + DirectRefs(InferAll(conditions, scope).inputs)
          + DirectRefs(InferAll(results, scope).inputs) + DirectRefs(InferAll(otherwise, scope).inputs)
  {
    var o, c, r, x := InferAll(operand, scope).inputs, InferAll(conditions, scope).inputs,
      InferAll(results, scope).inputs, InferAll(otherwise, scope).inputs;
    RetagKeepsRefs(o + c + r + x, Lineage.Conditional);
    RefsOfUnion(o + c + r, x);
    RefsOfUnion(o + c, r);
    RefsOfUnion(o, c);
  }

  lemma {:induction false} InferAllDepends(
    e: Engine, quals: set<string>, exprs: seq<Expr>, scope: Scope, env: Env, other: Env, outer: Env,
    nested: seq<Extent>, nested': seq<Extent>, direct: set<ColumnRef>)
    requires CoversAll(quals, exprs) && Describes(quals, scope, env) && Describes(quals, scope, other)
    requires RowsSameClaims(scope, env, other, direct) && outer == NO_ENV
    requires InferAll(exprs, scope).complete && DirectRefs(InferAll(exprs, scope).inputs) <= direct
    ensures EvalExprs(e, exprs, env, outer, nested) == EvalExprs(e, exprs, other, outer, nested')
    decreases exprs, 0
  {
    if exprs != [] {
      RefsOfUnion(Infer(exprs[0], scope).inputs, InferAll(exprs[1..], scope).inputs);
      InferDepends(e, quals, exprs[0], scope, env, other, outer, nested, nested', direct);
      InferAllDepends(e, quals, exprs[1..], scope, env, other, outer, nested, nested', direct);
    }
  }

  // -- Projections ----------------------------------------------------------------------------

  predicate CoversItem(quals: set<string>, item: Item) {
    match item
    case Selected(expr, _) => Covers(quals, expr)
    case Wildcard => true
    case QualifiedWildcard(qualifier) => Lower(qualifier) in quals
  }

  predicate CoversItems(quals: set<string>, items: seq<Item>) {
    forall i :: 0 <= i < |items| ==> CoversItem(quals, items[i])
  }

  lemma {:induction false} WildcardNames(
    quals: set<string>, scope: Scope, headings: seq<Heading>, qualifier: Option<string>)
    requires MaskedHeadings(quals, ScopeHeadings(scope), headings)
    requires qualifier.Some? ==> Lower(qualifier.value) in quals
    ensures AllNames(headings, qualifier) == ColumnNames(ColumnsFor(scope, qualifier))
  {
    if scope != [] {
      WildcardNames(quals, scope[1..], headings[1..], qualifier);
      MaskKeepsQualifying(quals, ScopeHeadings(scope)[0], qualifier);
      var first := if Qualifies(ScopeHeadings(scope)[0], qualifier) then scope[0].columns else [];
      NamesOfConcat(first, ColumnsFor(scope[1..], qualifier));
    }
  }

  lemma {:induction false} NamesOfConcat(a: seq<Column>, b: seq<Column>)
    ensures ColumnNames(a + b) == ColumnNames(a) + ColumnNames(b)
  {
  }

  lemma {:induction false} WildcardNotNull(
    quals: set<string>, scope: Scope, headings: seq<Heading>, rows: seq<Row>, qualifier: Option<string>)
    requires MaskedHeadings(quals, ScopeHeadings(scope), headings) && |rows| == |scope|
    requires qualifier.Some? ==> Lower(qualifier.value) in quals
    requires forall k :: 0 <= k < |scope| ==> NullClaims(scope[k].columns, rows[k])
    ensures NullClaims(ColumnsFor(scope, qualifier), AllValues(headings, rows, qualifier))
  {
    if scope != [] {
      WildcardNotNull(quals, scope[1..], headings[1..], rows[1..], qualifier);
      MaskKeepsQualifying(quals, ScopeHeadings(scope)[0], qualifier);
    }
  }

  lemma {:induction false} WildcardSame(
    quals: set<string>, scope: Scope, headings: seq<Heading>, rows: seq<Row>, others: seq<Row>,
    qualifier: Option<string>, direct: set<ColumnRef>)
    requires MaskedHeadings(quals, ScopeHeadings(scope), headings) && |rows| == |scope| && |others| == |scope|
    requires qualifier.Some? ==> Lower(qualifier.value) in quals
    requires forall k :: 0 <= k < |scope| ==> SameClaims(scope[k].columns, rows[k], others[k], direct)
    ensures SameClaims(
              ColumnsFor(scope, qualifier), AllValues(headings, rows, qualifier),
              AllValues(headings, others, qualifier), direct)
  {
    if scope != [] {
      WildcardSame(quals, scope[1..], headings[1..], rows[1..], others[1..], qualifier, direct);
      MaskKeepsQualifying(quals, ScopeHeadings(scope)[0], qualifier);
    }
  }

  lemma ClausesKeepNullClaims(columns: seq<Column>, row: Row, indirect: set<Input>, complete: bool)
    requires NullClaims(columns, row)
    ensures NullClaims(WithClauses(columns, indirect, complete), row)
  {
  }

  lemma ClausesKeepSameClaims(
    columns: seq<Column>, row: Row, other: Row, indirect: set<Input>, complete: bool, direct: set<ColumnRef>)
    requires SameClaims(columns, row, other, direct)
    ensures SameClaims(WithClauses(columns, indirect, complete), row, other, direct)
  {
    var all := WithClauses(columns, indirect, complete);
    forall j | 0 <= j < |columns| && all[j].complete && DirectRefs(all[j].inputs) <= direct ensures row[j] == other[j] {
      RefsOfUnion(columns[j].inputs, indirect);
    }
  }

  lemma ItemNotNull(
    e: Engine, quals: set<string>, item: Item, position: nat, scope: Scope, indirect: set<Input>, complete: bool,
    env: Env, outer: Env, nested: seq<Extent>)
    requires Strict(e) && CoversItem(quals, item)
    requires Describes(quals, scope, env) && RowsNullClaims(scope, env)
    ensures NullClaims(ItemOf(item, position, scope, indirect, complete), ItemValues(e, item, env, outer, nested))
  {
    match item
    case Selected(expr, _) =>
      if Infer(expr, scope).nullability == NotNull {
        InferNotNull(e, quals, expr, scope, env, outer, nested);
      }
    case Wildcard =>
      WildcardNotNull(quals, scope, env.headings, env.rows, None);
      ClausesKeepNullClaims(
        ColumnsFor(scope, None), AllValues(env.headings, env.rows, None), indirect, complete);
    case QualifiedWildcard(qualifier) =>
      WildcardNotNull(quals, scope, env.headings, env.rows, Some(qualifier));
      ClausesKeepNullClaims(
        ColumnsFor(scope, Some(qualifier)), AllValues(env.headings, env.rows, Some(qualifier)), indirect, complete);
  }

  lemma ItemSame(
    e: Engine, quals: set<string>, item: Item, position: nat, scope: Scope, indirect: set<Input>, complete: bool,
    env: Env, other: Env, nested: seq<Extent>, nested': seq<Extent>, direct: set<ColumnRef>)
    requires CoversItem(quals, item)
    requires Describes(quals, scope, env) && Describes(quals, scope, other)
    requires RowsSameClaims(scope, env, other, direct)
    ensures SameClaims(
              ItemOf(item, position, scope, indirect, complete), ItemValues(e, item, env, NO_ENV, nested),
              ItemValues(e, item, other, NO_ENV, nested'), direct)
  {
    assert env.headings == other.headings;
    match item
    case Selected(expr, _) =>
      var i := Infer(expr, scope);
      RefsOfUnion(i.inputs, indirect);
      if i.complete && DirectRefs(i.inputs) <= direct {
        InferDepends(e, quals, expr, scope, env, other, NO_ENV, nested, nested', direct);
      }
    case Wildcard =>
      WildcardSame(quals, scope, env.headings, env.rows, other.rows, None, direct);
      ClausesKeepSameClaims(
        ColumnsFor(scope, None), AllValues(env.headings, env.rows, None),
        AllValues(env.headings, other.rows, None), indirect, complete, direct);
    case QualifiedWildcard(qualifier) =>
      WildcardSame(quals, scope, env.headings, env.rows, other.rows, Some(qualifier), direct);
      ClausesKeepSameClaims(
        ColumnsFor(scope, Some(qualifier)), AllValues(env.headings, env.rows, Some(qualifier)),
        AllValues(env.headings, other.rows, Some(qualifier)), indirect, complete, direct);
  }

  lemma LastItem(items: seq<Item>, quals: set<string>)
    requires items != [] && CoversItems(quals, items)
    ensures CoversItems(quals, items[..|items| - 1]) && CoversItem(quals, items[|items| - 1])
  {
  }

  lemma {:induction false} OutputNotNull(
    e: Engine, quals: set<string>, items: seq<Item>, scope: Scope, indirect: set<Input>, complete: bool,
    env: Env, outer: Env, nested: seq<Extent>)
    requires Strict(e) && CoversItems(quals, items)
    requires Describes(quals, scope, env) && RowsNullClaims(scope, env)
    ensures NullClaims(ItemColumns(items, scope, indirect, complete), OutputRow(e, items, env, outer, nested))
  {
    if items != [] {
      var rest, item := items[..|items| - 1], items[|items| - 1];
      LastItem(items, quals);
      OutputNotNull(e, quals, rest, scope, indirect, complete, env, outer, nested);
      var before := ItemColumns(rest, scope, indirect, complete);
      ItemNotNull(e, quals, item, |before|, scope, indirect, complete, env, outer, nested);
    }
  }

  lemma {:induction false} OutputSame(
    e: Engine, quals: set<string>, items: seq<Item>, scope: Scope, indirect: set<Input>, complete: bool,
    env: Env, other: Env, nested: seq<Extent>, nested': seq<Extent>, direct: set<ColumnRef>)
    requires CoversItems(quals, items)
    requires Describes(quals, scope, env) && Describes(quals, scope, other)
    requires RowsSameClaims(scope, env, other, direct)
    ensures SameClaims(
              ItemColumns(items, scope, indirect, complete), OutputRow(e, items, env, NO_ENV, nested),
              OutputRow(e, items, other, NO_ENV, nested'), direct)
  {
    if items != [] {
      var rest, item := items[..|items| - 1], items[|items| - 1];
      LastItem(items, quals);
      OutputSame(e, quals, rest, scope, indirect, complete, env, other, nested, nested', direct);
      var before := ItemColumns(rest, scope, indirect, complete);
      ItemSame(e, quals, item, |before|, scope, indirect, complete, env, other, nested, nested', direct);
    }
  }

  lemma ItemNamed(
    quals: set<string>, item: Item, position: nat, scope: Scope, indirect: set<Input>, complete: bool,
    headings: seq<Heading>)
    requires CoversItem(quals, item) && MaskedHeadings(quals, ScopeHeadings(scope), headings)
    ensures ColumnNames(ItemOf(item, position, scope, indirect, complete)) == ItemNames(item, headings, position)
  {
    match item
    case Selected(_, _) =>
    case Wildcard => WildcardNames(quals, scope, headings, None);
    case QualifiedWildcard(qualifier) => WildcardNames(quals, scope, headings, Some(qualifier));
  }

  lemma {:induction false} OutputNamed(
    quals: set<string>, items: seq<Item>, scope: Scope, indirect: set<Input>, complete: bool, headings: seq<Heading>)
    requires CoversItems(quals, items) && MaskedHeadings(quals, ScopeHeadings(scope), headings)
    ensures OutputNames(items, headings) == ColumnNames(ItemColumns(items, scope, indirect, complete))
  {
    if items != [] {
      var rest, item := items[..|items| - 1], items[|items| - 1];
      LastItem(items, quals);
      OutputNamed(quals, rest, scope, indirect, complete, headings);
      var before := ItemColumns(rest, scope, indirect, complete);
      NamesOfConcat(before, ItemOf(item, |before|, scope, indirect, complete));
      ItemNamed(quals, item, |before|, scope, indirect, complete, headings);
    }
  }
}
