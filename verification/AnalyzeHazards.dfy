/**
 Why the guards of the analyser's soundness are there: the smallest blocks for
 which what it infers does not hold
 (crates/phlo-transform-core/src/analyze.rs).
 */
module AnalyzeHazards {
  import opened Wrappers
  import opened Sql
  import opened Relational
  import opened Semantic
  import opened Analyze
  import opened Meaning
  import opened Resolve
  import opened Identity
  import opened Graph

  // -- Outer joins ------------------------------------------------------------------------------

  /** SELECT r.c FROM l LEFT JOIN r ON FALSE. */
  const LEFT_JOIN := Block(
    [Join(Comma, None), Join(LeftOuter, Some(Literal(Bool(false))))], None, [Selected(Col(Some("r"), "c"), None)])

  function RequiredColumn(qualifier: string, name: string): ScopedRelation {
    ScopedRelation(Some(qualifier), [Column(name, NotNull, {}, true)])
  }

  lemma LookUpRight(l: Heading, r: Heading)
    requires l == Heading(Some("l"), ["k"]) && r == Heading(Some("r"), ["c"])
    ensures Positions([l, r], Some("r"), "c", 0) == [(1, 0)]
  {
    assert Lower("l")[0] == 'l' && Lower("r")[0] == 'r';
    assert !Qualifies(l, Some("r")) && Qualifies(r, Some("r"));
    assert NameIndexes(["c"], "c", 1) == [];
    assert NameIndexes(["c"], "c", 0) == [0];
    assert Positions([l, r], Some("r"), "c", 2) == [];
    assert Positions([l, r], Some("r"), "c", 1) == Paired(1, [0]) + [];
  }

  /** The right side of a LEFT JOIN keeps its NOT NULL columns, yet an unmatched row has NULL there. */
  lemma OuterJoinKeepsNotNull(e: Engine)
    ensures var scope := [RequiredColumn("l", "k"), RequiredColumn("r", "c")];
            var columns := SelectColumns(LEFT_JOIN, BuiltScope(scope, {}, true));
            |columns| == 1 && columns[0].nullability == NotNull && columns[0].complete
    ensures var l, r := Extent(["k"], map[Key(0) := [Num(1)]]), Extent(["c"], map[]);
            var out := SelectRows(e, LEFT_JOIN, [Frame(Some("l"), l), Frame(Some("r"), r)], NO_ENV, map[]);
            var id := Combined([Some(Key(0)), None]);
            id in out.rows && out.rows[id] == [Null]
  {
    RequiredIsClaimed();
    var l, r := Extent(["k"], map[Key(0) := [Num(1)]]), Extent(["c"], map[]);
    var frames := [Frame(Some("l"), l), Frame(Some("r"), r)];
    var combo: Combo := [Some(Key(0)), None];
    UnmatchedRowIsKept(e, frames, combo);
    assert Headings(frames) == [Heading(Some("l"), ["k"]), Heading(Some("r"), ["c"])];
    assert RowsOf(frames, combo)[1] == Nulls(1);
    PaddedColumnIsNull(e, EnvOf(frames, combo));
  }

  lemma RequiredIsClaimed()
    ensures var scope := [RequiredColumn("l", "k"), RequiredColumn("r", "c")];
            var columns := SelectColumns(LEFT_JOIN, BuiltScope(scope, {}, true));
            |columns| == 1 && columns[0].nullability == NotNull && columns[0].complete
  {
    var scope := [RequiredColumn("l", "k"), RequiredColumn("r", "c")];
    var hl, hr := Heading(Some("l"), ["k"]), Heading(Some("r"), ["c"]);
    LookUpRight(hl, hr);
    assert ColumnNames([Column("k", NotNull, {}, true)]) == ["k"];
    assert ColumnNames([Column("c", NotNull, {}, true)]) == ["c"];
    assert ScopeHeadings(scope) == [hl, hr];
    assert LEFT_JOIN.projection[..0] == [];
    assert ItemColumns([], scope, {}, true) == [];
  }

  lemma PaddedColumnIsNull(e: Engine, env: Env)
    requires env.headings == [Heading(Some("l"), ["k"]), Heading(Some("r"), ["c"])]
    requires |env.rows| == 2 && env.rows[1] == Nulls(1)
    ensures OutputRow(e, LEFT_JOIN.projection, env, NO_ENV, []) == [Null]
  {
    LookUpRight(env.headings[0], env.headings[1]);
    assert OutputRow(e, [], env, NO_ENV, []) == [];
  }

  lemma UnmatchedRowIsKept(e: Engine, frames: seq<Frame<Extent>>, combo: Combo)
    requires |frames| == 2 && frames[0].table.rows.Keys == {Key(0)} && frames[1].table.rows.Keys == {}
    requires combo == [Some(Key(0)), None]
    ensures combo in KeptCombos(e, LEFT_JOIN.joins, None, frames, NO_ENV, map[])
  {
    var first: seq<Frame<Extent>> := frames[..1];
    var start: Combo := [];
    assert first[..0] == [] && Joined(e, LEFT_JOIN.joins, first[..0], NO_ENV, map[]) == {start};
    assert JoinAt(LEFT_JOIN.joins, 0) == Join(Comma, None) && first[0] == frames[0];
    assert start + [Some(Key(0))] in Matched(e, None, {start}, first, NO_ENV, map[]);
    assert start + [Some(Key(0))] == [Some(Key(0))];
    assert [Some(Key(0))] in Joined(e, LEFT_JOIN.joins, first, NO_ENV, map[]);
    assert combo == [Some(Key(0))] + [None];
  }

  // -- VALUES -----------------------------------------------------------------------------------------

  /** VALUES (1), (NULL): the first row alone decides, and it decides NOT NULL. */
  lemma FirstRowDecides(e: Engine)
    ensures var rows := [[Literal(Num(1))], [Literal(Null)]];
            var columns, out := RowColumns(rows), LiteralRows(e, rows, NO_ENV, []);
            |columns| == 1 && columns[0].nullability == NotNull && columns[0].complete
            && Key(1) in out.rows && out.rows[Key(1)] == [Null]
  {
    var rows: seq<seq<Expr>> := [[Literal(Num(1))], [Literal(Null)]];
    assert EvalExprs(e, rows[1][1..], NO_ENV, NO_ENV, []) == [];
    assert EvalExprs(e, rows[1], NO_ENV, NO_ENV, []) == [Null];
  }

  // -- The flat table of WITH columns ------------------------------------------------------------------

  /** SELECT * FROM t. */
  function ReadAll(t: string): SetExpr<Block> {
    Select(Block([Join(Comma, None)], None, [Wildcard]), {}, [Table([t], None)], [])
  }

  /**
   A WITH name of a derived table stays known after it: in
   FROM (WITH t AS (q) SELECT * FROM t) AS d, T the second item is analysed as
   q's columns, although to SQL it is a relation outside the query.
   */
  lemma InnerWithLeaks(a: Analyzer, q: Query<Block>, t: string, reference: string, alias: Option<string>, s: State)
    requires Lower(reference) == Lower(t)
    ensures var (first, after) := AnalyzeFactor(a, Derived(Query([Cte(t, q)], ReadAll(t)), alias), s);
            var second := AnalyzeFactor(a, Table([reference], None), after).0;
            second.Some? && second.value.columns == AnalyzeQuery(a, q, s).0
  {
    var inner := Query([Cte(t, q)], ReadAll(t));
    var entered := EnterCte(a, Cte(t, q), s);
    assert inner.ctes[1..] == [];
    assert AnalyzeCtes(a, inner.ctes, s) == entered;
    var from := inner.body.from;
    assert from[1..] == [];
    var relation := AnalyzeFactor(a, from[0], entered).0;
    var built := AddRelation(BuiltScope([], {}, true), JoinAt(inner.body.spec.joins, 0), relation);
    assert BuildScope(a, inner.body.spec.joins, 1, from[1..], built, entered).1 == entered;
    assert AnalyzeBody(a, inner.body, entered).1 == entered;
  }

  // -- Reads the compiler does not see -----------------------------------------------------------------

  lemma AllColumnsOf(columns: seq<Column>, qualifier: Option<string>)
    ensures WithClauses(ColumnsFor([ScopedRelation(qualifier, columns)], None), {}, true) == columns
  {
    var scope := [ScopedRelation(qualifier, columns)];
    assert scope[1..] == [];
    assert ColumnsFor(scope, None) == columns;
    var marked := WithClauses(columns, {}, true);
    forall j | 0 <= j < |columns| ensures marked[j] == columns[j] {
      assert columns[j].inputs + {} == columns[j].inputs;
    }
  }

  lemma ReadAllColumns(a: Analyzer, t: string, s: State)
    requires IsRelationName([t])
    ensures var relation := AnalyzeFactor(a, Table([t], None), s).0;
            relation.Some? && AnalyzeQuery(a, Query([], ReadAll(t)), s).0 == relation.value.columns
  {
    var q := Query([], ReadAll(t));
    var block, from := q.body.spec, q.body.from;
    var (relation, after) := AnalyzeFactor(a, from[0], s);
    assert from[1..] == [];
    var built := AddRelation(BuiltScope([], {}, true), JoinAt(block.joins, 0), relation);
    assert built == BuiltScope([relation.value], {}, true);
    assert BuildScope(a, block.joins, 0, from, BuiltScope([], {}, true), s) == (built, after);
    assert AnalyzeCtes(a, q.ctes, s) == s;
    assert block.projection[..0] == [] && block.projection[..|block.projection| - 1] == [];
    assert ItemColumns([], built.scope, {}, true) == [];
    AllColumnsOf(relation.value.columns, relation.value.qualifier);
    assert SelectColumns(block, built) == relation.value.columns;
  }

  /** WITH x AS (SELECT * FROM x) SELECT * FROM x. */
  function SelfNamed(x: string): Query<Block> {
    Query([Cte(x, Query([], ReadAll(x)))], ReadAll(x))
  }

  /**
   Where `x` names a model, the analyser enters the WITH table after its body and
   reads the model's columns, while relation extraction records no dependency.
   */
  lemma HiddenReadIsNoDependency(a: Analyzer, x: string, id: ModelId, columns: seq<SchemaColumn>)
    requires IsRelationName([x]) && a.resolve([x]) == ToModel(id)
    requires OnModel(id) in a.schemas && a.schemas[OnModel(id)] == Schema(true, columns)
    ensures References({}, SelfNamed(x)) == {}
    ensures AnalyzeQuery(a, SelfNamed(x), State(map[], false, false)).0 == SchemaColumns(OnModel(id), columns)
  {
    var q, s := SelfNamed(x), State(map[], false, false);
    ReadAllColumns(a, x, s);
    var entered := EnterCte(a, q.ctes[0], s);
    assert entered.ctes[Lower(x)] == SchemaColumns(OnModel(id), columns);
    assert q.ctes[1..] == [];
    assert AnalyzeCtes(a, q.ctes, s) == entered;
    ReadAllColumns(a, x, entered);
    assert AnalyzeBody(a, ReadAll(x), entered) == AnalyzeQuery(a, Query([], ReadAll(x)), entered);
    NoReferences(x);
  }

  lemma NoReferences(x: string)
    ensures References({}, SelfNamed(x)) == {}
  {
    var q := SelfNamed(x);
    assert Names(q.ctes) == {x} && {} + {x} == {x} && {x} + Names<Block>([]) == {x};
    var from := q.body.from;
    assert from[1..] == [];
    assert ReferencesInFrom({x}, from) == {};
    assert ReferencesInBody({x}, q.body) == {};
    assert References({x}, q.ctes[0].query) == {};
    assert q.ctes[1..] == [];
  }
}
