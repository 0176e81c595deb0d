/**
 Exactly when the analyser's NOT NULL claims hold where they are not guarded by
 the analysis: on the sides of outer joins, in VALUES, and for a WITH name that
 is known where SQL does not see it (crates/phlo-transform-core/src/analyze.rs).
 */
module NullHazards {
  import opened Wrappers
  import opened Sql
  import opened Relational
  import opened Semantic
  import opened Analyze
  import opened AnalyzeSound
  import opened AnalyzeTheorems
  import opened AnalyzeHazards

  // -- Outer joins ------------------------------------------------------------------------------

  /** Tables that have the columns a scope declares and keep its NOT NULL claims. */
  ghost predicate FramesClaim(scope: Scope, f: seq<Frame<Extent>>) {
    && |f| == |scope|
    && forall k :: 0 <= k < |scope| ==> TableClaims(scope[k].columns, f[k].table)
  }

  ghost predicate TableClaims(columns: seq<Column>, t: Extent) {
    && t.header == ColumnNames(columns) && Rectangular(t)
    && forall id :: id in t.rows ==> NullClaims(columns, t.rows[id])
  }

  predicate SameKinds(a: seq<Join>, b: seq<Join>) {
    |a| == |b| && forall k :: 0 <= k < |a| ==> a[k].kind == b[k].kind
  }

  lemma SameKindsPad(a: seq<Join>, b: seq<Join>, n: nat, k: nat)
    requires SameKinds(a, b)
    ensures Paddable(a, n, k) <==> Paddable(b, n, k)
  {
    forall m: nat ensures JoinAt(a, m).kind == JoinAt(b, m).kind {
    }
  }

  /** Whatever is joined on what conditions, every joined row keeps the scope's NOT NULL claims. */
  ghost predicate ClaimsSurvive(e: Engine, joins: seq<Join>, scope: Scope) {
    forall other: seq<Join>, f: seq<Frame<Extent>>, nested: map<Env, seq<Extent>>, combo: Combo
      {:trigger Survives(e, other, scope, f, nested, combo)} ::
      SameKinds(joins, other) && FramesClaim(scope, f) ==> Survives(e, other, scope, f, nested, combo)
  }

  ghost predicate Survives(
    e: Engine, joins: seq<Join>, scope: Scope, f: seq<Frame<Extent>>, nested: map<Env, seq<Extent>>, combo: Combo)
  {
    combo in Joined(e, joins, f, NO_ENV, nested) ==> RowsNullClaims(scope, EnvOf(f, combo))
  }

  lemma SafeSurvives(
    e: Engine, joins: seq<Join>, other: seq<Join>, scope: Scope, f: seq<Frame<Extent>>,
    nested: map<Env, seq<Extent>>, combo: Combo)
    requires SafelyPadded(joins, scope) && SameKinds(joins, other) && FramesClaim(scope, f)
    ensures Survives(e, other, scope, f, nested, combo)
  {
    if combo in Joined(e, other, f, NO_ENV, nested) {
      JoinedPicks(e, other, f, NO_ENV, nested);
      forall k | 0 <= k < |scope| ensures NullClaims(scope[k].columns, EnvOf(f, combo).rows[k]) {
        assert TableClaims(scope[k].columns, f[k].table);
        if combo[k].None? {
          assert Paddable(other, |scope|, k);
          SameKindsPad(joins, other, |scope|, k);
        }
      }
    }
  }

  // -- A padded row for every relation that can be padded -----------------------------------------------

  /** The joins without their conditions. */
  function Bare(joins: seq<Join>): (r: seq<Join>)
    ensures SameKinds(joins, r) && forall k :: 0 <= k < |r| ==> r[k].on.None?
  {
    seq(|joins|, k requires 0 <= k < |joins| => Join(joins[k].kind, None))
  }

  function Filled(n: nat): (r: Row)
    ensures |r| == n && forall j :: 0 <= j < n ==> r[j] != Null
  {
    seq(n, j => Num(0))
  }

  /** One row, or none, in each relation. */
  function FrameFor(relation: ScopedRelation, empty: bool): Frame<Extent> {
    Frame(
      relation.qualifier,
      Extent(
        ColumnNames(relation.columns), if empty then map[] else map[Key(0) := Filled(|relation.columns|)]))
  }

  function FramesFor(scope: Scope, empty: set<nat>): (f: seq<Frame<Extent>>)
    ensures |f| == |scope| && forall k :: 0 <= k < |scope| ==> f[k] == FrameFor(scope[k], k in empty)
  {
    seq(|scope|, k requires 0 <= k < |scope| => FrameFor(scope[k], k in empty))
  }

  lemma FramesForClaim(scope: Scope, empty: set<nat>)
    ensures FramesClaim(scope, FramesFor(scope, empty))
  {
    var f := FramesFor(scope, empty);
    forall k | 0 <= k < |scope| ensures TableClaims(scope[k].columns, f[k].table) {
      assert f[k] == FrameFor(scope[k], k in empty);
    }
  }

  lemma ExtendByRow(
    e: Engine, joins: seq<Join>, f: seq<Frame<Extent>>, n: nat, combo: Combo)
    requires n < |f| && JoinAt(joins, n).on.None? && Key(0) in f[n].table.rows
    requires combo in Joined(e, joins, f[..n], NO_ENV, map[])
    ensures combo + [Some(Key(0))] in Joined(e, joins, f[..n + 1], NO_ENV, map[])
  {
    var frames := f[..n + 1];
    assert frames[..n] == f[..n] && frames[|frames| - 1] == f[n];
    assert combo + [Some(Key(0))]
      in Matched(e, JoinAt(joins, n).on, Joined(e, joins, f[..n], NO_ENV, map[]), frames, NO_ENV, map[]);
  }

  lemma ExtendByPadding(e: Engine, joins: seq<Join>, f: seq<Frame<Extent>>, n: nat, combo: Combo)
    requires n < |f| && PadsLast(JoinAt(joins, n)) && f[n].table.rows == map[]
    requires combo in Joined(e, joins, f[..n], NO_ENV, map[])
    ensures combo + [None] in Joined(e, joins, f[..n + 1], NO_ENV, map[])
  {
    var frames := f[..n + 1];
    assert frames[..n] == f[..n] && frames[|frames| - 1] == f[n];
  }

  /** After `n` relations some joined row leaves the `k`th out. */
  ghost predicate LeavesOut(e: Engine, joins: seq<Join>, f: seq<Frame<Extent>>, n: nat, k: nat, combo: Combo)
    requires n <= |f|
  {
    combo in Joined(e, joins, f[..n], NO_ENV, map[]) && |combo| == n && k < n && combo[k].None?
  }

  lemma {:induction false} RowsBefore(e: Engine, joins: seq<Join>, f: seq<Frame<Extent>>, n: nat) returns (combo: Combo)
    requires n <= |f|
    requires forall i :: 0 <= i < n ==> JoinAt(joins, i).on.None? && Key(0) in f[i].table.rows
    ensures combo in Joined(e, joins, f[..n], NO_ENV, map[]) && |combo| == n
  {
    if n == 0 {
      combo := [];
    } else {
      var before := RowsBefore(e, joins, f, n - 1);
      ExtendByRow(e, joins, f, n - 1, before);
      combo := before + [Some(Key(0))];
    }
  }

  lemma {:induction false} LeavesOutAfter(
    e: Engine, joins: seq<Join>, f: seq<Frame<Extent>>, n: nat, from: nat, k: nat, first: Combo)
    returns (combo: Combo)
    requires from <= n <= |f| && LeavesOut(e, joins, f, from, k, first)
    requires forall i :: from <= i < n ==> JoinAt(joins, i).on.None? && Key(0) in f[i].table.rows
    ensures LeavesOut(e, joins, f, n, k, combo)
  {
    if n == from {
      combo := first;
    } else {
      var before := LeavesOutAfter(e, joins, f, n - 1, from, k, first);
      ExtendByRow(e, joins, f, n - 1, before);
      combo := before + [Some(Key(0))];
    }
  }

  lemma PaddedByOwnJoin(e: Engine, joins: seq<Join>, scope: Scope, k: nat) returns (combo: Combo)
    requires k < |scope| && PadsLast(JoinAt(joins, k)) && forall i :: 0 <= i < |joins| ==> joins[i].on.None?
    ensures LeavesOut(e, joins, FramesFor(scope, {k}), |scope|, k, combo)
  {
    var f := FramesFor(scope, {k});
    var before := RowsBefore(e, joins, f, k);
    ExtendByPadding(e, joins, f, k, before);
    combo := LeavesOutAfter(e, joins, f, |scope|, k + 1, k, before + [None]);
  }

  function Below(n: nat): (r: set<nat>)
    ensures forall i :: i in r <==> 0 <= i < n
  {
    if n == 0 then {} else Below(n - 1) + {n - 1}
  }

  /** Over empty relations a joined row is all padding. */
  lemma EmptyIsPadding(e: Engine, joins: seq<Join>, f: seq<Frame<Extent>>, n: nat, combo: Combo)
    requires n <= |f| && forall i :: 0 <= i < n ==> f[i].table.rows == map[]
    requires combo in Joined(e, joins, f[..n], NO_ENV, map[])
    ensures combo == Padding(n)
  {
    JoinedPicks(e, joins, f[..n], NO_ENV, map[]);
    assert Picks(combo, f[..n]);
    var padding := Padding(n);
    forall i | 0 <= i < n ensures combo[i] == padding[i] {
      assert f[..n][i] == f[i];
    }
  }

  lemma PaddedByLaterJoin(e: Engine, joins: seq<Join>, scope: Scope, k: nat, m: nat) returns (combo: Combo)
    requires k < m < |scope| && PadsEarlier(JoinAt(joins, m)) && forall i :: 0 <= i < |joins| ==> joins[i].on.None?
    ensures LeavesOut(e, joins, FramesFor(scope, Below(m)), |scope|, k, combo)
  {
    var f := FramesFor(scope, Below(m));
    var combos := Joined(e, joins, f[..m], NO_ENV, map[]);
    var first := Padding(m) + [Some(Key(0))];
    if c :| c in combos {
      EmptyIsPadding(e, joins, f, m, c);
      ExtendByRow(e, joins, f, m, c);
    } else {
      var frames := f[..m + 1];
      assert frames[..m] == f[..m] && frames[|frames| - 1] == f[m];
      assert Key(0) in frames[|frames| - 1].table.rows;
    }
    assert LeavesOut(e, joins, f, m + 1, k, first);
    combo := LeavesOutAfter(e, joins, f, |scope|, m + 1, k, first);
  }

  lemma PaddedRow(e: Engine, joins: seq<Join>, scope: Scope, k: nat) returns (empty: set<nat>, combo: Combo)
    requires Paddable(joins, |scope|, k) && forall i :: 0 <= i < |joins| ==> joins[i].on.None?
    ensures LeavesOut(e, joins, FramesFor(scope, empty), |scope|, k, combo)
  {
    if PadsLast(JoinAt(joins, k)) {
      empty := {k};
      combo := PaddedByOwnJoin(e, joins, scope, k);
    } else {
      var m :| k < m < |scope| && PadsEarlier(JoinAt(joins, m));
      empty := Below(m);
      combo := PaddedByLaterJoin(e, joins, scope, k, m);
    }
  }

  lemma LeftOutBreaks(
    e: Engine, joins: seq<Join>, scope: Scope, f: seq<Frame<Extent>>, k: nat, j: nat, combo: Combo)
    requires |f| == |scope| && LeavesOut(e, joins, f, |scope|, k, combo)
    requires j < |scope[k].columns| && scope[k].columns[j].nullability == NotNull
    ensures !Survives(e, joins, scope, f, map[], combo)
  {
    assert f[..|scope|] == f;
    assert EnvOf(f, combo).rows[k] == Nulls(|f[k].table.header|);
    assert !NullClaims(scope[k].columns, EnvOf(f, combo).rows[k]);
  }

  /** A relation the joins can pad, with a NOT NULL column, has tables for which a joined row breaks the claim. */
  lemma PaddedClaimBreaks(e: Engine, joins: seq<Join>, scope: Scope, k: nat, j: nat)
    requires k < |scope| && Paddable(joins, |scope|, k)
    requires j < |scope[k].columns| && scope[k].columns[j].nullability == NotNull
    ensures !ClaimsSurvive(e, joins, scope)
  {
    var bare := Bare(joins);
    SameKindsPad(joins, bare, |scope|, k);
    var empty, combo := PaddedRow(e, bare, scope, k);
    FramesForClaim(scope, empty);
    LeftOutBreaks(e, bare, scope, FramesFor(scope, empty), k, j, combo);
  }

  /**
   NOT NULL claims survive joins of given kinds, whatever the tables and the
   conditions, if and only if no relation the joins can pad has such a column.
   */
  lemma SafePaddingExactly(e: Engine, joins: seq<Join>, scope: Scope)
    ensures ClaimsSurvive(e, joins, scope) <==> SafelyPadded(joins, scope)
  {
    if SafelyPadded(joins, scope) {
      forall other: seq<Join>, f: seq<Frame<Extent>>, nested: map<Env, seq<Extent>>, combo: Combo
        | SameKinds(joins, other) && FramesClaim(scope, f)
        ensures Survives(e, other, scope, f, nested, combo)
      {
        SafeSurvives(e, joins, other, scope, f, nested, combo);
      }
    } else {
      var k, j :| 0 <= k < |scope| && Paddable(joins, |scope|, k) && 0 <= j < |scope[k].columns|
        && scope[k].columns[j].nullability == NotNull;
      PaddedClaimBreaks(e, joins, scope, k, j);
    }
  }

  // -- VALUES ---------------------------------------------------------------------------------------

  predicate AllLiterals(rows: seq<seq<Expr>>) {
    forall i :: 0 <= i < |rows| ==>
      |rows[i]| == |rows[0]| && forall j :: 0 <= j < |rows[i]| ==> rows[i][j].Literal?
  }

  /** No later row has a NULL where the first has a value. */
  predicate FirstRowIsNullest(rows: seq<seq<Expr>>)
    requires AllLiterals(rows)
  {
    forall i, j :: 0 <= i < |rows| && 0 <= j < |rows[i]| ==> rows[0][j].value != Null ==> rows[i][j].value != Null
  }

  lemma {:induction false} LiteralsEvaluate(e: Engine, row: seq<Expr>, j: nat)
    requires j < |row| && forall i :: 0 <= i < |row| ==> row[i].Literal?
    ensures |EvalExprs(e, row, NO_ENV, NO_ENV, [])| == |row|
    ensures EvalExprs(e, row, NO_ENV, NO_ENV, [])[j] == row[j].value
  {
    if j > 0 {
      LiteralsEvaluate(e, row[1..], j - 1);
    } else if |row| > 1 {
      LiteralsEvaluate(e, row[1..], 0);
    }
  }

  lemma RowClaims(e: Engine, rows: seq<seq<Expr>>, i: nat)
    requires AllLiterals(rows) && i < |rows|
    ensures NullClaims(RowColumns(rows), EvalExprs(e, rows[i], NO_ENV, NO_ENV, []))
       <==> forall j :: 0 <= j < |rows[i]| ==> rows[0][j].value != Null ==> rows[i][j].value != Null
  {
    var columns, row := RowColumns(rows), EvalExprs(e, rows[i], NO_ENV, NO_ENV, []);
    if rows[i] == [] {
      assert row == [];
    }
    forall j | 0 <= j < |rows[i]|
      ensures |row| == |rows[i]| && row[j] == rows[i][j].value
      ensures columns[j].nullability == NotNull <==> rows[0][j].value != Null
    {
      LiteralsEvaluate(e, rows[i], j);
      assert rows[0][j].Literal?;
    }
  }

  /** The NOT NULL claims of literal VALUES hold of every row if and only if no row has a NULL the first has not. */
  lemma ValuesExactly(e: Engine, rows: seq<seq<Expr>>)
    requires AllLiterals(rows)
    ensures (forall id :: id in LiteralRows(e, rows, NO_ENV, []).rows ==>
               NullClaims(RowColumns(rows), LiteralRows(e, rows, NO_ENV, []).rows[id]))
       <==> FirstRowIsNullest(rows)
  {
    var out := LiteralRows(e, rows, NO_ENV, []);
    forall i | 0 <= i < |rows|
      ensures Key(i) in out.rows && out.rows[Key(i)] == EvalExprs(e, rows[i], NO_ENV, NO_ENV, [])
      ensures NullClaims(RowColumns(rows), out.rows[Key(i)])
         <==> forall j :: 0 <= j < |rows[i]| ==> rows[0][j].value != Null ==> rows[i][j].value != Null
    {
      RowClaims(e, rows, i);
    }
  }

  // -- WITH names known too widely --------------------------------------------------------------------

  /** A row with a NULL wherever the columns allow one. */
  function Nullest(columns: seq<Column>): (r: Row)
    ensures |r| == |columns|
    ensures forall j :: 0 <= j < |columns| ==> (r[j] != Null <==> columns[j].nullability == NotNull)
  {
    seq(|columns|, j requires 0 <= j < |columns| => if columns[j].nullability == NotNull then Num(0) else Null)
  }

  /** Every relation has the columns its schema declares, and one row with all the NULLs it may have. */
  function NullestDatabase(a: Analyzer): Name -> Extent {
    name =>
      var columns := BaseColumns(a, name).0;
      Extent(ColumnNames(columns), map[Key(0) := Nullest(columns)])
  }

  lemma NullestMatches(a: Analyzer)
    ensures MatchesSchemas(a, NullestDatabase(a), true)
  {
  }

  /** Columns with the same names that claim no more. */
  ghost predicate ClaimsNoMore(claimed: seq<Column>, actual: seq<Column>) {
    && ColumnNames(claimed) == ColumnNames(actual)
    && forall j :: 0 <= j < |claimed| && j < |actual| ==>
         claimed[j].nullability == NotNull ==> actual[j].nullability == NotNull
  }

  lemma SameNamesSameCount(a: seq<Column>, b: seq<Column>)
    requires ColumnNames(a) == ColumnNames(b)
    ensures |a| == |b|
  {
    assert |ColumnNames(a)| == |a| && |ColumnNames(b)| == |b|;
  }

  /**
   A reference outside every WITH scope, taken for a WITH table: what the analyser
   says of it holds of the relation it evaluates to, over every database that
   matches the schemas, if and only if it claims no more than the relation's own
   schema.
   */
  lemma LeakedNameExactly(a: Analyzer, e: Engine, claimed: seq<Column>, x: string, alias: Option<string>)
    requires KnownRelation(a, [x])
    ensures (forall db :: MatchesSchemas(a, db, true) ==>
               TableClaims(claimed, EvalFactor(MeaningOf(e), Table([x], alias), db, map[]).table))
       <==> ClaimsNoMore(claimed, BaseColumns(a, [x]).0)
  {
    var actual := BaseColumns(a, [x]).0;
    if ClaimsNoMore(claimed, actual) {
      SameNamesSameCount(claimed, actual);
      forall db | MatchesSchemas(a, db, true) ensures TableClaims(claimed, db([x])) {
        forall id | id in db([x]).rows ensures NullClaims(claimed, db([x]).rows[id]) {
          assert NullClaims(actual, db([x]).rows[id]);
        }
      }
    } else {
      var db := NullestDatabase(a);
      NullestMatches(a);
      assert db([x]).rows[Key(0)] == Nullest(actual);
      if TableClaims(claimed, db([x])) {
        SameNamesSameCount(claimed, actual);
        assert false;
      }
    }
  }

  /**
   In FROM (WITH t AS (q) SELECT * FROM t) AS d, x, with `x` the name `t` up to
   case, the analyser's claims about `x` are those about `q`; they hold of the
   relation `x` exactly if they are no more than its schema's.
   */
  lemma InnerWithLeaksExactly(
    a: Analyzer, e: Engine, q: Query<Block>, t: string, x: string, alias: Option<string>, s: State)
    requires Lower(x) == Lower(t) && KnownRelation(a, [x])
    ensures var after := AnalyzeFactor(a, Derived(Query([Cte(t, q)], ReadAll(t)), alias), s).1;
            var second := AnalyzeFactor(a, Table([x], None), after).0;
            && second.Some?
            && ((forall db :: MatchesSchemas(a, db, true) ==>
                   TableClaims(
                     second.value.columns, EvalFactor(MeaningOf(e), Table([x], None), db, map[]).table))
                <==> ClaimsNoMore(AnalyzeQuery(a, q, s).0, BaseColumns(a, [x]).0))
  {
    InnerWithLeaks(a, q, t, x, alias, s);
    LeakedNameExactly(a, e, AnalyzeQuery(a, q, s).0, x, None);
  }
}
