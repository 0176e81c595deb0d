/**
 Nullability and lineage soundness of whole queries
 (crates/phlo-transform-core/src/analyze.rs).
 */
module AnalyzeTheorems {
  import opened Wrappers
  import opened Sql
  import opened Resolve
  import opened Relational
  import opened Semantic
  import opened Analyze
  import opened AnalyzeSound
  import Lineage

  /**
   Two databases under one analysis. They are compared on what flows from the
   columns in `direct`; `nulls` says whether NULLs in `x` are followed as well.
   */
  datatype World = World(
    e: Engine, a: Analyzer, x: Name -> Extent, y: Name -> Extent, direct: set<ColumnRef>, nulls: bool)

  /** What the analyser says about a relation's columns holds of its extents in the two databases. */
  ghost predicate Supports(w: World, columns: seq<Column>, s: Extent, t: Extent) {
    && s.header == ColumnNames(columns) && t.header == ColumnNames(columns)
    && Rectangular(s) && Rectangular(t)
    && (w.nulls ==> forall id :: id in s.rows ==> NullClaims(columns, s.rows[id]))
    && forall id :: id in s.rows && id in t.rows ==> SameClaims(columns, s.rows[id], t.rows[id], w.direct)
  }

  // -- Joins ------------------------------------------------------------------------------------

  ghost predicate FrameSupports(
    w: World, quals: set<string>, relation: ScopedRelation, f: Frame<Extent>, g: Frame<Extent>)
  {
    && Supports(w, relation.columns, f.table, g.table)
    && f == Masked(quals, Frame(relation.qualifier, f.table)) && g == Masked(quals, Frame(relation.qualifier, g.table))
  }

  ghost predicate FramesSupport(
    w: World, quals: set<string>, scope: Scope, f: seq<Frame<Extent>>, g: seq<Frame<Extent>>)
  {
    && |f| == |scope| && |g| == |scope|
    && forall k :: 0 <= k < |scope| ==> FrameSupports(w, quals, scope[k], f[k], g[k])
  }

  /** A combination takes each relation's row from that relation. */
  ghost predicate Picks(combo: Combo, frames: seq<Frame<Extent>>) {
    && |combo| == |frames|
    && forall k :: 0 <= k < |frames| && combo[k].Some? ==> combo[k].value in frames[k].table.rows
  }

  predicate PadsLast(join: Join) {
    join.kind.LeftOuter? || join.kind.FullOuter?
  }

  predicate PadsEarlier(join: Join) {
    join.kind.RightOuter? || join.kind.FullOuter?
  }

  /** The joins can leave the `k`th of `n` relations without a row. */
  predicate Paddable(joins: seq<Join>, n: nat, k: nat) {
    k < n && (PadsLast(JoinAt(joins, k)) || exists m :: k < m < n && PadsEarlier(JoinAt(joins, m)))
  }

  ghost predicate OnlyPaddable(joins: seq<Join>, combo: Combo) {
    forall k :: 0 <= k < |combo| && combo[k].None? ==> Paddable(joins, |combo|, k)
  }

  /** No relation the joins can leave without a row has a NOT NULL column. */
  predicate SafelyPadded(joins: seq<Join>, scope: Scope) {
    forall k, j ::
      0 <= k < |scope| && Paddable(joins, |scope|, k) && 0 <= j < |scope[k].columns| ==>
        scope[k].columns[j].nullability != NotNull
  }

  /** The columns without their NOT NULL claims. */
  function Relaxed(columns: seq<Column>): (r: seq<Column>)
    ensures |r| == |columns|
    ensures forall j :: 0 <= j < |columns| ==>
              r[j] == if columns[j].nullability == NotNull then columns[j].(nullability := Nullable) else columns[j]
  {
    if columns == [] then []
    else
      [if columns[0].nullability == NotNull then columns[0].(nullability := Nullable) else columns[0]]
      + Relaxed(columns[1..])
  }

  function RelaxedAt(joins: seq<Join>, scope: Scope, k: nat): ScopedRelation
    requires k < |scope|
  {
    if Paddable(joins, |scope|, k) then scope[k].(columns := Relaxed(scope[k].columns)) else scope[k]
  }

  /** The scope without the NOT NULL claims of the relations that the joins can leave without a row. */
  function RelaxedScope(joins: seq<Join>, scope: Scope): (r: Scope)
    ensures |r| == |scope| && forall k :: 0 <= k < |scope| ==> r[k] == RelaxedAt(joins, scope, k)
  {
    seq(|scope|, k requires 0 <= k < |scope| => RelaxedAt(joins, scope, k))
  }

  /**
   Every output column claimed NOT NULL would be claimed so without the claims of
   the relations that the joins can leave without a row.
   */
  predicate ClaimsOutlastPadding(block: Block, built: BuiltScope)
    requires block.Block?
  {
    var columns := SelectColumns(block, built);
    var relaxed := SelectColumns(block, built.(scope := RelaxedScope(block.joins, built.scope)));
    forall j :: 0 <= j < |columns| && columns[j].nullability == NotNull ==>
      j < |relaxed| && relaxed[j].nullability == NotNull
  }

  /** Which is so whenever those relations make no claim. */
  lemma SafelyPaddedOutlasts(block: Block, built: BuiltScope)
    requires block.Block? && SafelyPadded(block.joins, built.scope)
    ensures ClaimsOutlastPadding(block, built)
  {
    var relaxed := RelaxedScope(block.joins, built.scope);
    forall k | 0 <= k < |relaxed| ensures relaxed[k] == built.scope[k] {
      assert relaxed[k] == RelaxedAt(block.joins, built.scope, k);
      if Paddable(block.joins, |built.scope|, k) {
        assert Relaxed(built.scope[k].columns) == built.scope[k].columns;
      }
    }
    assert relaxed == built.scope;
  }

  lemma RelaxedIsSafe(joins: seq<Join>, scope: Scope)
    ensures SafelyPadded(joins, RelaxedScope(joins, scope))
  {
    var relaxed := RelaxedScope(joins, scope);
    forall k, j | 0 <= k < |relaxed| && Paddable(joins, |relaxed|, k) && 0 <= j < |relaxed[k].columns|
      ensures relaxed[k].columns[j].nullability != NotNull
    {
      assert relaxed[k] == RelaxedAt(joins, scope, k);
    }
  }

  lemma RelaxedSupports(
    w: World, quals: set<string>, joins: seq<Join>, scope: Scope, f: seq<Frame<Extent>>, g: seq<Frame<Extent>>)
    requires FramesSupport(w, quals, scope, f, g)
    ensures FramesSupport(w, quals, RelaxedScope(joins, scope), f, g)
  {
    var relaxed := RelaxedScope(joins, scope);
    forall k | 0 <= k < |scope| ensures FrameSupports(w, quals, relaxed[k], f[k], g[k]) {
      assert FrameSupports(w, quals, scope[k], f[k], g[k]);
      assert relaxed[k] == RelaxedAt(joins, scope, k);
      SupportsRelaxed(w, scope[k].columns, f[k].table, g[k].table);
    }
  }

  lemma SupportsRelaxed(w: World, columns: seq<Column>, s: Extent, t: Extent)
    requires Supports(w, columns, s, t)
    ensures Supports(w, Relaxed(columns), s, t)
  {
    assert ColumnNames(Relaxed(columns)) == ColumnNames(columns);
  }

  /** A joined combination extends an earlier one, or pads everything before its last row. */
  lemma JoinLastExtends(
    e: Engine, join: Join, combos: set<Combo>, frames: seq<Frame<Extent>>, outer: Env, nested: map<Env, seq<Extent>>,
    combo: Combo) returns (before: Combo, last: Option<RowId>)
    requires frames != [] && combo in JoinLast(e, join, combos, frames, outer, nested)
    ensures combo == before + [last]
    ensures last.Some? ==> last.value in frames[|frames| - 1].table.rows
    ensures before in combos || (PadsEarlier(join) && before == Padding(|frames| - 1))
    ensures last.None? ==> PadsLast(join)
  {
    var matched := Matched(e, join.on, combos, frames, outer, nested);
    if combo in matched {
      var c, id :| c in combos && id in frames[|frames| - 1].table.rows && combo == c + [Some(id)];
      before, last := c, Some(id);
    } else if PadsLast(join) && exists c :: c in combos && combo == c + [None] {
      var c :| c in combos && combo == c + [None];
      before, last := c, None;
    } else {
      var id :| id in frames[|frames| - 1].table.rows && combo == Padding(|frames| - 1) + [Some(id)];
      before, last := Padding(|frames| - 1), Some(id);
    }
  }

  lemma PicksAppend(before: Combo, last: Option<RowId>, frames: seq<Frame<Extent>>)
    requires frames != [] && Picks(before, frames[..|frames| - 1])
    requires last.Some? ==> last.value in frames[|frames| - 1].table.rows
    ensures Picks(before + [last], frames)
  {
  }

  ghost predicate AllPick(combos: set<Combo>, frames: seq<Frame<Extent>>, joins: seq<Join>) {
    forall c :: c in combos ==> Picks(c, frames) && OnlyPaddable(joins, c)
  }

  lemma PaddableAppend(joins: seq<Join>, before: Combo, last: Option<RowId>)
    requires OnlyPaddable(joins, before) || PadsEarlier(JoinAt(joins, |before|))
    requires last.None? ==> PadsLast(JoinAt(joins, |before|))
    ensures OnlyPaddable(joins, before + [last])
  {
    var combo := before + [last];
    forall k | 0 <= k < |combo| && combo[k].None? ensures Paddable(joins, |combo|, k) {
      if k < |before| && OnlyPaddable(joins, before) {
        assert Paddable(joins, |before|, k);
      }
    }
  }

  lemma JoinLastPick(
    e: Engine, joins: seq<Join>, combos: set<Combo>, frames: seq<Frame<Extent>>, outer: Env,
    nested: map<Env, seq<Extent>>, combo: Combo)
    requires frames != [] && AllPick(combos, frames[..|frames| - 1], joins)
    requires combo in JoinLast(e, JoinAt(joins, |frames| - 1), combos, frames, outer, nested)
    ensures Picks(combo, frames) && OnlyPaddable(joins, combo)
  {
    var before, last := JoinLastExtends(e, JoinAt(joins, |frames| - 1), combos, frames, outer, nested, combo);
    if before !in combos {
      PaddingPicks(frames[..|frames| - 1]);
    }
    PicksAppend(before, last, frames);
    PaddableAppend(joins, before, last);
  }

  lemma PaddingPicks(frames: seq<Frame<Extent>>)
    ensures Picks(Padding(|frames|), frames)
  {
  }

  lemma {:induction false} JoinedPicks(
    e: Engine, joins: seq<Join>, frames: seq<Frame<Extent>>, outer: Env, nested: map<Env, seq<Extent>>)
    ensures AllPick(Joined(e, joins, frames, outer, nested), frames, joins)
  {
    if frames != [] {
      var n := |frames| - 1;
      var combos := Joined(e, joins, frames[..n], outer, nested);
      JoinedPicks(e, joins, frames[..n], outer, nested);
      forall combo | combo in Joined(e, joins, frames, outer, nested)
        ensures Picks(combo, frames) && OnlyPaddable(joins, combo)
      {
        JoinLastPick(e, joins, combos, frames, outer, nested, combo);
      }
    }
  }

  lemma FramesDescribe(
      w: World, quals: set<string>, scope: Scope, f: seq<Frame<Extent>>, g: seq<Frame<Extent>>, combo: Combo)
    requires FramesSupport(w, quals, scope, f, g)
    ensures Describes(quals, scope, EnvOf(f, combo)) && Describes(quals, scope, EnvOf(g, combo))
    ensures EnvOf(f, combo).headings == EnvOf(g, combo).headings
  {
    forall k | 0 <= k < |scope|
      ensures HeadingOf(f[k]) == MaskHeading(quals, ScopeHeadings(scope)[k]) == HeadingOf(g[k])
    {
      assert FrameSupports(w, quals, scope[k], f[k], g[k]);
    }
    assert Headings(f) == Headings(g);
  }

  lemma PickedNotNull(
    w: World, quals: set<string>, joins: seq<Join>, scope: Scope, f: seq<Frame<Extent>>, g: seq<Frame<Extent>>,
    combo: Combo)
    requires FramesSupport(w, quals, scope, f, g) && w.nulls && Picks(combo, f)
    requires OnlyPaddable(joins, combo) && SafelyPadded(joins, scope)
    ensures RowsNullClaims(scope, EnvOf(f, combo))
  {
    forall k | 0 <= k < |scope| ensures NullClaims(scope[k].columns, EnvOf(f, combo).rows[k]) {
      assert FrameSupports(w, quals, scope[k], f[k], g[k]);
      if combo[k].None? {
        assert Paddable(joins, |scope|, k);
      }
    }
  }

  lemma PickedWidths(
    w: World, quals: set<string>, scope: Scope, f: seq<Frame<Extent>>, g: seq<Frame<Extent>>, combo: Combo)
    requires FramesSupport(w, quals, scope, f, g) && Picks(combo, f)
    ensures RowsSameClaims(scope, EnvOf(f, combo), EnvOf(f, combo), {})
  {
    forall k | 0 <= k < |scope|
      ensures SameClaims(scope[k].columns, EnvOf(f, combo).rows[k], EnvOf(f, combo).rows[k], {})
    {
      assert FrameSupports(w, quals, scope[k], f[k], g[k]);
    }
  }

  lemma PickedSame(
    w: World, quals: set<string>, scope: Scope, f: seq<Frame<Extent>>, g: seq<Frame<Extent>>, combo: Combo)
    requires FramesSupport(w, quals, scope, f, g) && Picks(combo, f) && Picks(combo, g)
    ensures RowsSameClaims(scope, EnvOf(f, combo), EnvOf(g, combo), w.direct)
  {
    forall k | 0 <= k < |scope|
      ensures SameClaims(scope[k].columns, EnvOf(f, combo).rows[k], EnvOf(g, combo).rows[k], w.direct)
    {
      assert FrameSupports(w, quals, scope[k], f[k], g[k]);
    }
  }

  // -- Blocks --------------------------------------------------------------------------------------

  predicate CoversBlock(quals: set<string>, block: Block)
    requires block.Block?
  {
    && CoversItems(quals, block.projection)
    && (block.selection.Some? ==> Covers(quals, block.selection.value))
    && forall k :: 0 <= k < |block.joins| && block.joins[k].on.Some? ==> Covers(quals, block.joins[k].on.value)
  }

  lemma RowNotNull(
    w: World, quals: set<string>, block: Block, built: BuiltScope, f: seq<Frame<Extent>>, g: seq<Frame<Extent>>,
    m: map<Env, seq<Extent>>, combo: Combo)
    requires block.Block? && CoversBlock(quals, block) && w.nulls && Strict(w.e) && ClaimsOutlastPadding(block, built)
    requires FramesSupport(w, quals, built.scope, f, g)
    requires combo in Joined(w.e, block.joins, f, NO_ENV, m)
    ensures var row := OutputRow(w.e, block.projection, EnvOf(f, combo), NO_ENV, NestedFor(m, EnvOf(f, combo)));
            var columns := SelectColumns(block, built);
            forall j :: 0 <= j < |columns| && columns[j].nullability == NotNull ==> j < |row| && row[j] != Null
  {
    var scope := RelaxedScope(block.joins, built.scope);
    var (indirect, complete) := Clauses(block, built.(scope := scope));
    RelaxedIsSafe(block.joins, built.scope);
    RelaxedSupports(w, quals, block.joins, built.scope, f, g);
    JoinedPicks(w.e, block.joins, f, NO_ENV, m);
    FramesDescribe(w, quals, scope, f, g, combo);
    PickedNotNull(w, quals, block.joins, scope, f, g, combo);
    OutputNotNull(
      w.e, quals, block.projection, scope, indirect, complete, EnvOf(f, combo), NO_ENV,
      NestedFor(m, EnvOf(f, combo)));
  }

  lemma RowSupports(
    w: World, quals: set<string>, block: Block, built: BuiltScope, f: seq<Frame<Extent>>, g: seq<Frame<Extent>>,
    m: map<Env, seq<Extent>>, n: map<Env, seq<Extent>>, combo: Combo)
    requires block.Block? && CoversBlock(quals, block)
    requires w.nulls ==> Strict(w.e) && ClaimsOutlastPadding(block, built)
    requires FramesSupport(w, quals, built.scope, f, g)
    requires combo in Joined(w.e, block.joins, f, NO_ENV, m)
    ensures var row := OutputRow(w.e, block.projection, EnvOf(f, combo), NO_ENV, NestedFor(m, EnvOf(f, combo)));
            |row| == |SelectColumns(block, built)| && (w.nulls ==> NullClaims(SelectColumns(block, built), row))
    ensures combo in Joined(w.e, block.joins, g, NO_ENV, n) ==>
              SameClaims(
                SelectColumns(block, built),
                OutputRow(w.e, block.projection, EnvOf(f, combo), NO_ENV, NestedFor(m, EnvOf(f, combo))),
                OutputRow(w.e, block.projection, EnvOf(g, combo), NO_ENV, NestedFor(n, EnvOf(g, combo))), w.direct)
  {
    var (indirect, complete) := Clauses(block, built);
    JoinedPicks(w.e, block.joins, f, NO_ENV, m);
    FramesDescribe(w, quals, built.scope, f, g, combo);
    if w.nulls {
      RowNotNull(w, quals, block, built, f, g, m, combo);
    }
    if combo in Joined(w.e, block.joins, g, NO_ENV, n) {
      JoinedPicks(w.e, block.joins, g, NO_ENV, n);
      PickedSame(w, quals, built.scope, f, g, combo);
      OutputSame(
        w.e, quals, block.projection, built.scope, indirect, complete, EnvOf(f, combo), EnvOf(g, combo),
        NestedFor(m, EnvOf(f, combo)), NestedFor(n, EnvOf(g, combo)), w.direct);
    }
    PickedWidths(w, quals, built.scope, f, g, combo);
    OutputSame(
      w.e, quals, block.projection, built.scope, indirect, complete, EnvOf(f, combo), EnvOf(f, combo),
      NestedFor(m, EnvOf(f, combo)), NestedFor(m, EnvOf(f, combo)), {});
  }

  /** A block's output columns say what holds of its rows. */
  lemma SelectSupports(
    w: World, quals: set<string>, block: Block, built: BuiltScope, f: seq<Frame<Extent>>, g: seq<Frame<Extent>>,
    m: map<Env, seq<Extent>>, n: map<Env, seq<Extent>>)
    requires block.Block? && CoversBlock(quals, block)
    requires w.nulls ==> Strict(w.e) && ClaimsOutlastPadding(block, built)
    requires FramesSupport(w, quals, built.scope, f, g)
    ensures Supports(
              w, SelectColumns(block, built),
              SelectRows(w.e, block, f, NO_ENV, m), SelectRows(w.e, block, g, NO_ENV, n))
  {
    var columns := SelectColumns(block, built);
    var s, t := SelectRows(w.e, block, f, NO_ENV, m), SelectRows(w.e, block, g, NO_ENV, n);
    SelectNamed(w, quals, block, built, f, g);
    forall id | id in s.rows ensures |s.rows[id]| == |columns| && (w.nulls ==> NullClaims(columns, s.rows[id])) {
      RowSupports(w, quals, block, built, f, g, m, n, id.combo);
    }
    forall id | id in t.rows ensures |t.rows[id]| == |columns| {
      FramesSwap(w, quals, built.scope, f, g);
      RowSupports(Swapped(w), quals, block, built, g, f, n, m, id.combo);
    }
    forall id | id in s.rows && id in t.rows ensures SameClaims(columns, s.rows[id], t.rows[id], w.direct) {
      RowSupports(w, quals, block, built, f, g, m, n, id.combo);
    }
  }

  lemma SelectNamed(
    w: World, quals: set<string>, block: Block, built: BuiltScope, f: seq<Frame<Extent>>, g: seq<Frame<Extent>>)
    requires block.Block? && CoversBlock(quals, block) && FramesSupport(w, quals, built.scope, f, g)
    ensures OutputNames(block.projection, Headings(f)) == ColumnNames(SelectColumns(block, built))
    ensures OutputNames(block.projection, Headings(g)) == ColumnNames(SelectColumns(block, built))
  {
    var (indirect, complete) := Clauses(block, built);
    FramesDescribe(w, quals, built.scope, f, g, []);
    OutputNamed(quals, block.projection, built.scope, indirect, complete, Headings(f));
    OutputNamed(quals, block.projection, built.scope, indirect, complete, Headings(g));
  }

  /** The databases the other way round; NULLs in `y` are not followed. */
  function Swapped(w: World): World {
    w.(x := w.y, y := w.x, nulls := false)
  }

  lemma FramesSwap(
    w: World, quals: set<string>, scope: Scope, f: seq<Frame<Extent>>, g: seq<Frame<Extent>>)
    requires FramesSupport(w, quals, scope, f, g)
    ensures FramesSupport(Swapped(w), quals, scope, g, f)
  {
    forall k | 0 <= k < |scope| ensures FrameSupports(Swapped(w), quals, scope[k], g[k], f[k]) {
      assert FrameSupports(w, quals, scope[k], f[k], g[k]);
    }
  }

  // -- VALUES and set operations --------------------------------------------------------------------

  /** No later row is analysed to less than the first, which decides for the column. */
  ghost predicate FirstRowSpeaks(quals: set<string>, rows: seq<seq<Expr>>) {
    forall i :: 0 <= i < |rows| ==> CoversAll(quals, rows[i]) && AtLeastAsKnown(rows[i], rows[0])
  }

  ghost predicate AtLeastAsKnown(row: seq<Expr>, first: seq<Expr>) {
    && |row| == |first|
    && forall j :: 0 <= j < |row| ==>
         var i, k := Infer(row[j], []), Infer(first[j], []);
         && (k.nullability == NotNull ==> i.nullability == NotNull)
         && (k.complete ==> i.complete && i.inputs <= k.inputs)
  }

  lemma {:induction false} ExprAt(
    e: Engine, quals: set<string>, exprs: seq<Expr>, env: Env, outer: Env, nested: seq<Extent>, j: nat)
    requires j < |exprs| && CoversAll(quals, exprs)
    ensures EvalExprs(e, exprs, env, outer, nested)[j] == EvalExpr(e, exprs[j], env, outer, nested)
    ensures Covers(quals, exprs[j])
  {
    if j > 0 {
      ExprAt(e, quals, exprs[1..], env, outer, nested, j - 1);
    }
  }

  lemma LiteralNotNull(w: World, quals: set<string>, rows: seq<seq<Expr>>, i: nat, nested: seq<Extent>)
    requires w.nulls && Strict(w.e) && FirstRowSpeaks(quals, rows) && i < |rows|
    ensures NullClaims(RowColumns(rows), EvalExprs(w.e, rows[i], NO_ENV, NO_ENV, nested))
  {
    var row := EvalExprs(w.e, rows[i], NO_ENV, NO_ENV, nested);
    assert AtLeastAsKnown(rows[i], rows[0]);
    forall j | 0 <= j < |row| && RowColumns(rows)[j].nullability == NotNull ensures row[j] != Null {
      ExprAt(w.e, quals, rows[i], NO_ENV, NO_ENV, nested, j);
      InferNotNull(w.e, quals, rows[i][j], [], NO_ENV, NO_ENV, nested);
    }
  }

  lemma LiteralSame(
    w: World, quals: set<string>, rows: seq<seq<Expr>>, i: nat, nested: seq<Extent>, nested': seq<Extent>)
    requires FirstRowSpeaks(quals, rows) && i < |rows|
    ensures SameClaims(
              RowColumns(rows), EvalExprs(w.e, rows[i], NO_ENV, NO_ENV, nested),
              EvalExprs(w.e, rows[i], NO_ENV, NO_ENV, nested'), w.direct)
  {
    var columns := RowColumns(rows);
    var row, other := EvalExprs(w.e, rows[i], NO_ENV, NO_ENV, nested), EvalExprs(w.e, rows[i], NO_ENV, NO_ENV, nested');
    assert AtLeastAsKnown(rows[i], rows[0]);
    forall j | 0 <= j < |row| && columns[j].complete && DirectRefs(columns[j].inputs) <= w.direct
      ensures row[j] == other[j]
    {
      ExprAt(w.e, quals, rows[i], NO_ENV, NO_ENV, nested, j);
      ExprAt(w.e, quals, rows[i], NO_ENV, NO_ENV, nested', j);
      InferDepends(w.e, quals, rows[i][j], [], NO_ENV, NO_ENV, NO_ENV, nested, nested', w.direct);
    }
  }

  lemma RowsSupport(w: World, quals: set<string>, rows: seq<seq<Expr>>, nested: seq<Extent>, nested': seq<Extent>)
    requires (w.nulls ==> Strict(w.e)) && FirstRowSpeaks(quals, rows)
    ensures Supports(
              w, RowColumns(rows), LiteralRows(w.e, rows, NO_ENV, nested), LiteralRows(w.e, rows, NO_ENV, nested'))
  {
    var s, t := LiteralRows(w.e, rows, NO_ENV, nested), LiteralRows(w.e, rows, NO_ENV, nested');
    forall i | 0 <= i < |rows|
      ensures w.nulls ==> NullClaims(RowColumns(rows), EvalExprs(w.e, rows[i], NO_ENV, NO_ENV, nested))
      ensures SameClaims(
                RowColumns(rows), EvalExprs(w.e, rows[i], NO_ENV, NO_ENV, nested),
                EvalExprs(w.e, rows[i], NO_ENV, NO_ENV, nested'), w.direct)
    {
      LiteralSame(w, quals, rows, i, nested, nested');
      if w.nulls {
        LiteralNotNull(w, quals, rows, i, nested);
      }
    }
    assert s.header == ColumnNames(RowColumns(rows)) == t.header;
  }

  lemma CombineNotNull(l: seq<Column>, r: seq<Column>, row: Row)
    requires |l| == |r| && (NullClaims(l, row) || NullClaims(r, row))
    ensures NullClaims(CombineColumns(l, r), row)
  {
  }

  lemma CombineSame(l: seq<Column>, r: seq<Column>, row: Row, other: Row, direct: set<ColumnRef>)
    requires |l| == |r| && (SameClaims(l, row, other, direct) || SameClaims(r, row, other, direct))
    ensures SameClaims(CombineColumns(l, r), row, other, direct)
  {
    var all := CombineColumns(l, r);
    forall j | 0 <= j < |all| && all[j].complete && DirectRefs(all[j].inputs) <= direct ensures row[j] == other[j] {
      RefsOfUnion(l[j].inputs, r[j].inputs);
    }
  }

  ghost predicate ComesFrom(left: Extent, right: Extent, id: RowId, row: Row) {
    match id
    case FromLeft(i) => i in left.rows && row == left.rows[i]
    case FromRight(i) => i in right.rows && row == right.rows[i]
    case Distinct(r) =>
      row == r
      && ((exists i :: i in left.rows && left.rows[i] == r) || exists i :: i in right.rows && right.rows[i] == r)
    case _ => false
  }

  /** Where a row of a set operation comes from. */
  lemma CombinedRow(op: SetOp, left: Extent, right: Extent, id: RowId)
    requires id in Combine(op, left, right).rows
    ensures ComesFrom(left, right, id, Combine(op, left, right).rows[id])
  {
    match op
    case UnionAll =>
    case Union =>
      assert id.Distinct? && id.row in Values(left) + Values(right);
    case Except =>
    case Intersect =>
  }

  lemma CombineSupports(
    w: World, op: SetOp, l: seq<Column>, r: seq<Column>, s: Extent, t: Extent, s': Extent, t': Extent)
    requires |l| == |r| && Supports(w, l, s, s') && Supports(w, r, t, t')
    ensures Supports(w, CombineColumns(l, r), Combine(op, s, t), Combine(op, s', t'))
  {
    var columns, x, y := CombineColumns(l, r), Combine(op, s, t), Combine(op, s', t');
    forall id | id in x.rows ensures |x.rows[id]| == |columns| && (w.nulls ==> NullClaims(columns, x.rows[id])) {
      CombinedRow(op, s, t, id);
      if w.nulls {
        CombineNotNull(l, r, x.rows[id]);
      }
    }
    forall id | id in y.rows ensures |y.rows[id]| == |columns| {
      CombinedRow(op, s', t', id);
    }
    forall id | id in x.rows && id in y.rows ensures SameClaims(columns, x.rows[id], y.rows[id], w.direct) {
      CombinedRow(op, s, t, id);
      CombinedRow(op, s', t', id);
      if !id.Distinct? {
        CombineSame(l, r, x.rows[id], y.rows[id], w.direct);
      }
    }
    assert ColumnNames(columns) == ColumnNames(l);
  }

  // -- Queries the analysis covers -----------------------------------------------------------------

  /**
   Read off the query: `visible` are the WITH names in scope in SQL, `known` the
   lower-case names the analyser has entered so far. The analyser's table of WITH
   columns is flat, so every WITH name must be new to it, and a reference that
   matches one must be in its scope and spelled like it. Table functions and
   ambiguous references are excluded.
   */
  ghost predicate Analysable(a: Analyzer, q: Query<Block>, visible: set<string>, known: set<string>)
    decreases q, 1
  {
    && AnalysableCtes(a, q.ctes, visible, known)
    && AnalysableBody(a, q.body, visible + Names(q.ctes), known + DeclaresCtes(q.ctes))
  }

  ghost predicate AnalysableCtes(
    a: Analyzer, ctes: seq<Cte<Block>>, visible: set<string>, known: set<string>)
    decreases ctes, 0
  {
    ctes != [] ==>
      var after := known + Declares(ctes[0].query);
      && Analysable(a, ctes[0].query, visible, known) && Lower(ctes[0].name) !in after
      && AnalysableCtes(a, ctes[1..], visible + {ctes[0].name}, after + {Lower(ctes[0].name)})
  }

  ghost predicate AnalysableBody(
    a: Analyzer, body: SetExpr<Block>, visible: set<string>, known: set<string>)
    decreases body, 0
  {
    match body
    case Select(block, quals, from, _) =>
      if block.Rows? then FirstRowSpeaks(quals, block.rows)
      else CoversBlock(quals, block) && AnalysableFrom(a, from, visible, known)
    case Nested(query) => Analysable(a, query, visible, known)
    case SetOperation(_, left, right) =>
      && AnalysableBody(a, left, visible, known)
      && AnalysableBody(a, right, visible, known + DeclaresBody(left))
  }

  ghost predicate AnalysableFrom(
    a: Analyzer, from: seq<TableFactor<Block>>, visible: set<string>, known: set<string>)
    decreases from, 0
  {
    from != [] ==>
      && AnalysableFactor(a, from[0], visible, known)
      && AnalysableFrom(a, from[1..], visible, known + DeclaresFactor(from[0]))
  }

  ghost predicate AnalysableFactor(
    a: Analyzer, factor: TableFactor<Block>, visible: set<string>, known: set<string>)
    decreases factor, 0
  {
    match factor
    case Table(name, _) =>
      && IsRelationName(name)
      && if |name| == 1 && Lower(name[0]) in known then name[0] in visible else !a.resolve(name).Ambiguous?
    case TableFunction(_, _) => false
    case Derived(query, _) => Analysable(a, query, visible, known)
  }

  /**
   Where NULLs are followed: in every block, what is claimed NOT NULL does not
   rest on the claims of a relation that the block's joins can leave without a
   row. `s` is the analyser's state at the query.
   */
  predicate NullSafe(a: Analyzer, q: Query<Block>, s: State)
    decreases q, 1
  {
    NullSafeCtes(a, q.ctes, s) && NullSafeBody(a, q.body, AnalyzeCtes(a, q.ctes, s))
  }

  predicate NullSafeCtes(a: Analyzer, ctes: seq<Cte<Block>>, s: State)
    decreases ctes, 0
  {
    ctes != [] ==> NullSafe(a, ctes[0].query, s) && NullSafeCtes(a, ctes[1..], EnterCte(a, ctes[0], s))
  }

  predicate NullSafeBody(a: Analyzer, body: SetExpr<Block>, s: State)
    decreases body, 0
  {
    match body
    case Select(block, _, from, _) =>
      block.Block? ==>
        && NullSafeFrom(a, from, s)
        && ClaimsOutlastPadding(block, BuildScope(a, block.joins, 0, from, BuiltScope([], {}, true), s).0)
    case Nested(query) => NullSafe(a, query, s)
    case SetOperation(_, left, right) =>
      NullSafeBody(a, left, s) && NullSafeBody(a, right, AnalyzeBody(a, left, s).1)
  }

  predicate NullSafeFrom(a: Analyzer, from: seq<TableFactor<Block>>, s: State)
    decreases from, 0
  {
    from != [] ==> NullSafeFactor(a, from[0], s) && NullSafeFrom(a, from[1..], AnalyzeFactor(a, from[0], s).1)
  }

  predicate NullSafeFactor(a: Analyzer, factor: TableFactor<Block>, s: State)
    decreases factor, 0
  {
    factor.Derived? ==> NullSafe(a, factor.query, s)
  }

  // -- The analysis supports what queries evaluate to ---------------------------------------------------

  ghost predicate BaseSupportsAt(w: World, name: Name) {
    IsRelationName(name) && !w.a.resolve(name).Ambiguous? && !BaseColumns(w.a, name).1 ==>
      Supports(w, BaseColumns(w.a, name).0, w.x(name), w.y(name))
  }

  /** What the schemas say holds of the relations outside the query. */
  ghost predicate BaseSupports(w: World) {
    && (w.nulls ==> Strict(w.e))
    && forall name {:trigger BaseSupportsAt(w, name)} :: BaseSupportsAt(w, name)
  }

  ghost predicate CteSupportsAt(
    w: World, env: map<string, seq<Column>>, c: map<string, Extent>, d: map<string, Extent>, n: string)
  {
    n in c && n in d && Lower(n) in env && Supports(w, env[Lower(n)], c[n], d[n])
  }

  ghost predicate CteSupports(w: World, env: map<string, seq<Column>>, c: map<string, Extent>, d: map<string, Extent>) {
    && c.Keys == d.Keys
    && forall n {:trigger CteSupportsAt(w, env, c, d, n)} :: n in c ==> CteSupportsAt(w, env, c, d, n)
  }

  lemma VisibleIsSupported(
    w: World, env: map<string, seq<Column>>, c: map<string, Extent>, d: map<string, Extent>, n: string)
    requires CteSupports(w, env, c, d) && n in c
    ensures CteSupportsAt(w, env, c, d, n)
  {
  }

  /** The analyser's table of WITH columns only grows. */
  ghost predicate Extends(env: map<string, seq<Column>>, more: map<string, seq<Column>>) {
    forall n :: n in env ==> n in more && more[n] == env[n]
  }

  lemma SupportsExtend(
    w: World, env: map<string, seq<Column>>, more: map<string, seq<Column>>,
    c: map<string, Extent>, d: map<string, Extent>)
    requires CteSupports(w, env, c, d) && Extends(env, more)
    ensures CteSupports(w, more, c, d)
  {
    forall n | n in c ensures CteSupportsAt(w, more, c, d, n) {
      assert CteSupportsAt(w, env, c, d, n);
    }
  }

  lemma SupportsAdd(
    w: World, env: map<string, seq<Column>>, more: map<string, seq<Column>>, c: map<string, Extent>,
    d: map<string, Extent>, name: string, columns: seq<Column>, s: Extent, t: Extent)
    requires CteSupports(w, env, c, d) && Extends(env, more) && Lower(name) !in more && Supports(w, columns, s, t)
    ensures CteSupports(w, more[Lower(name) := columns], c[name := s], d[name := t])
    ensures Extends(env, more[Lower(name) := columns])
  {
    var env', c', d' := more[Lower(name) := columns], c[name := s], d[name := t];
    forall n | n in c' ensures CteSupportsAt(w, env', c', d', n) {
      if n != name {
        assert CteSupportsAt(w, env, c, d, n);
      }
    }
  }

  lemma {:induction false} QuerySupports(
    w: World, q: Query<Block>, s: State, c: map<string, Extent>, d: map<string, Extent>)
    requires BaseSupports(w) && CteSupports(w, s.ctes, c, d) && Analysable(w.a, q, c.Keys, s.ctes.Keys)
    requires !AnalyzeQuery(w.a, q, s).1.unknown && !AnalyzeQuery(w.a, q, s).1.failed
    requires w.nulls ==> NullSafe(w.a, q, s)
    ensures Supports(
              w, AnalyzeQuery(w.a, q, s).0,
              Eval(MeaningOf(w.e), q, w.x, c, NO_ENV), Eval(MeaningOf(w.e), q, w.y, d, NO_ENV))
    ensures Extends(s.ctes, AnalyzeQuery(w.a, q, s).1.ctes)
    decreases q, 1
  {
    CtesSupport(w, q.ctes, s, c, d);
    BodySupports(
      w, q.body, AnalyzeCtes(w.a, q.ctes, s), EvalCtes(MeaningOf(w.e), q.ctes, w.x, c),
      EvalCtes(MeaningOf(w.e), q.ctes, w.y, d));
  }

  lemma {:induction false} CtesSupport(
    w: World, ctes: seq<Cte<Block>>, s: State, c: map<string, Extent>, d: map<string, Extent>)
    requires BaseSupports(w) && CteSupports(w, s.ctes, c, d) && AnalysableCtes(w.a, ctes, c.Keys, s.ctes.Keys)
    requires !AnalyzeCtes(w.a, ctes, s).unknown && !AnalyzeCtes(w.a, ctes, s).failed
    requires w.nulls ==> NullSafeCtes(w.a, ctes, s)
    ensures CteSupports(
              w, AnalyzeCtes(w.a, ctes, s).ctes,
              EvalCtes(MeaningOf(w.e), ctes, w.x, c), EvalCtes(MeaningOf(w.e), ctes, w.y, d))
    ensures Extends(s.ctes, AnalyzeCtes(w.a, ctes, s).ctes)
    decreases ctes, 0
  {
    if ctes != [] {
      var x := Eval(MeaningOf(w.e), ctes[0].query, w.x, c, NO_ENV);
      var y := Eval(MeaningOf(w.e), ctes[0].query, w.y, d, NO_ENV);
      CteEntered(w, ctes[0], s, c, d);
      KeysAfter(c, ctes[0].name, x);
      CtesSupport(w, ctes[1..], EnterCte(w.a, ctes[0], s), c[ctes[0].name := x], d[ctes[0].name := y]);
    }
  }

  lemma KeysAfter(c: map<string, Extent>, name: string, x: Extent)
    ensures c[name := x].Keys == c.Keys + {name}
  {
  }

  lemma {:induction false} CteEntered(
    w: World, cte: Cte<Block>, s: State, c: map<string, Extent>, d: map<string, Extent>)
    requires BaseSupports(w) && CteSupports(w, s.ctes, c, d)
    requires Analysable(w.a, cte.query, c.Keys, s.ctes.Keys)
    requires Lower(cte.name) !in s.ctes.Keys + Declares(cte.query)
    requires !EnterCte(w.a, cte, s).unknown && !EnterCte(w.a, cte, s).failed
    requires w.nulls ==> NullSafe(w.a, cte.query, s)
    ensures CteSupports(
              w, EnterCte(w.a, cte, s).ctes, c[cte.name := Eval(MeaningOf(w.e), cte.query, w.x, c, NO_ENV)],
              d[cte.name := Eval(MeaningOf(w.e), cte.query, w.y, d, NO_ENV)])
    ensures Extends(s.ctes, EnterCte(w.a, cte, s).ctes)
    decreases cte, 0
  {
    var (columns, t) := AnalyzeQuery(w.a, cte.query, s);
    QuerySupports(w, cte.query, s, c, d);
    SupportsAdd(
      w, s.ctes, t.ctes, c, d, cte.name, columns, Eval(MeaningOf(w.e), cte.query, w.x, c, NO_ENV),
      Eval(MeaningOf(w.e), cte.query, w.y, d, NO_ENV));
  }

  lemma {:induction false} BodySupports(
    w: World, body: SetExpr<Block>, s: State, c: map<string, Extent>, d: map<string, Extent>)
    requires BaseSupports(w) && CteSupports(w, s.ctes, c, d) && AnalysableBody(w.a, body, c.Keys, s.ctes.Keys)
    requires !AnalyzeBody(w.a, body, s).1.unknown && !AnalyzeBody(w.a, body, s).1.failed
    requires w.nulls ==> NullSafeBody(w.a, body, s)
    ensures Supports(
              w, AnalyzeBody(w.a, body, s).0, EvalBody(MeaningOf(w.e), body, w.x, c, NO_ENV),
              EvalBody(MeaningOf(w.e), body, w.y, d, NO_ENV))
    ensures Extends(s.ctes, AnalyzeBody(w.a, body, s).1.ctes)
    decreases body, 0
  {
    var m := MeaningOf(w.e);
    match body
    case Select(block, quals, from, subqueries) =>
      var f, g := EvalFrom(m, quals, from, w.x, c), EvalFrom(m, quals, from, w.y, d);
      var n := EvalPerContext(m, subqueries, w.x, c, m.contexts(block, f, NO_ENV));
      var n' := EvalPerContext(m, subqueries, w.y, d, m.contexts(block, g, NO_ENV));
      if block.Rows? {
        RowsSupport(w, quals, block.rows, NestedFor(n, NO_ENV), NestedFor(n', NO_ENV));
      } else {
        FromSupports(w, quals, block.joins, 0, from, BuiltScope([], {}, true), s, [], [], c, d);
        var built := BuildScope(w.a, block.joins, 0, from, BuiltScope([], {}, true), s).0;
        SelectSupports(w, quals, block, built, [] + f, [] + g, n, n');
        assert [] + f == f && [] + g == g;
      }
    case Nested(query) =>
      QuerySupports(w, query, s, c, d);
    case SetOperation(op, left, right) =>
      var (l, t) := AnalyzeBody(w.a, left, s);
      BodySupports(w, left, s, c, d);
      SupportsExtend(w, s.ctes, t.ctes, c, d);
      BodySupports(w, right, t, c, d);
      CombineSupports(
        w, op, l, AnalyzeBody(w.a, right, t).0, EvalBody(m, left, w.x, c, NO_ENV), EvalBody(m, right, w.x, c, NO_ENV),
        EvalBody(m, left, w.y, d, NO_ENV), EvalBody(m, right, w.y, d, NO_ENV));
  }

  lemma ConcatAgain<T>(a: seq<T>, x: T, b: seq<T>)
    ensures a + ([x] + b) == a + [x] + b
  {
  }

  lemma FramesAppend(
    w: World, quals: set<string>, scope: Scope, f: seq<Frame<Extent>>, g: seq<Frame<Extent>>,
    relation: ScopedRelation, x: Frame<Extent>, y: Frame<Extent>)
    requires FramesSupport(w, quals, scope, f, g) && FrameSupports(w, quals, relation, x, y)
    ensures FramesSupport(w, quals, scope + [relation], f + [x], g + [y])
  {
  }

  lemma {:induction false} FromSupports(
    w: World, quals: set<string>, joins: seq<Join>, k: nat, from: seq<TableFactor<Block>>, built: BuiltScope, s: State,
    f: seq<Frame<Extent>>, g: seq<Frame<Extent>>, c: map<string, Extent>, d: map<string, Extent>)
    requires BaseSupports(w) && CteSupports(w, s.ctes, c, d) && AnalysableFrom(w.a, from, c.Keys, s.ctes.Keys)
    requires !BuildScope(w.a, joins, k, from, built, s).1.unknown && !BuildScope(w.a, joins, k, from, built, s).1.failed
    requires FramesSupport(w, quals, built.scope, f, g)
    requires w.nulls ==> NullSafeFrom(w.a, from, s)
    ensures FramesSupport(
              w, quals, BuildScope(w.a, joins, k, from, built, s).0.scope,
              f + EvalFrom(MeaningOf(w.e), quals, from, w.x, c), g + EvalFrom(MeaningOf(w.e), quals, from, w.y, d))
    ensures Extends(s.ctes, BuildScope(w.a, joins, k, from, built, s).1.ctes)
    decreases from, 0
  {
    var m := MeaningOf(w.e);
    if from == [] {
      assert f + [] == f && g + [] == g;
    } else {
      var (relation, t) := AnalyzeFactor(w.a, from[0], s);
      FactorSupports(w, from[0], s, c, d);
      SupportsExtend(w, s.ctes, t.ctes, c, d);
      var x, y := Masked(quals, EvalFactor(m, from[0], w.x, c)), Masked(quals, EvalFactor(m, from[0], w.y, d));
      var next := AddRelation(built, JoinAt(joins, k), relation);
      FramesAppend(w, quals, built.scope, f, g, relation.value, x, y);
      FromSupports(w, quals, joins, k + 1, from[1..], next, t, f + [x], g + [y], c, d);
      ConcatAgain(f, x, EvalFrom(m, quals, from[1..], w.x, c));
      ConcatAgain(g, y, EvalFrom(m, quals, from[1..], w.y, d));
    }
  }

  lemma {:induction false} FactorSupports(
    w: World, factor: TableFactor<Block>, s: State, c: map<string, Extent>, d: map<string, Extent>)
    requires BaseSupports(w) && CteSupports(w, s.ctes, c, d)
      && AnalysableFactor(w.a, factor, c.Keys, s.ctes.Keys)
    requires !AnalyzeFactor(w.a, factor, s).1.unknown && !AnalyzeFactor(w.a, factor, s).1.failed
    requires w.nulls ==> NullSafeFactor(w.a, factor, s)
    ensures var r := AnalyzeFactor(w.a, factor, s).0;
            var f, g := EvalFactor(MeaningOf(w.e), factor, w.x, c), EvalFactor(MeaningOf(w.e), factor, w.y, d);
            && r.Some? && Supports(w, r.value.columns, f.table, g.table)
            && f.qualifier == r.value.qualifier && g.qualifier == r.value.qualifier
    ensures Extends(s.ctes, AnalyzeFactor(w.a, factor, s).1.ctes)
    decreases factor, 0
  {
    match factor
    case Table(name, alias) =>
      if |name| == 1 && name[0] in c {
        VisibleIsSupported(w, s.ctes, c, d, name[0]);
      } else {
        assert BaseSupportsAt(w, name);
      }
    case TableFunction(_, _) =>
    case Derived(query, alias) =>
      QuerySupports(w, query, s, c, d);
  }

  // -- Soundness -------------------------------------------------------------------------------------------

  const START := State(map[], false, false)

  ghost predicate KnownRelation(a: Analyzer, name: Name) {
    IsRelationName(name) && !a.resolve(name).Ambiguous? && !BaseColumns(a, name).1
  }

  /** Relations have the columns their schemas declare and, if asked, no NULL where a column is NOT NULL. */
  ghost predicate MatchesSchemas(a: Analyzer, db: Name -> Extent, nulls: bool) {
    forall name {:trigger KnownRelation(a, name)} :: KnownRelation(a, name) ==>
      && db(name).header == ColumnNames(BaseColumns(a, name).0) && Rectangular(db(name))
      && (nulls ==> forall id :: id in db(name).rows ==> NullClaims(BaseColumns(a, name).0, db(name).rows[id]))
  }

  ghost predicate RowsAgree(columns: seq<Column>, row: Row, other: Row, refs: set<ColumnRef>) {
    forall j :: 0 <= j < |columns| && j < |row| && j < |other| && DirectRefs(columns[j].inputs) <= refs ==>
      row[j] == other[j]
  }

  /** Rows that both databases have hold the same values in these columns. */
  ghost predicate AgreeOn(a: Analyzer, x: Name -> Extent, y: Name -> Extent, refs: set<ColumnRef>) {
    forall name {:trigger KnownRelation(a, name)} :: KnownRelation(a, name) ==>
      forall id :: id in x(name).rows && id in y(name).rows ==>
        RowsAgree(BaseColumns(a, name).0, x(name).rows[id], y(name).rows[id], refs)
  }

  lemma SchemasSupport(w: World)
    requires MatchesSchemas(w.a, w.x, w.nulls) && MatchesSchemas(w.a, w.y, false)
    requires AgreeOn(w.a, w.x, w.y, w.direct) && (w.nulls ==> Strict(w.e))
    ensures BaseSupports(w)
  {
    forall name ensures BaseSupportsAt(w, name) {
      if KnownRelation(w.a, name) {
      }
    }
  }

  /**
   A column inferred NOT NULL holds no NULL: through CASE, casts, arithmetic,
   derived tables, WITH tables, set operations and joins, outer ones included, as
   long as it does not rest on the padded side of one, on every database that
   respects its declared nullability.
   */
  lemma NullabilitySound(e: Engine, a: Analyzer, q: Query<Block>, db: Name -> Extent, id: RowId, j: nat)
    requires Strict(e) && MatchesSchemas(a, db, true) && Analysable(a, q, {}, {}) && NullSafe(a, q, START)
    requires !AnalyzeQuery(a, q, START).1.unknown && !AnalyzeQuery(a, q, START).1.failed
    requires id in Eval(MeaningOf(e), q, db, map[], NO_ENV).rows
    requires j < |AnalyzeQuery(a, q, START).0| && AnalyzeQuery(a, q, START).0[j].nullability == NotNull
    ensures var out := Eval(MeaningOf(e), q, db, map[], NO_ENV);
            out.header == ColumnNames(AnalyzeQuery(a, q, START).0)
            && |out.rows[id]| == |out.header| && out.rows[id][j] != Null
  {
    var w := World(e, a, db, db, {}, true);
    assert MatchesSchemas(a, db, false);
    SchemasSupport(w);
    var none: map<string, Extent> := map[];
    assert none.Keys == {} && START.ctes.Keys == {};
    QuerySupports(w, q, START, none, none);
  }

  /**
   A completely analysed column is a function of its Direct inputs: databases
   that agree on those give it the same value in every row both results have.
   */
  lemma LineageSound(
    e: Engine, a: Analyzer, q: Query<Block>, x: Name -> Extent, y: Name -> Extent, id: RowId, j: nat)
    requires MatchesSchemas(a, x, false) && MatchesSchemas(a, y, false) && Analysable(a, q, {}, {})
    requires !AnalyzeQuery(a, q, START).1.unknown && !AnalyzeQuery(a, q, START).1.failed
    requires j < |AnalyzeQuery(a, q, START).0| && AnalyzeQuery(a, q, START).0[j].complete
    requires AgreeOn(a, x, y, DirectRefs(AnalyzeQuery(a, q, START).0[j].inputs))
    requires id in Eval(MeaningOf(e), q, x, map[], NO_ENV).rows && id in Eval(MeaningOf(e), q, y, map[], NO_ENV).rows
    ensures var s, t := Eval(MeaningOf(e), q, x, map[], NO_ENV), Eval(MeaningOf(e), q, y, map[], NO_ENV);
            |s.rows[id]| > j && |t.rows[id]| > j && s.rows[id][j] == t.rows[id][j]
  {
    var w := World(e, a, x, y, DirectRefs(AnalyzeQuery(a, q, START).0[j].inputs), false);
    SchemasSupport(w);
    var none: map<string, Extent> := map[];
    assert none.Keys == {} && START.ctes.Keys == {};
    QuerySupports(w, q, START, none, none);
  }

  // -- All recorded inputs ---------------------------------------------------------------------------

  /** Every column recorded as an input, direct or not. */
  function AllRefs(inputs: set<Input>): set<ColumnRef> {
    set i | i in inputs :: i.column
  }

  lemma MarkKeepsRefs(inputs: set<Input>, transformation: Lineage.Transformation)
    ensures DirectRefs(inputs) <= AllRefs(MarkIndirect(inputs, transformation))
  {
    forall i | i in inputs && i.directness.Direct? ensures i.column in AllRefs(MarkIndirect(inputs, transformation)) {
      assert Input(i.column, Lineage.Indirect, transformation) in MarkIndirect(inputs, transformation);
    }
  }

  /** The `k`th join constraint was fully analysed and everything it reads is recorded. */
  ghost predicate OnRecorded(joins: seq<Join>, k: nat, scope: Scope, inputs: set<Input>)
    requires k < |scope|
  {
    JoinAt(joins, k).on.Some? ==>
      var i := Infer(JoinAt(joins, k).on.value, scope[..k + 1]);
      i.complete && DirectRefs(i.inputs) <= AllRefs(inputs)
  }

  ghost predicate AllOnRecorded(joins: seq<Join>, scope: Scope, inputs: set<Input>) {
    forall k :: 0 <= k < |scope| ==> OnRecorded(joins, k, scope, inputs)
  }

  ghost predicate AllBase(from: seq<TableFactor<Block>>) {
    forall k :: 0 <= k < |from| ==> from[k].Table? && IsRelationName(from[k].name)
  }

  lemma AddRecorded(joins: seq<Join>, built: BuiltScope, relation: ScopedRelation)
    requires built.complete ==> AllOnRecorded(joins, built.scope, built.inputs)
    ensures var next := AddRelation(built, JoinAt(joins, |built.scope|), Some(relation));
            next.complete ==> AllOnRecorded(joins, next.scope, next.inputs)
  {
    var n := |built.scope|;
    var next := AddRelation(built, JoinAt(joins, n), Some(relation));
    if next.complete {
      forall k | 0 <= k < |next.scope| ensures OnRecorded(joins, k, next.scope, next.inputs) {
        if k < n {
          assert next.scope[..k + 1] == built.scope[..k + 1];
          assert OnRecorded(joins, k, built.scope, built.inputs);
        } else {
          assert next.scope[..k + 1] == next.scope;
          if JoinAt(joins, n).on.Some? {
            MarkKeepsRefs(Infer(JoinAt(joins, n).on.value, next.scope).inputs, Lineage.JoinKey);
          }
        }
      }
    }
  }

  lemma {:induction false} BuildRecords(
    a: Analyzer, joins: seq<Join>, from: seq<TableFactor<Block>>, built: BuiltScope, s: State)
    requires AllBase(from) && (built.complete ==> AllOnRecorded(joins, built.scope, built.inputs))
    ensures var r := BuildScope(a, joins, |built.scope|, from, built, s).0;
            r.complete ==> AllOnRecorded(joins, r.scope, r.inputs)
    decreases from
  {
    if from != [] {
      var (relation, t) := AnalyzeFactor(a, from[0], s);
      assert from[0].Table? && IsRelationName(from[0].name);
      AddRecorded(joins, built, relation.value);
      BuildRecords(a, joins, from[1..], AddRelation(built, JoinAt(joins, |built.scope|), relation), t);
    }
  }

  // -- The same rows are kept ------------------------------------------------------------------------------

  ghost predicate SameIds(f: seq<Frame<Extent>>, g: seq<Frame<Extent>>) {
    |f| == |g| && forall k :: 0 <= k < |f| ==> f[k].table.rows.Keys == g[k].table.rows.Keys
  }

  lemma FramesPrefix(
    w: World, quals: set<string>, scope: Scope, f: seq<Frame<Extent>>, g: seq<Frame<Extent>>, n: nat)
    requires FramesSupport(w, quals, scope, f, g) && n <= |scope|
    ensures FramesSupport(w, quals, scope[..n], f[..n], g[..n])
  {
    forall k | 0 <= k < n ensures FrameSupports(w, quals, scope[..n][k], f[..n][k], g[..n][k]) {
      assert FrameSupports(w, quals, scope[k], f[k], g[k]);
    }
  }

  /** A fully analysed condition holds of a combination in both databases or in neither. */
  lemma ConditionSame(
    w: World, quals: set<string>, condition: Expr, scope: Scope, f: seq<Frame<Extent>>, g: seq<Frame<Extent>>,
    m: map<Env, seq<Extent>>, n: map<Env, seq<Extent>>, combo: Combo)
    requires FramesSupport(w, quals, scope, f, g) && Covers(quals, condition)
    requires Infer(condition, scope).complete && DirectRefs(Infer(condition, scope).inputs) <= w.direct
    requires Picks(combo, f) && Picks(combo, g)
    ensures Holds(w.e, Some(condition), f, combo, NO_ENV, m) == Holds(w.e, Some(condition), g, combo, NO_ENV, n)
  {
    FramesDescribe(w, quals, scope, f, g, combo);
    PickedSame(w, quals, scope, f, g, combo);
    InferDepends(
      w.e, quals, condition, scope, EnvOf(f, combo), EnvOf(g, combo), NO_ENV, NestedFor(m, EnvOf(f, combo)),
      NestedFor(n, EnvOf(g, combo)), w.direct);
  }

  lemma MatchedSame(
    w: World, quals: set<string>, on: Option<Expr>, combos: set<Combo>, scope: Scope, f: seq<Frame<Extent>>,
    g: seq<Frame<Extent>>, m: map<Env, seq<Extent>>, n: map<Env, seq<Extent>>)
    requires scope != [] && FramesSupport(w, quals, scope, f, g) && SameIds(f, g)
    requires forall c :: c in combos ==> Picks(c, f[..|f| - 1]) && Picks(c, g[..|g| - 1])
    requires on.Some? ==>
               && Covers(quals, on.value) && Infer(on.value, scope).complete
               && DirectRefs(Infer(on.value, scope).inputs) <= w.direct
    ensures Matched(w.e, on, combos, f, NO_ENV, m) == Matched(w.e, on, combos, g, NO_ENV, n)
  {
    forall c, id | c in combos && id in f[|f| - 1].table.rows
      ensures Holds(w.e, on, f, c + [Some(id)], NO_ENV, m) == Holds(w.e, on, g, c + [Some(id)], NO_ENV, n)
    {
      PicksAppend(c, Some(id), f);
      PicksAppend(c, Some(id), g);
      if on.Some? {
        ConditionSame(w, quals, on.value, scope, f, g, m, n, c + [Some(id)]);
      }
    }
  }

  lemma {:induction false} JoinedSame(
    w: World, quals: set<string>, joins: seq<Join>, scope: Scope, f: seq<Frame<Extent>>, g: seq<Frame<Extent>>,
    m: map<Env, seq<Extent>>, n: map<Env, seq<Extent>>, inputs: set<Input>)
    requires FramesSupport(w, quals, scope, f, g) && SameIds(f, g)
    requires AllOnRecorded(joins, scope, inputs) && AllRefs(inputs) <= w.direct
    requires forall k :: 0 <= k < |joins| && joins[k].on.Some? ==> Covers(quals, joins[k].on.value)
    ensures Joined(w.e, joins, f, NO_ENV, m) == Joined(w.e, joins, g, NO_ENV, n)
    decreases |scope|
  {
    if scope != [] {
      var k := |scope| - 1;
      FramesPrefix(w, quals, scope, f, g, k);
      RecordedPrefix(joins, scope, inputs, k);
      JoinedSame(w, quals, joins, scope[..k], f[..k], g[..k], m, n, inputs);
      JoinedPicks(w.e, joins, f[..k], NO_ENV, m);
      JoinedPicks(w.e, joins, g[..k], NO_ENV, n);
      assert OnRecorded(joins, k, scope, inputs) && scope[..k + 1] == scope;
      MatchedSame(w, quals, JoinAt(joins, k).on, Joined(w.e, joins, f[..k], NO_ENV, m), scope, f, g, m, n);
    }
  }

  lemma RecordedPrefix(joins: seq<Join>, scope: Scope, inputs: set<Input>, n: nat)
    requires AllOnRecorded(joins, scope, inputs) && n <= |scope|
    ensures AllOnRecorded(joins, scope[..n], inputs)
  {
    forall k | 0 <= k < n ensures OnRecorded(joins, k, scope[..n], inputs) {
      assert scope[..n][..k + 1] == scope[..k + 1];
      assert OnRecorded(joins, k, scope, inputs);
    }
  }

  lemma {:induction false} ClausesInEveryColumn(
    items: seq<Item>, scope: Scope, indirect: set<Input>, complete: bool, j: nat)
    requires j < |ItemColumns(items, scope, indirect, complete)|
    ensures var column := ItemColumns(items, scope, indirect, complete)[j];
            indirect <= column.inputs && (column.complete ==> complete)
  {
    var before := ItemColumns(items[..|items| - 1], scope, indirect, complete);
    if j < |before| {
      ClausesInEveryColumn(items[..|items| - 1], scope, indirect, complete, j);
    }
  }

  lemma KeptSame(
    w: World, quals: set<string>, block: Block, built: BuiltScope, f: seq<Frame<Extent>>, g: seq<Frame<Extent>>,
    m: map<Env, seq<Extent>>, n: map<Env, seq<Extent>>)
    requires block.Block? && CoversBlock(quals, block) && FramesSupport(w, quals, built.scope, f, g) && SameIds(f, g)
    requires AllOnRecorded(block.joins, built.scope, built.inputs)
    requires Clauses(block, built).1 && AllRefs(Clauses(block, built).0) <= w.direct
    ensures KeptCombos(w.e, block.joins, block.selection, f, NO_ENV, m)
         == KeptCombos(w.e, block.joins, block.selection, g, NO_ENV, n)
  {
    JoinedSame(w, quals, block.joins, built.scope, f, g, m, n, built.inputs);
    JoinedPicks(w.e, block.joins, f, NO_ENV, m);
    JoinedPicks(w.e, block.joins, g, NO_ENV, n);
    if block.selection.Some? {
      MarkKeepsRefs(Infer(block.selection.value, built.scope).inputs, Lineage.Filter);
      forall c | c in Joined(w.e, block.joins, f, NO_ENV, m)
        ensures Holds(w.e, block.selection, f, c, NO_ENV, m) == Holds(w.e, block.selection, g, c, NO_ENV, n)
      {
        ConditionSame(w, quals, block.selection.value, built.scope, f, g, m, n, c);
      }
    }
  }

  lemma {:induction false} BaseFramesSameIds(
    w: World, quals: set<string>, from: seq<TableFactor<Block>>)
    requires AllBase(from)
    requires forall k :: 0 <= k < |from| ==> w.x(from[k].name).rows.Keys == w.y(from[k].name).rows.Keys
    ensures SameIds(
              EvalFrom(MeaningOf(w.e), quals, from, w.x, map[]), EvalFrom(MeaningOf(w.e), quals, from, w.y, map[]))
  {
    if from != [] {
      assert from[0].Table?;
      BaseFramesSameIds(w, quals, from[1..]);
    }
  }

  /** A block over base relations. */
  function Over(block: Block, quals: set<string>, from: seq<TableFactor<Block>>, subqueries: seq<Query<Block>>)
    : Query<Block>
  {
    Query([], Select(block, quals, from, subqueries))
  }

  /** Analysing a block over base relations is building its scope. */
  lemma OverIsBlock(
    a: Analyzer, block: Block, quals: set<string>, from: seq<TableFactor<Block>>, subqueries: seq<Query<Block>>)
    requires block.Block?
    ensures var (built, t) := BuildScope(a, block.joins, 0, from, BuiltScope([], {}, true), START);
            AnalyzeQuery(a, Over(block, quals, from, subqueries), START) == (SelectColumns(block, built), t)
  {
    var q := Over(block, quals, from, subqueries);
    assert AnalyzeCtes(a, q.ctes, START) == START;
    assert AnalyzeQuery(a, q, START) == AnalyzeBody(a, q.body, START);
  }

  lemma OverIsAnalysable(
    a: Analyzer, block: Block, quals: set<string>, from: seq<TableFactor<Block>>, subqueries: seq<Query<Block>>)
    requires block.Block? && Analysable(a, Over(block, quals, from, subqueries), {}, {})
    ensures CoversBlock(quals, block) && AnalysableFrom(a, from, {}, {})
  {
    var q := Over(block, quals, from, subqueries);
    var none: set<string> := {};
    assert none + Names(q.ctes) == none && none + DeclaresCtes(q.ctes) == none;
    assert AnalysableBody(a, q.body, none, none);
  }

  lemma EvalOver(
    e: Engine, block: Block, quals: set<string>, from: seq<TableFactor<Block>>, subqueries: seq<Query<Block>>,
    db: Name -> Extent)
    returns (nested: map<Env, seq<Extent>>)
    requires block.Block?
    ensures Eval(MeaningOf(e), Over(block, quals, from, subqueries), db, map[], NO_ENV)
         == SelectRows(e, block, EvalFrom(MeaningOf(e), quals, from, db, map[]), NO_ENV, nested)
  {
    var m, f := MeaningOf(e), EvalFrom(MeaningOf(e), quals, from, db, map[]);
    nested := EvalPerContext(m, subqueries, db, map[], m.contexts(block, f, NO_ENV));
  }

  lemma BlockFrames(
    w: World, block: Block, quals: set<string>, from: seq<TableFactor<Block>>, built: BuiltScope, t: State)
    requires block.Block? && AllBase(from) && BaseSupports(w) && AnalysableFrom(w.a, from, {}, {})
    requires w.nulls ==> NullSafeFrom(w.a, from, START)
    requires (built, t) == BuildScope(w.a, block.joins, 0, from, BuiltScope([], {}, true), START)
    requires !t.unknown && !t.failed
    ensures FramesSupport(
              w, quals, built.scope, EvalFrom(MeaningOf(w.e), quals, from, w.x, map[]),
              EvalFrom(MeaningOf(w.e), quals, from, w.y, map[]))
    ensures built.complete ==> AllOnRecorded(block.joins, built.scope, built.inputs)
  {
    var none: map<string, Extent> := map[];
    var f, g := EvalFrom(MeaningOf(w.e), quals, from, w.x, none), EvalFrom(MeaningOf(w.e), quals, from, w.y, none);
    assert none.Keys == {} && START.ctes.Keys == {};
    FromSupports(w, quals, block.joins, 0, from, BuiltScope([], {}, true), START, [], [], none, none);
    assert [] + f == f && [] + g == g;
    BuildRecords(w.a, block.joins, from, BuiltScope([], {}, true), START);
  }

  /** Both databases keep the same rows. */
  lemma BlockSame(
    w: World, block: Block, quals: set<string>, from: seq<TableFactor<Block>>, built: BuiltScope, t: State, j: nat,
    m: map<Env, seq<Extent>>, n: map<Env, seq<Extent>>)
    requires block.Block? && CoversBlock(quals, block) && AllBase(from) && BaseSupports(w)
    requires AnalysableFrom(w.a, from, {}, {}) && (w.nulls ==> NullSafeFrom(w.a, from, START))
    requires (built, t) == BuildScope(w.a, block.joins, 0, from, BuiltScope([], {}, true), START)
    requires !t.unknown && !t.failed
    requires var columns := SelectColumns(block, built);
             j < |columns| && columns[j].complete && AllRefs(columns[j].inputs) <= w.direct
    requires forall k :: 0 <= k < |from| ==> w.x(from[k].name).rows.Keys == w.y(from[k].name).rows.Keys
    ensures SelectRows(w.e, block, EvalFrom(MeaningOf(w.e), quals, from, w.x, map[]), NO_ENV, m).rows.Keys
         == SelectRows(w.e, block, EvalFrom(MeaningOf(w.e), quals, from, w.y, map[]), NO_ENV, n).rows.Keys
  {
    var f, g := EvalFrom(MeaningOf(w.e), quals, from, w.x, map[]), EvalFrom(MeaningOf(w.e), quals, from, w.y, map[]);
    BlockFrames(w, block, quals, from, built, t);
    BaseFramesSameIds(w, quals, from);
    var (indirect, complete) := Clauses(block, built);
    ClausesInEveryColumn(block.projection, built.scope, indirect, complete, j);
    KeptSame(w, quals, block, built, f, g, m, n);
    KeptAreRows(w.e, block, f, g, m, n);
  }

  lemma KeptAreRows(
    e: Engine, block: Block, f: seq<Frame<Extent>>, g: seq<Frame<Extent>>, m: map<Env, seq<Extent>>,
    n: map<Env, seq<Extent>>)
    requires block.Block?
    requires KeptCombos(e, block.joins, block.selection, f, NO_ENV, m)
          == KeptCombos(e, block.joins, block.selection, g, NO_ENV, n)
    ensures SelectRows(e, block, f, NO_ENV, m).rows.Keys == SelectRows(e, block, g, NO_ENV, n).rows.Keys
  {
  }

  /**
   For a SELECT directly over base relations, agreement on all recorded inputs,
   direct and indirect, makes the whole column identical: the same rows are kept
   and they hold the same values. Join constraints may be of outer joins.
   */
  lemma AllInputsDetermineColumn(
    e: Engine, a: Analyzer, block: Block, quals: set<string>, from: seq<TableFactor<Block>>,
    subqueries: seq<Query<Block>>, x: Name -> Extent, y: Name -> Extent, j: nat)
    requires block.Block? && AllBase(from) && Analysable(a, Over(block, quals, from, subqueries), {}, {})
    requires MatchesSchemas(a, x, false) && MatchesSchemas(a, y, false)
    requires forall k :: 0 <= k < |from| ==> x(from[k].name).rows.Keys == y(from[k].name).rows.Keys
    requires var r := AnalyzeQuery(a, Over(block, quals, from, subqueries), START);
             && !r.1.unknown && !r.1.failed && j < |r.0| && r.0[j].complete
             && AgreeOn(a, x, y, AllRefs(r.0[j].inputs))
    ensures var q := Over(block, quals, from, subqueries);
            var s, t := Eval(MeaningOf(e), q, x, map[], NO_ENV), Eval(MeaningOf(e), q, y, map[], NO_ENV);
            && s.rows.Keys == t.rows.Keys
            && forall id :: id in s.rows && id in t.rows ==>
                 |s.rows[id]| > j && |t.rows[id]| > j && s.rows[id][j] == t.rows[id][j]
  {
    var q := Over(block, quals, from, subqueries);
    var column := AnalyzeQuery(a, q, START).0[j];
    var w := World(e, a, x, y, AllRefs(column.inputs), false);
    SchemasSupport(w);
    OverIsBlock(a, block, quals, from, subqueries);
    OverIsAnalysable(a, block, quals, from, subqueries);
    var m := EvalOver(e, block, quals, from, subqueries, x);
    var n := EvalOver(e, block, quals, from, subqueries, y);
    var (built, state) := BuildScope(a, block.joins, 0, from, BuiltScope([], {}, true), START);
    BlockSame(w, block, quals, from, built, state, j, m, n);
    assert DirectRefs(column.inputs) <= AllRefs(column.inputs);
    var none: map<string, Extent> := map[];
    assert none.Keys == {} && START.ctes.Keys == {};
    QuerySupports(w, q, START, none, none);
  }
}
