/**
 The analyser's walk over a query
 (crates/phlo-transform-core/src/analyze.rs).

 WITH columns and the flags of the analysis are fields the walk updates; its
 answers are those of the functions in `Analyze`.
 */
module AnalyzeRun {
  import opened Wrappers
  import opened Graph
  import opened Resolve
  import opened Sql
  import opened Relational
  import opened Semantic
  import Analyze
  import Lineage

  lemma LiteralNext(row: seq<Expr>, expr: Expr)
    ensures var i := Analyze.Infer(expr, []);
            Analyze.LiteralColumns(row + [expr])
              == Analyze.LiteralColumns(row)
                 + [Analyze.Column(PositionName(|row|), i.nullability, i.inputs, i.complete)]
  {
    assert (row + [expr])[..|row|] == row;
  }

  class QueryAnalyzer {
    const analyzer: Analyze.Analyzer
    var ctes: map<string, seq<Analyze.Column>>
    var unknown: bool
    var failed: bool

    ghost function State(): Analyze.State
      reads this
    {
      Analyze.State(ctes, unknown, failed)
    }

    constructor (analyzer: Analyze.Analyzer)
      ensures this.analyzer == analyzer && State() == Analyze.State(map[], false, false)
    {
      this.analyzer := analyzer;
      ctes, unknown, failed := map[], false, false;
    }

    method AnalyzeQuery(q: Query<Block>) returns (columns: seq<Analyze.Column>)
      modifies this
      ensures (columns, State()) == Analyze.AnalyzeQuery(analyzer, q, old(State()))
      decreases q, 1
    {
      for i := 0 to |q.ctes|
        invariant Analyze.AnalyzeCtes(analyzer, q.ctes[i..], State())
               == Analyze.AnalyzeCtes(analyzer, q.ctes, old(State()))
      {
        var cte := q.ctes[i];
        assert q.ctes[i..][0] == cte && q.ctes[i..][1..] == q.ctes[i + 1..];
        var found := AnalyzeQuery(cte.query);
        ctes := ctes[Lower(cte.name) := found];
      }
      assert q.ctes[|q.ctes|..] == [];
      columns := AnalyzeBody(q.body);
    }

    method AnalyzeBody(body: SetExpr<Block>) returns (columns: seq<Analyze.Column>)
      modifies this
      ensures (columns, State()) == Analyze.AnalyzeBody(analyzer, body, old(State()))
      decreases body, 0
    {
      match body
      case Select(block, _, from, _) =>
        if block.Rows? {
          columns := AnalyzeValues(block.rows);
        } else {
          var built := BuildScope(block.joins, from);
          columns := AnalyzeProjection(block, built);
        }
      case Nested(query) =>
        columns := AnalyzeQuery(query);
      case SetOperation(_, left, right) =>
        var l := AnalyzeBody(left);
        var r := AnalyzeBody(right);
        if |l| != |r| {
          failed := true;
        }
        columns := Combine(l, r);
    }

    method AnalyzeValues(rows: seq<seq<Expr>>) returns (columns: seq<Analyze.Column>)
      ensures columns == Analyze.RowColumns(rows)
    {
      columns := [];
      if rows != [] {
        var row := rows[0];
        for j := 0 to |row|
          invariant columns == Analyze.LiteralColumns(row[..j])
        {
          var inferred := Analyze.Infer(row[j], []);
          var name := PositionName(j);
          LiteralNext(row[..j], row[j]);
          assert row[..j] + [row[j]] == row[..j + 1];
          columns := columns + [Analyze.Column(name, inferred.nullability, inferred.inputs, inferred.complete)];
        }
        assert row[..|row|] == row;
      }
    }

    method Combine(left: seq<Analyze.Column>, right: seq<Analyze.Column>) returns (combined: seq<Analyze.Column>)
      ensures combined == Analyze.CombineColumns(left, right)
    {
      combined := [];
      for j := 0 to |left|
        invariant combined == Analyze.CombineColumns(left[..j], right)
      {
        combined := combined + [if j < |right| then Analyze.CombineColumn(left[j], right[j]) else left[j]];
        assert left[..j + 1][..j] == left[..j];
      }
      assert left[..|left|] == left;
    }

    method BuildScope(joins: seq<Join>, from: seq<TableFactor<Block>>) returns (built: Analyze.BuiltScope)
      modifies this
      ensures (built, State())
           == Analyze.BuildScope(analyzer, joins, 0, from, Analyze.BuiltScope([], {}, true), old(State()))
      decreases from, 0
    {
      built := Analyze.BuiltScope([], {}, true);
      for i := 0 to |from|
        invariant Analyze.BuildScope(analyzer, joins, i, from[i..], built, State())
               == Analyze.BuildScope(analyzer, joins, 0, from, Analyze.BuiltScope([], {}, true), old(State()))
      {
        assert from[i..][0] == from[i] && from[i..][1..] == from[i + 1..];
        var relation := AnalyzeFactor(from[i]);
        if relation.Some? {
          var scope := built.scope + [relation.value];
          var join := JoinAt(joins, i);
          if join.on.Some? {
            var inferred := Analyze.Infer(join.on.value, scope);
            built := Analyze.BuiltScope(
              scope, built.inputs + Analyze.MarkIndirect(inferred.inputs, Lineage.JoinKey),
              built.complete && inferred.complete);
          } else {
            built := built.(scope := scope);
          }
        }
      }
      assert from[|from|..] == [];
    }

    method AnalyzeFactor(factor: TableFactor<Block>) returns (relation: Option<Analyze.ScopedRelation>)
      modifies this
      ensures (relation, State()) == Analyze.AnalyzeFactor(analyzer, factor, old(State()))
      decreases factor, 0
    {
      match factor
      case Table(name, alias) =>
        if |name| == 1 && Lower(name[0]) in ctes {
          return Some(Analyze.ScopedRelation(Qualifier(name, alias), ctes[Lower(name[0])]));
        }
        if !IsRelationName(name) {
          return None;
        }
        var columns := RelationColumns(name);
        relation := Some(Analyze.ScopedRelation(Qualifier(name, alias), columns));
      case TableFunction(_, _) =>
        relation := None;
      case Derived(query, alias) =>
        var columns := AnalyzeQuery(query);
        relation := Some(Analyze.ScopedRelation(alias, columns));
    }

    /** A missing or partial schema leaves the analysis partial. */
    method RelationColumns(name: Name) returns (columns: seq<Analyze.Column>)
      modifies this`unknown
      ensures var (found, missing) := Analyze.BaseColumns(analyzer, name);
              columns == found && unknown == (old(unknown) || missing)
    {
      var relation := Analyze.RelationOf(analyzer.resolve(name));
      columns := [];
      if relation.Some? {
        if relation.value in analyzer.schemas {
          var schema := analyzer.schemas[relation.value];
          if !schema.known {
            unknown := true;
          }
          columns := Analyze.SchemaColumns(relation.value, schema.columns);
        } else {
          unknown := true;
        }
      }
    }

    method AnalyzeProjection(block: Block, built: Analyze.BuiltScope) returns (outputs: seq<Analyze.Column>)
      requires block.Block?
      ensures outputs == Analyze.SelectColumns(block, built)
    {
      var indirect, complete := built.inputs, built.complete;
      if block.selection.Some? {
        var inferred := Analyze.Infer(block.selection.value, built.scope);
        complete := complete && inferred.complete;
        indirect := indirect + Analyze.MarkIndirect(inferred.inputs, Lineage.Filter);
      }
      outputs := [];
      for i := 0 to |block.projection|
        invariant outputs == Analyze.ItemColumns(block.projection[..i], built.scope, indirect, complete)
      {
        assert block.projection[..i + 1][..i] == block.projection[..i];
        outputs := outputs + Analyze.ItemOf(block.projection[i], |outputs|, built.scope, indirect, complete);
      }
      assert block.projection[..|block.projection|] == block.projection;
    }
  }
}
