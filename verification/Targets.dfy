/**
 When two models are compiled to one physical relation
 (crates/phlo-transform-core/src/compile.rs, `target_relation` and
 `detect_target_collisions`).

 Folding the namespace into the table name is meant to keep targets unique. It
 does not, since a namespace that is also the shared schema is left out of the
 name; every collision is reported as an error.
 */
module Targets {
  import opened Wrappers
  import opened Collections
  import opened Identity
  import opened Sql
  import opened Resolve
  import opened Compile

  /** A segment the separator `__` cannot be mistaken in. */
  predicate IsPlain(segment: string) {
    && segment != "" && segment[|segment| - 1] != '_'
    && forall i, j :: 0 <= i < |segment| && 0 <= j < |segment| && j == i + 1 ==> segment[i] != '_' || segment[j] != '_'
  }

  predicate AllPlain(path: seq<string>) {
    forall i :: 0 <= i < |path| ==> IsPlain(path[i])
  }

  predicate PlainModel<S>(model: ModelDef<S>) {
    IsPlain(model.ns) && model.path != [] && AllPlain(model.path)
  }

  /** What the table is named after. */
  function TablePath<S>(w: Workspace<S>, model: ModelDef<S>): seq<string> {
    if TargetSchema(w, model) == model.ns then model.path else [model.ns] + model.path
  }

  lemma TableIsJoined<S>(w: Workspace<S>, model: ModelDef<S>)
    requires model.path != []
    ensures TargetRelation(w, model).table == JoinPath(TablePath(w, model))
  {
    assert ([model.ns] + model.path)[1..] == model.path;
  }

  lemma HeadsMeet(a: string, rest: string, b: string, other: string)
    requires IsPlain(a) && IsPlain(b) && a + "__" + rest == b + "__" + other
    ensures |a| >= |b|
  {
    var whole := a + "__" + rest;
    assert whole[|a|] == '_' && whole[|a| + 1] == '_';
    assert forall i :: 0 <= i < |b| ==> b[i] == whole[i];
    if |a| < |b| {
      assert false;
    }
  }

  lemma HeadsAgree(a: string, rest: string, b: string, other: string)
    requires IsPlain(a) && IsPlain(b) && a + "__" + rest == b + "__" + other
    ensures a == b && rest == other
  {
    HeadsMeet(a, rest, b, other);
    HeadsMeet(b, other, a, rest);
    var whole := a + "__" + rest;
    assert whole[..|a|] == a && whole[..|b|] == b;
    assert whole[|a| + 2..] == rest && whole[|b| + 2..] == other;
  }

  lemma WholeIsNotPlain(b: string, rest: string)
    ensures !IsPlain(b + "__" + rest)
  {
    var whole := b + "__" + rest;
    assert whole[|b|] == '_' && whole[|b| + 1] == '_';
  }

  lemma {:induction false} JoinPathInjective(a: seq<string>, b: seq<string>)
    requires a != [] && b != [] && AllPlain(a) && AllPlain(b) && JoinPath(a) == JoinPath(b)
    ensures a == b
  {
    if |a| == 1 && |b| > 1 {
      WholeIsNotPlain(b[0], JoinPath(b[1..]));
    } else if |b| == 1 && |a| > 1 {
      WholeIsNotPlain(a[0], JoinPath(a[1..]));
    } else if |a| > 1 {
      HeadsAgree(a[0], JoinPath(a[1..]), b[0], JoinPath(b[1..]));
      JoinPathInjective(a[1..], b[1..]);
      assert a == [a[0]] + a[1..] && b == [b[0]] + b[1..];
    }
  }

  /** Two models share a target exactly when their schemas agree and their table names are one text. */
  lemma TargetsMeetOnText<S>(w: Workspace<S>, a: ModelDef<S>, b: ModelDef<S>)
    requires a.path != [] && b.path != []
    ensures TargetRelation(w, a) == TargetRelation(w, b)
       <==> TargetSchema(w, a) == TargetSchema(w, b) && JoinPath(TablePath(w, a)) == JoinPath(TablePath(w, b))
  {
    TableIsJoined(w, a);
    TableIsJoined(w, b);
  }

  /** `inner` is repeated below a model's own namespace, and that namespace is the schema. */
  predicate Absorbs<S>(w: Workspace<S>, outer: ModelDef<S>, inner: ModelDef<S>) {
    TargetSchema(w, outer) == outer.ns && inner.ns != outer.ns && outer.path == [inner.ns] + inner.path
  }

  /** With plain segments, two models share a target exactly when they are one model or one absorbs the other. */
  lemma TargetsMeetExactly<S>(w: Workspace<S>, a: ModelDef<S>, b: ModelDef<S>)
    requires PlainModel(a) && PlainModel(b)
    ensures TargetRelation(w, a) == TargetRelation(w, b)
       <==> && TargetSchema(w, a) == TargetSchema(w, b)
            && ((a.ns == b.ns && a.path == b.path) || Absorbs(w, a, b) || Absorbs(w, b, a))
  {
    TableIsJoined(w, a);
    TableIsJoined(w, b);
    var p, q := TablePath(w, a), TablePath(w, b);
    if JoinPath(p) == JoinPath(q) {
      JoinPathInjective(p, q);
    }
    assert ([a.ns] + a.path)[0] == a.ns && ([a.ns] + a.path)[1..] == a.path;
    assert ([b.ns] + b.path)[0] == b.ns && ([b.ns] + b.path)[1..] == b.path;
  }

  /** A default schema named like a namespace lets different models share a target. */
  lemma AbsorbedTargetsCollide<S>(w: Workspace<S>, a: ModelDef<S>, ns: string)
    requires w.schema.Some? && w.schema.value != ns && a.ns == ns && a.path != [] && a.schema.None?
    ensures var outer := a.(ns := w.schema.value, path := [ns] + a.path);
            TargetRelation(w, a) == TargetRelation(w, outer) && (a.ns, a.path) != (outer.ns, outer.path)
  {
    assert ([ns] + a.path)[1..] == a.path;
  }

  /** So does a `__` inside a segment. */
  lemma UnderscoresCollide<S>(w: Workspace<S>, a: ModelDef<S>, x: string, y: string)
    requires a.path == [x, y]
    ensures TargetRelation(w, a) == TargetRelation(w, a.(path := [x + "__" + y])) && a.path != [x + "__" + y]
  {
    assert a.path[1..] == [y];
    assert JoinPath(a.path) == x + "__" + y == JoinPath([x + "__" + y]);
  }

  // -- Reporting ------------------------------------------------------------------------------------------

  /** The models compiled to one relation, in order. */
  function Targeting<S>(w: Workspace<S>, ids: seq<ModelId>, target: Relation): seq<ModelId> {
    if ids == [] then []
    else
      var rest, last := Targeting(w, ids[..|ids| - 1], target), ids[|ids| - 1];
      if last in w.models && TargetRelation(w, w.models[last]) == target then rest + [last] else rest
  }

  lemma {:induction false} TargetingMembers<S>(w: Workspace<S>, ids: seq<ModelId>, target: Relation)
    requires Distinct(ids)
    ensures Distinct(Targeting(w, ids, target))
    ensures Elements(Targeting(w, ids, target))
         == set id | id in ids && id in w.models && TargetRelation(w, w.models[id]) == target
  {
    if ids != [] {
      var rest, last := ids[..|ids| - 1], ids[|ids| - 1];
      TargetingMembers(w, rest, target);
      assert ids == rest + [last];
      var found := Targeting(w, rest, target);
      assert Elements(found + [last]) == Elements(found) + {last};
      assert last !in Elements(found);
    }
  }

  /** The relations several models are compiled to, with those models. */
  method DetectCollisions<S>(w: Workspace<S>, ids: seq<ModelId>) returns (reports: map<Relation, seq<ModelId>>)
    ensures forall t :: t in reports <==> |Targeting(w, ids, t)| > 1
    ensures forall t :: t in reports ==> reports[t] == Targeting(w, ids, t)
  {
    var byTarget: map<Relation, seq<ModelId>> := map[];
    for i := 0 to |ids|
      invariant forall t :: t in byTarget <==> Targeting(w, ids[..i], t) != []
      invariant forall t :: t in byTarget ==> byTarget[t] == Targeting(w, ids[..i], t)
    {
      assert ids[..i + 1][..i] == ids[..i];
      if ids[i] in w.models {
        var target := TargetRelation(w, w.models[ids[i]]);
        byTarget := byTarget[target := (if target in byTarget then byTarget[target] else []) + [ids[i]]];
      }
    }
    assert ids[..|ids|] == ids;
    reports := map t | t in byTarget && |byTarget[t]| > 1 :: byTarget[t];
  }

  /** A relation is reported if and only if two different models are compiled to it. */
  lemma CollisionReportedExactly<S>(w: Workspace<S>, ids: seq<ModelId>, target: Relation)
    requires Distinct(ids)
    ensures |Targeting(w, ids, target)| > 1
       <==> exists a, b :: a in ids && b in ids && a != b && a in w.models && b in w.models
              && TargetRelation(w, w.models[a]) == target && TargetRelation(w, w.models[b]) == target
  {
    var found := Targeting(w, ids, target);
    TargetingMembers(w, ids, target);
    if |found| > 1 {
      assert found[0] in Elements(found) && found[1] in Elements(found);
    }
    if a, b :| a in ids && b in ids && a != b && a in w.models && b in w.models
               && TargetRelation(w, w.models[a]) == target && TargetRelation(w, w.models[b]) == target {
      assert {a, b} <= Elements(found);
      SubsetSize({a, b}, Elements(found));
      DistinctSize(found);
    }
  }
}
