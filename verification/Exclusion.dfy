/**
 What `+` signs do to an exclude term. A leading `+` stands for every
 dependency of the matched models and a trailing one for every dependent of
 them; an exclude term with both starts its second walk from the result of the
 first (crates/phlo-transform-core/src/select.rs).
 */
module Exclusion {
  import opened Wrappers
  import opened Identity
  import opened Digraph
  import opened Select

  /** The matched models with what their `+` signs stand for. */
  ghost function Denoted(w: Workspace, term: SelectorTerm, changed: Option<set<ModelId>>): set<ModelId>
    requires w.graph.Closed()
  {
    Matches(w, term, changed) + Growth(w, term, changed)
  }

  /** Whoever reads a dependency of the models is itself one of their dependencies or dependents. */
  ghost predicate NoBystander(g: ModelGraph, models: set<ModelId>)
    requires g.Closed()
  {
    forall u :: u in Closure(g, models, true) ==>
      Neighbours(g, u, false) <= Closure(g, models, true) + Closure(g, models, false)
  }

  lemma ClosureKeepsSubset(g: ModelGraph, few: set<ModelId>, many: set<ModelId>, upstream: bool)
    requires g.Closed() && few <= many
    ensures Closure(g, few, upstream) <= Closure(g, many, upstream)
  {
  }

  lemma MatchesAreModels(w: Workspace, term: SelectorTerm, changed: Option<set<ModelId>>)
    requires WellFormed(w)
    ensures Matches(w, term, changed) <= w.graph.models
  {
  }

  /** Dependents of dependencies are dependencies or dependents exactly when nobody stands by. */
  lemma BystandersAreReached(g: ModelGraph, models: set<ModelId>)
    requires g.Closed() && models <= g.models
    ensures var up, down := Closure(g, models, true), Closure(g, models, false);
            Closure(g, up, false) <= up + down <==> NoBystander(g, models)
  {
    var up, down := Closure(g, models, true), Closure(g, models, false);
    if NoBystander(g, models) {
      forall id | id in up + down ensures Neighbours(g, id, false) <= up + down {
        if id in down {
          NeighboursInClosure(g, models, false, id);
        }
      }
      ClosedContainsClosure(g, up, false, up + down);
    } else {
      var u :| u in up && !(Neighbours(g, u, false) <= up + down);
      SeedInClosure(g, up, false);
      NeighboursInClosure(g, up, false, u);
    }
  }

  lemma ClosuresNest(g: ModelGraph, base: set<ModelId>)
    requires g.Closed() && base <= g.models
    ensures var up, down := Closure(g, base, true), Closure(g, base, false);
            base <= up && base <= down && up <= Closure(g, up, false) && down <= Closure(g, up, false)
  {
    SeedInClosure(g, base, true);
    SeedInClosure(g, base, false);
    SeedInClosure(g, Closure(g, base, true), false);
    ClosureKeepsSubset(g, base, Closure(g, base, true), false);
  }

  /** What an exclude term removes and stands for, by what the walks from its matches reach. */
  lemma ByDirection(
    w: Workspace, term: SelectorTerm, changed: Option<set<ModelId>>, base: set<ModelId>, up: set<ModelId>,
    down: set<ModelId>, both: set<ModelId>)
    requires w.graph.Closed() && base == Matches(w, term, changed)
    requires up == Closure(w.graph, base, true) && down == Closure(w.graph, base, false)
    requires both == Closure(w.graph, up, false)
    ensures Denoted(w, term, changed)
         == base + (if term.upstream then up else {}) + (if term.downstream then down else {})
    ensures Removal(w, term, changed)
         == if term.downstream then (if term.upstream then both else down) else if term.upstream then up else base
  {
    assert Growth(w, term, changed) == (if term.upstream then up else {}) + (if term.downstream then down else {});
  }

  /**
   An exclude term never removes less than it stands for, and no more if and only
   if it has one `+` at most, or whoever reads a dependency of its matches is
   itself a dependency or a dependent of them.
   */
  lemma RemovalExactly(w: Workspace, term: SelectorTerm, changed: Option<set<ModelId>>)
    requires WellFormed(w)
    ensures Denoted(w, term, changed) <= Removal(w, term, changed)
    ensures Removal(w, term, changed) == Denoted(w, term, changed)
            <==> !term.upstream || !term.downstream || NoBystander(w.graph, Matches(w, term, changed))
  {
    MatchesAreModels(w, term, changed);
    ExactlyFrom(w, term, changed, Matches(w, term, changed));
  }

  lemma ExactlyFrom(w: Workspace, term: SelectorTerm, changed: Option<set<ModelId>>, base: set<ModelId>)
    requires w.graph.Closed() && base == Matches(w, term, changed) <= w.graph.models
    ensures Denoted(w, term, changed) <= Removal(w, term, changed)
    ensures Removal(w, term, changed) == Denoted(w, term, changed)
            <==> !term.upstream || !term.downstream || NoBystander(w.graph, base)
  {
    var up, down := Closure(w.graph, base, true), Closure(w.graph, base, false);
    var both := Closure(w.graph, up, false);
    ClosuresNest(w.graph, base);
    ByDirection(w, term, changed, base, up, down, both);
    BystandersAreReached(w.graph, base);
    WalksInTurn(base, up, down, both, term.upstream, term.downstream);
  }

  lemma WalksInTurn(
    base: set<ModelId>, up: set<ModelId>, down: set<ModelId>, both: set<ModelId>, upstream: bool, downstream: bool)
    requires base <= up <= both && base <= down <= both
    ensures var denoted := base + (if upstream then up else {}) + (if downstream then down else {});
            var removed := if downstream then (if upstream then both else down) else if upstream then up else base;
            && denoted <= removed
            && (removed == denoted <==> !upstream || !downstream || both <= up + down)
  {
  }

  // -- The smallest workspace with a bystander -------------------------------------------------------

  lemma LeftAlone(g: ModelGraph, shared: ModelId, left: ModelId)
    requires g.Closed() && shared in g.models && left in g.models
    requires Neighbours(g, left, true) == {shared} && Neighbours(g, shared, true) == {}
    requires Neighbours(g, left, false) == {}
    ensures Closure(g, {left}, true) <= {shared, left} && Closure(g, {left}, false) <= {left}
  {
    ClosedContainsClosure(g, {left}, true, {shared, left});
    ClosedContainsClosure(g, {left}, false, {left});
  }

  lemma SharedIsAbove(g: ModelGraph, shared: ModelId, left: ModelId)
    requires g.Closed() && left in g.models && shared in Neighbours(g, left, true)
    ensures left in Closure(g, {left}, true) && shared in Closure(g, {left}, true)
  {
    SeedInClosure(g, {left}, true);
    NeighboursInClosure(g, {left}, true, left);
  }

  lemma ReadersAreBelow(g: ModelGraph, above: set<ModelId>, shared: ModelId, right: ModelId)
    requires g.Closed() && above <= g.models && shared in above && right in Neighbours(g, shared, false)
    ensures right in Closure(g, above, false)
  {
    SeedInClosure(g, above, false);
    NeighboursInClosure(g, above, false, shared);
  }

  /** Two models over a shared one. */
  ghost predicate IsFork(g: ModelGraph, shared: ModelId, left: ModelId, right: ModelId) {
    && shared != left && left != right && shared != right
    && g.Closed() && g.models == {shared, left, right}
    && Neighbours(g, left, true) == {shared} && Neighbours(g, shared, true) == {}
    && Neighbours(g, left, false) == {} && right in Neighbours(g, shared, false)
  }

  lemma RightIsApart(g: ModelGraph, shared: ModelId, left: ModelId, right: ModelId)
    requires IsFork(g, shared, left, right)
    ensures right !in Closure(g, {left}, true) && right !in Closure(g, {left}, false)
  {
    LeftAlone(g, shared, left);
  }

  lemma RightIsReached(g: ModelGraph, shared: ModelId, left: ModelId, right: ModelId)
    requires IsFork(g, shared, left, right)
    ensures right in Closure(g, Closure(g, {left}, true), false)
  {
    SharedIsAbove(g, shared, left);
    ReadersAreBelow(g, Closure(g, {left}, true), shared, right);
  }

  lemma BothWays(w: Workspace, term: SelectorTerm, changed: Option<set<ModelId>>, id: ModelId)
    requires w.graph.Closed() && term.upstream && term.downstream
    ensures var base := Matches(w, term, changed);
            && (id in Removal(w, term, changed) <==> id in Closure(w.graph, Closure(w.graph, base, true), false))
            && (id in Denoted(w, term, changed)
                <==> id in base || id in Closure(w.graph, base, true) || id in Closure(w.graph, base, false))
  {
    var base := Matches(w, term, changed);
    var up := Closure(w.graph, base, true);
    ByDirection(w, term, changed, base, up, Closure(w.graph, base, false), Closure(w.graph, up, false));
  }

  const SHARED := ModelId("n", ["shared"])
  const LEFT := ModelId("n", ["left"])
  const RIGHT := ModelId("n", ["right"])

  const FORK := Workspace(
    [Selectable(SHARED, [], []), Selectable(LEFT, [], []), Selectable(RIGHT, [], [])],
    ModelGraph({SHARED, LEFT, RIGHT}, map[SHARED := {}, LEFT := {SHARED}, RIGHT := {SHARED}]))

  /** `+n.left+`. */
  const AROUND_LEFT := SelectorTerm(true, true, Name(LogicalName(LEFT)), "+n.left+")

  lemma ThreeNames()
    ensures SHARED != LEFT && LEFT != RIGHT && SHARED != RIGHT
    ensures IsModelId(SHARED) && IsModelId(LEFT) && IsModelId(RIGHT)
  {
    assert SHARED.path[0][0] != LEFT.path[0][0] && LEFT.path[0][0] != RIGHT.path[0][0];
    assert SHARED.path[0][0] != RIGHT.path[0][0];
  }

  lemma ForkIsWellFormed()
    ensures WellFormed(FORK) && IsFork(FORK.graph, SHARED, LEFT, RIGHT)
  {
    ThreeNames();
  }

  lemma LeftIsMatched()
    ensures Matches(FORK, AROUND_LEFT, None) == {LEFT}
  {
    ForkIsWellFormed();
    FullNameSelects(FORK, AROUND_LEFT, None, LEFT);
  }

  /**
   Excluding `+n.left+` removes `n.right`, which is neither a dependency nor a
   dependent of `n.left`, from a selection of everything.
   */
  lemma BystanderIsRemoved()
    ensures WellFormed(FORK) && RIGHT in Ids(FORK.models)
    ensures RIGHT !in Denoted(FORK, AROUND_LEFT, None) && RIGHT in Removal(FORK, AROUND_LEFT, None)
    ensures RIGHT !in Selected(FORK, SelectorSet([], [AROUND_LEFT], [], false, false), None)
  {
    ForkIsWellFormed();
    LeftIsMatched();
    RightIsApart(FORK.graph, SHARED, LEFT, RIGHT);
    RightIsReached(FORK.graph, SHARED, LEFT, RIGHT);
    BothWays(FORK, AROUND_LEFT, None, RIGHT);
    OneExclude(FORK, AROUND_LEFT, None);
  }

  lemma OneExclude(w: Workspace, term: SelectorTerm, changed: Option<set<ModelId>>)
    requires WellFormed(w)
    ensures Selected(w, SelectorSet([], [term], [], false, false), changed)
         == w.graph.models - Removal(w, term, changed)
  {
    assert [term][..0] == [];
    assert UnionRemoval(w, [term], changed) == UnionRemoval(w, [], changed) + Removal(w, term, changed);
  }
}
