/**
 Resolving selectors against the workspace
 (crates/phlo-transform-core/src/select.rs).
 */
module Select {
  import opened Wrappers
  import opened Collections
  import opened Ordering
  import opened Identity
  import opened Digraph

  datatype SelectorKind =
    | All
    | Changed
    | Tag(tag: string)
    | Namespace(ns: string)
    | Source(value: string)
    | Name(pattern: string)

  datatype SelectorTerm = SelectorTerm(upstream: bool, downstream: bool, kind: SelectorKind, text: string)

  datatype SelectorSet = SelectorSet(
    includes: seq<SelectorTerm>,
    excludes: seq<SelectorTerm>,
    filters: seq<SelectorTerm>,
    expandUpstream: bool,
    expandDownstream: bool)

  datatype SelectorError =
    | NoMatches(term: string)
    | AmbiguousTerm(term: string, candidates: set<ModelId>)
    | ChangedUnavailable

  /** The parts of a compiled model that terms look at. */
  datatype Selectable = Selectable(id: ModelId, tags: seq<string>, sources: seq<SourceId>)

  datatype Workspace = Workspace(models: seq<Selectable>, graph: ModelGraph)

  function Ids(models: seq<Selectable>): set<ModelId> {
    set m | m in models :: m.id
  }

  ghost predicate WellFormed(w: Workspace) {
    && w.graph.Closed() && w.graph.models == Ids(w.models)
    && forall m :: m in w.models ==> IsModelId(m.id)
  }

  // -- What a term matches ------------------------------------------------------------------------

  predicate ReadsSource(m: Selectable, value: string) {
    exists s :: s in m.sources
      && (SourceName(s) == value || value + "." <= SourceName(s) || value in s.parts)
  }

  function LastSegment(id: ModelId): string {
    if id.path == [] then "" else id.path[|id.path| - 1]
  }

  /** Exact name or URI, then a `prefix.*` glob, then a unique local name or last segment. */
  function MatchName(w: Workspace, term: SelectorTerm, pattern: string): Result<set<ModelId>, SelectorError> {
    var parsed := ParseModelId(pattern);
    if parsed.Ok? && parsed.value in Ids(w.models) then Ok({parsed.value})
    else if |pattern| >= 2 && pattern[|pattern| - 2..] == ".*" then
      var prefix := pattern[..|pattern| - 2];
      NonEmpty(
        set m | m in w.models && (LogicalName(m.id) == prefix || prefix + "." <= LogicalName(m.id)) :: m.id, term)
    else
      var found := set m | m in w.models && (LocalName(m.id) == pattern || LastSegment(m.id) == pattern) :: m.id;
      if |found| > 1 then Err(AmbiguousTerm(term.text, found)) else NonEmpty(found, term)
  }

  function NonEmpty(matched: set<ModelId>, term: SelectorTerm): Result<set<ModelId>, SelectorError> {
    if matched == {} then Err(NoMatches(term.text)) else Ok(matched)
  }

  /** A term's matches before `+` expansion; only `changed` may match nothing. */
  function BaseMatch(w: Workspace, term: SelectorTerm, changed: Option<set<ModelId>>)
    : (r: Result<set<ModelId>, SelectorError>)
    ensures r.Ok? ==> r.value <= Ids(w.models)
    ensures r.Ok? && !term.kind.Changed? ==> r.value != {}
  {
    match term.kind
    case All => NonEmpty(Ids(w.models), term)
    case Changed =>
      if changed.None? then Err(ChangedUnavailable) else Ok(set id | id in changed.value && id in Ids(w.models))
    case Tag(tag) => NonEmpty(set m | m in w.models && tag in m.tags :: m.id, term)
    case Namespace(ns) => NonEmpty(set m | m in w.models && m.id.ns == ns :: m.id, term)
    case Source(value) => NonEmpty(set m | m in w.models && ReadsSource(m, value) :: m.id, term)
    case Name(pattern) => MatchName(w, term, pattern)
  }

  /** A model's logical name, or its URI, selects that model and nothing else. */
  lemma FullNameSelects(w: Workspace, term: SelectorTerm, changed: Option<set<ModelId>>, id: ModelId)
    requires IsModelId(id) && id in Ids(w.models)
    requires term.kind == Name(LogicalName(id)) || term.kind == Name(ModelUri(id))
    ensures BaseMatch(w, term, changed) == Ok({id})
  {
    ParseRoundTrip(id);
  }

  // -- Expansion ------------------------------------------------------------------------------------

  /** Everything the seed reaches: its transitive dependencies, or dependents, and itself. */
  ghost function Closure(g: ModelGraph, seed: set<ModelId>, upstream: bool): (r: set<ModelId>)
    requires g.Closed()
  {
    set m | m in g.models && exists s :: s in seed && (if upstream then Reaches(g, s, m) else Reaches(g, m, s))
  }

  function Neighbours(g: ModelGraph, id: ModelId, upstream: bool): set<ModelId>
    requires g.deps.Keys == g.models
  {
    if upstream then (if id in g.deps then g.deps[id] else {})
    else set m | m in g.models && id in g.deps[m]
  }

  lemma NeighboursInClosure(g: ModelGraph, seed: set<ModelId>, upstream: bool, id: ModelId)
    requires g.Closed() && id in Closure(g, seed, upstream)
    ensures Neighbours(g, id, upstream) <= Closure(g, seed, upstream)
  {
    forall n | n in Neighbours(g, id, upstream) ensures n in Closure(g, seed, upstream) {
      if upstream {
        var s :| s in seed && Reaches(g, s, id);
        ReachesFurther(g, s, id, n);
      } else {
        var s :| s in seed && Reaches(g, id, s);
        ReachesBefore(g, n, id, s);
      }
    }
  }

  lemma ClosedContainsClosure(g: ModelGraph, seed: set<ModelId>, upstream: bool, included: set<ModelId>)
    requires g.Closed() && seed <= included <= g.models
    requires NothingLeft(g, included, {}, upstream)
    ensures Closure(g, seed, upstream) <= included
  {
    forall m | m in Closure(g, seed, upstream) ensures m in included {
      if upstream {
        var s :| s in seed && Reaches(g, s, m);
        var path :| IsWalk(g, path) && path[0] == s && path[|path| - 1] == m;
        WalkStays(g, included, path);
      } else {
        var s :| s in seed && Reaches(g, m, s);
        var path :| IsWalk(g, path) && path[0] == m && path[|path| - 1] == s;
        forall x, d | x in g.models && d in included && d in g.deps[x] ensures x in included {
          assert x in Neighbours(g, d, false);
        }
        WalkStaysBack(g, included, path);
      }
    }
  }

  lemma SeedInClosure(g: ModelGraph, seed: set<ModelId>, upstream: bool)
    requires g.Closed() && seed <= g.models
    ensures seed <= Closure(g, seed, upstream)
  {
    forall s | s in seed ensures s in Closure(g, seed, upstream) {
      ReachesSelf(g, s);
    }
  }

  /** No neighbour leads out of the set. */
  ghost predicate NothingLeft(g: ModelGraph, included: set<ModelId>, frontier: set<ModelId>, upstream: bool)
    requires g.deps.Keys == g.models
  {
    forall id :: id in included && id !in frontier ==> Neighbours(g, id, upstream) <= included
  }

  lemma TakeFromFrontier(
    g: ModelGraph, included: set<ModelId>, frontier: set<ModelId>, upstream: bool, id: ModelId)
    requires g.deps.Keys == g.models && NothingLeft(g, included, frontier, upstream) && id in frontier
    ensures var added := Neighbours(g, id, upstream) - included;
            NothingLeft(g, included + added, frontier - {id} + added, upstream)
  {
  }

  /** The worklist, inside any set that contains the seed and that no neighbour leads out of. */
  method Spread(g: ModelGraph, seed: set<ModelId>, upstream: bool, ghost limit: set<ModelId>)
    returns (included: set<ModelId>)
    requires g.deps.Keys == g.models && seed <= limit && NothingLeft(g, limit, {}, upstream)
    ensures seed <= included <= limit && NothingLeft(g, included, {}, upstream)
  {
    included := seed;
    var frontier := seed;
    while frontier != {}
      invariant seed <= included <= limit && frontier <= included
      invariant NothingLeft(g, included, frontier, upstream)
      decreases limit - included, |frontier|
    {
      var id :| id in frontier;
      TakeFromFrontier(g, included, frontier, upstream, id);
      var added := Neighbours(g, id, upstream) - included;
      assert Neighbours(g, id, upstream) <= limit;
      if added == {} {
        assert included + added == included && frontier - {id} + added == frontier - {id};
      }
      included := included + added;
      frontier := frontier - {id} + added;
    }
  }

  /** A worklist computes the closure on every graph, cyclic ones included. */
  method Expand(g: ModelGraph, seed: set<ModelId>, upstream: bool) returns (included: set<ModelId>)
    requires g.Closed() && seed <= g.models
    ensures included == Closure(g, seed, upstream)
  {
    SeedInClosure(g, seed, upstream);
    forall id | id in Closure(g, seed, upstream)
      ensures Neighbours(g, id, upstream) <= Closure(g, seed, upstream)
    {
      NeighboursInClosure(g, seed, upstream, id);
    }
    included := Spread(g, seed, upstream, Closure(g, seed, upstream));
    ClosedContainsClosure(g, seed, upstream, included);
  }

  // -- What a selector set selects -----------------------------------------------------------------

  function Matches(w: Workspace, term: SelectorTerm, changed: Option<set<ModelId>>): set<ModelId> {
    match BaseMatch(w, term, changed)
    case Ok(ids) => ids
    case Err(_) => {}
  }

  /** The error of the first term that has one. */
  function FirstError(w: Workspace, terms: seq<SelectorTerm>, changed: Option<set<ModelId>>): Option<SelectorError> {
    if terms == [] then None
    else
      var before := FirstError(w, terms[..|terms| - 1], changed);
      if before.Some? then before
      else
        match BaseMatch(w, terms[|terms| - 1], changed)
        case Ok(_) => None
        case Err(error) => Some(error)
  }

  function UnionMatches(w: Workspace, terms: seq<SelectorTerm>, changed: Option<set<ModelId>>): set<ModelId> {
    if terms == [] then {}
    else UnionMatches(w, terms[..|terms| - 1], changed) + Matches(w, terms[|terms| - 1], changed)
  }

  /** What a term's `+` signs add: both directions start from its own matches. */
  ghost function Growth(w: Workspace, term: SelectorTerm, changed: Option<set<ModelId>>): set<ModelId>
    requires w.graph.Closed()
  {
    var base := Matches(w, term, changed);
    (if term.upstream then Closure(w.graph, base, true) else {})
    + (if term.downstream then Closure(w.graph, base, false) else {})
  }

  ghost function UnionGrowth(w: Workspace, terms: seq<SelectorTerm>, changed: Option<set<ModelId>>): set<ModelId>
    requires w.graph.Closed()
  {
    if terms == [] then {}
    else UnionGrowth(w, terms[..|terms| - 1], changed) + Growth(w, terms[|terms| - 1], changed)
  }

  function AllMatch(w: Workspace, terms: seq<SelectorTerm>, changed: Option<set<ModelId>>): set<ModelId> {
    if terms == [] then Ids(w.models)
    else AllMatch(w, terms[..|terms| - 1], changed) * Matches(w, terms[|terms| - 1], changed)
  }

  /** What an exclude term removes: with both `+` signs, all dependents of all its dependencies. */
  ghost function Removal(w: Workspace, term: SelectorTerm, changed: Option<set<ModelId>>): set<ModelId>
    requires w.graph.Closed()
  {
    var base := Matches(w, term, changed);
    var above := if term.upstream then Closure(w.graph, base, true) else base;
    if term.downstream then Closure(w.graph, above, false) else above
  }

  ghost function UnionRemoval(w: Workspace, terms: seq<SelectorTerm>, changed: Option<set<ModelId>>): set<ModelId>
    requires w.graph.Closed()
  {
    if terms == [] then {}
    else UnionRemoval(w, terms[..|terms| - 1], changed) + Removal(w, terms[|terms| - 1], changed)
  }

  function Base(w: Workspace, s: SelectorSet, changed: Option<set<ModelId>>): set<ModelId> {
    if s.includes == [] then Ids(w.models) else UnionMatches(w, s.includes, changed)
  }

  /** The selection as one expression. */
  ghost function Selected(w: Workspace, s: SelectorSet, changed: Option<set<ModelId>>): set<ModelId>
    requires w.graph.Closed()
  {
    var keep := AllMatch(w, s.filters, changed);
    var seed := Base(w, s, changed) * keep;
    (Base(w, s, changed) + UnionGrowth(w, s.includes, changed)) * keep
    + Flags(w, s, seed) - UnionRemoval(w, s.excludes, changed)
  }

  // -- Resolving a selector set ------------------------------------------------------------------------

  /** The terms responsible for each model. */
  type Origins = map<ModelId, seq<string>>

  function Push(origins: Origins, ids: set<ModelId>, text: string): (r: Origins)
    ensures r.Keys == origins.Keys + ids
  {
    map id | id in origins.Keys + ids ::
      (if id in origins then origins[id] else []) + (if id in ids then [text] else [])
  }

  function Retain(origins: Origins, keep: set<ModelId>): (r: Origins)
    ensures r.Keys == origins.Keys * keep
  {
    map id | id in origins && id in keep :: origins[id]
  }

  /** The include terms that match a model directly, in order; `*` when there are none. */
  function MatchedTexts(w: Workspace, terms: seq<SelectorTerm>, changed: Option<set<ModelId>>, id: ModelId)
    : seq<string>
  {
    if terms == [] then []
    else
      MatchedTexts(w, terms[..|terms| - 1], changed, id)
      + (if id in Matches(w, terms[|terms| - 1], changed) then [terms[|terms| - 1].text] else [])
  }

  ghost predicate TellsTexts(w: Workspace, terms: seq<SelectorTerm>, changed: Option<set<ModelId>>, matched: Origins) {
    forall id {:trigger TextsFor(matched, id)} :: TextsFor(matched, id) == MatchedTexts(w, terms, changed, id)
  }

  lemma PushTellsTexts(w: Workspace, terms: seq<SelectorTerm>, changed: Option<set<ModelId>>, matched: Origins)
    requires terms != [] && TellsTexts(w, terms[..|terms| - 1], changed, matched)
    ensures var last := terms[|terms| - 1];
            TellsTexts(w, terms, changed, Push(matched, Matches(w, last, changed), last.text))
  {
    var last := terms[|terms| - 1];
    var pushed := Push(matched, Matches(w, last, changed), last.text);
    forall id ensures TextsFor(pushed, id) == MatchedTexts(w, terms, changed, id) {
      assert TextsFor(matched, id) == MatchedTexts(w, terms[..|terms| - 1], changed, id);
    }
  }

  function TextsFor(origins: Origins, id: ModelId): seq<string> {
    if id in origins then origins[id] else []
  }

  function Everything(w: Workspace): Origins {
    map id | id in Ids(w.models) :: ["*"]
  }

  /** What the include terms add beyond each one's own matches. */
  ghost function UnionReached(w: Workspace, terms: seq<SelectorTerm>, changed: Option<set<ModelId>>): set<ModelId>
    requires w.graph.Closed()
  {
    if terms == [] then {}
    else
      var last := terms[|terms| - 1];
      UnionReached(w, terms[..|terms| - 1], changed) + (Growth(w, last, changed) - Matches(w, last, changed))
  }

  lemma {:induction false} ReachedIsGrowth(w: Workspace, terms: seq<SelectorTerm>, changed: Option<set<ModelId>>)
    requires w.graph.Closed()
    ensures UnionMatches(w, terms, changed) + UnionReached(w, terms, changed)
         == UnionMatches(w, terms, changed) + UnionGrowth(w, terms, changed)
  {
    if terms != [] {
      ReachedIsGrowth(w, terms[..|terms| - 1], changed);
    }
  }

  method ExpandTerm(w: Workspace, term: SelectorTerm, base: set<ModelId>, before: Origins) returns (expanded: Origins)
    requires WellFormed(w) && base <= w.graph.models
    ensures expanded.Keys
         == before.Keys
          + (if term.upstream then Closure(w.graph, base, true) - base else {})
          + (if term.downstream then Closure(w.graph, base, false) - base else {})
  {
    expanded := before;
    if term.upstream {
      var grown := Expand(w.graph, base, true);
      expanded := Push(expanded, grown - base, term.text);
    }
    if term.downstream {
      var grown := Expand(w.graph, base, false);
      expanded := Push(expanded, grown - base, term.text);
    }
  }

  ghost predicate IncludedSoFar(
    w: Workspace, terms: seq<SelectorTerm>, changed: Option<set<ModelId>>, matched: Origins, expanded: Origins)
    requires w.graph.Closed()
  {
    && matched.Keys == UnionMatches(w, terms, changed) && expanded.Keys == UnionReached(w, terms, changed)
    && TellsTexts(w, terms, changed, matched)
  }

  lemma IncludeStep(
    w: Workspace, terms: seq<SelectorTerm>, changed: Option<set<ModelId>>, base: set<ModelId>, before: Origins,
    reached: Origins, expanded: Origins)
    requires w.graph.Closed() && terms != [] && IncludedSoFar(w, terms[..|terms| - 1], changed, before, reached)
    requires base == Matches(w, terms[|terms| - 1], changed)
    requires expanded.Keys
          == reached.Keys
           + (if terms[|terms| - 1].upstream then Closure(w.graph, base, true) - base else {})
           + (if terms[|terms| - 1].downstream then Closure(w.graph, base, false) - base else {})
    ensures IncludedSoFar(w, terms, changed, Push(before, base, terms[|terms| - 1].text), expanded)
  {
    PushTellsTexts(w, terms, changed, before);
    ReachedStep(w, terms, changed, base);
  }

  lemma ReachedStep(w: Workspace, terms: seq<SelectorTerm>, changed: Option<set<ModelId>>, base: set<ModelId>)
    requires w.graph.Closed() && terms != [] && base == Matches(w, terms[|terms| - 1], changed)
    ensures UnionReached(w, terms, changed)
         == UnionReached(w, terms[..|terms| - 1], changed)
          + (if terms[|terms| - 1].upstream then Closure(w.graph, base, true) - base else {})
          + (if terms[|terms| - 1].downstream then Closure(w.graph, base, false) - base else {})
  {
    var up, down := Closure(w.graph, base, true), Closure(w.graph, base, false);
    assert up + down - base == (up - base) + (down - base);
  }

  /** One more include term. */
  method IncludeTerm(
    w: Workspace, terms: seq<SelectorTerm>, changed: Option<set<ModelId>>, before: Origins, reached: Origins)
    returns (error: Option<SelectorError>, matched: Origins, expanded: Origins)
    requires WellFormed(w) && terms != [] && FirstError(w, terms[..|terms| - 1], changed).None?
    requires IncludedSoFar(w, terms[..|terms| - 1], changed, before, reached)
    ensures error == FirstError(w, terms, changed)
    ensures error.None? ==> IncludedSoFar(w, terms, changed, matched, expanded)
  {
    var term := terms[|terms| - 1];
    match BaseMatch(w, term, changed) {
      case Err(e) =>
        return Some(e), before, reached;
      case Ok(base) =>
        matched := Push(before, base, term.text);
        expanded := ExpandTerm(w, term, base, reached);
        IncludeStep(w, terms, changed, base, before, reached, expanded);
        return None, matched, expanded;
    }
  }

  method IncludeTerms(w: Workspace, terms: seq<SelectorTerm>, changed: Option<set<ModelId>>)
    returns (error: Option<SelectorError>, matched: Origins, expanded: Origins)
    requires WellFormed(w)
    ensures error == FirstError(w, terms, changed)
    ensures error.None? ==> IncludedSoFar(w, terms, changed, matched, expanded)
  {
    error, matched, expanded := None, map[], map[];
    for i := 0 to |terms|
      invariant error.None? && FirstError(w, terms[..i], changed).None?
      invariant IncludedSoFar(w, terms[..i], changed, matched, expanded)
    {
      assert terms[..i + 1][..i] == terms[..i];
      error, matched, expanded := IncludeTerm(w, terms[..i + 1], changed, matched, expanded);
      if error.Some? {
        FirstErrorStays(w, terms, changed, i + 1);
        return;
      }
    }
    assert terms[..|terms|] == terms;
  }

  lemma {:induction false} FirstErrorStays(
    w: Workspace, terms: seq<SelectorTerm>, changed: Option<set<ModelId>>, i: nat)
    requires i <= |terms| && FirstError(w, terms[..i], changed).Some?
    ensures FirstError(w, terms, changed) == FirstError(w, terms[..i], changed)
  {
    if i < |terms| {
      var rest := terms[..|terms| - 1];
      assert rest[..i] == terms[..i];
      FirstErrorStays(w, rest, changed, i);
    } else {
      assert terms[..i] == terms;
    }
  }

  method FilterTerms(w: Workspace, terms: seq<SelectorTerm>, changed: Option<set<ModelId>>)
    returns (error: Option<SelectorError>, keep: set<ModelId>)
    ensures error == FirstError(w, terms, changed)
    ensures error.None? ==> keep == AllMatch(w, terms, changed)
  {
    keep := Ids(w.models);
    for i := 0 to |terms|
      invariant FirstError(w, terms[..i], changed).None? && keep == AllMatch(w, terms[..i], changed)
    {
      assert terms[..i + 1][..i] == terms[..i];
      match BaseMatch(w, terms[i], changed) {
        case Err(e) =>
          FirstErrorStays(w, terms, changed, i + 1);
          return Some(e), keep;
        case Ok(matched) =>
          keep := keep * matched;
      }
    }
    assert terms[..|terms|] == terms;
    return None, keep;
  }

  method ExcludeTerms(w: Workspace, terms: seq<SelectorTerm>, changed: Option<set<ModelId>>)
    returns (error: Option<SelectorError>, excluded: set<ModelId>)
    requires WellFormed(w)
    ensures error == FirstError(w, terms, changed)
    ensures error.None? ==> excluded == UnionRemoval(w, terms, changed)
  {
    excluded := {};
    for i := 0 to |terms|
      invariant FirstError(w, terms[..i], changed).None? && excluded == UnionRemoval(w, terms[..i], changed)
    {
      assert terms[..i + 1][..i] == terms[..i];
      match BaseMatch(w, terms[i], changed) {
        case Err(e) =>
          FirstErrorStays(w, terms, changed, i + 1);
          return Some(e), excluded;
        case Ok(base) =>
          var removed := Remove(w, terms[i], base);
          excluded := excluded + removed;
      }
    }
    assert terms[..|terms|] == terms;
    return None, excluded;
  }

  method Remove(w: Workspace, term: SelectorTerm, base: set<ModelId>) returns (removed: set<ModelId>)
    requires WellFormed(w) && base <= w.graph.models
    ensures forall changed :: Matches(w, term, changed) == base ==> removed == Removal(w, term, changed)
  {
    removed := base;
    if term.upstream {
      removed := Expand(w.graph, removed, true);
    }
    if term.downstream {
      removed := Expand(w.graph, removed, false);
    }
  }

  datatype SelectedModel = SelectedModel(id: ModelId, matched: seq<string>, expanded: seq<string>)

  function MemberIds(members: seq<SelectedModel>): (ids: seq<ModelId>)
    ensures |ids| == |members| && forall i :: 0 <= i < |members| ==> ids[i] == members[i].id
  {
    if members == [] then [] else [members[0].id] + MemberIds(members[1..])
  }

  /** The selected models of a list, in its order. */
  function Pick(order: seq<ModelId>, ids: set<ModelId>): seq<ModelId> {
    if order == [] then []
    else
      var rest, last := Pick(order[..|order| - 1], ids), order[|order| - 1];
      if last in ids then rest + [last] else rest
  }

  lemma {:induction false} PickMembers(order: seq<ModelId>, ids: set<ModelId>)
    requires Distinct(order)
    ensures Distinct(Pick(order, ids)) && Elements(Pick(order, ids)) == Elements(order) * ids
  {
    if order != [] {
      var rest, last := order[..|order| - 1], order[|order| - 1];
      PickMembers(rest, ids);
      TakeOneMore(order, |order| - 1);
      assert order[..|order|] == order;
      assert last !in Elements(rest);
      var picked := Pick(rest, ids);
      assert Elements(picked + [last]) == Elements(picked) + {last};
      assert last !in Elements(picked);
    }
  }

  /** In a dependency order, what is picked keeps dependencies first. */
  ghost predicate DependenciesPrecede(g: ModelGraph, ids: seq<ModelId>) {
    forall i, j :: 0 <= i < |ids| && 0 <= j < |ids| && ids[i] in g.deps && ids[j] in g.deps[ids[i]] ==> j < i
  }

  lemma {:induction false} PickKeepsOrder(g: ModelGraph, order: seq<ModelId>, ids: set<ModelId>)
    requires g.Closed() && Distinct(order) && DependenciesFirst(g, order)
    ensures DependenciesPrecede(g, Pick(order, ids))
  {
    if order != [] {
      var rest, last := order[..|order| - 1], order[|order| - 1];
      forall i | 0 <= i < |rest| ensures rest[i] in g.models && g.deps[rest[i]] <= Elements(rest[..i]) {
        assert rest[..i] == order[..i];
        assert order[i] in g.models;
      }
      PickKeepsOrder(g, rest, ids);
      PickMembers(rest, ids);
      assert g.deps[last] <= Elements(order[..|order| - 1]);
      NothingNeedsLast(g, order);
      var picked := Pick(rest, ids);
      forall i | 0 <= i < |picked| ensures picked[i] in g.deps && last !in g.deps[picked[i]] {
        assert picked[i] in Elements(picked);
      }
    }
  }

  /** No model of a dependency order needs the last one. */
  lemma NothingNeedsLast(g: ModelGraph, order: seq<ModelId>)
    requires g.Closed() && order != [] && Distinct(order) && DependenciesFirst(g, order)
    ensures forall m :: m in Elements(order) ==> m in g.deps && order[|order| - 1] !in g.deps[m]
  {
    var last := order[|order| - 1];
    forall m | m in Elements(order) ensures m in g.deps && last !in g.deps[m] {
      var i :| 0 <= i < |order| && order[i] == m;
      assert g.deps[order[i]] <= Elements(order[..i]);
      assert last !in Elements(order[..i]);
    }
  }

  predicate NameLess(a: ModelId, b: ModelId) {
    StringLess(LogicalName(a), LogicalName(b))
  }

  lemma {:induction false} InsertByName(x: ModelId, s: seq<ModelId>)
    requires Sorted(NameLess, s)
    ensures Sorted(NameLess, Insert(NameLess, x, s))
  {
    StringLessTotal();
    if s != [] && !NameLess(x, s[0]) {
      InsertByName(x, s[1..]);
      var rest := Insert(NameLess, x, s[1..]);
      forall y | y in rest ensures !NameLess(y, s[0]) {
        assert y in multiset(rest);
        assert y == x || y in s[1..];
      }
    }
  }

  lemma {:induction false} SortByName(s: seq<ModelId>)
    ensures Sorted(NameLess, Sort(NameLess, s))
  {
    if s != [] {
      SortByName(s[1..]);
      InsertByName(s[0], Sort(NameLess, s[1..]));
    }
  }

  lemma {:induction false} PickByName(order: seq<ModelId>, ids: set<ModelId>)
    requires Sorted(NameLess, order)
    ensures Sorted(NameLess, Pick(order, ids))
    ensures forall id :: id in Pick(order, ids) ==> id in order
  {
    if order != [] {
      var rest, last := order[..|order| - 1], order[|order| - 1];
      PickByName(rest, ids);
      forall id | id in Pick(rest, ids) ensures !NameLess(last, id) {
        var i :| 0 <= i < |rest| && rest[i] == id;
        assert order[i] == id;
      }
    }
  }

  function IdsOf(models: seq<Selectable>): seq<ModelId> {
    if models == [] then [] else [models[0].id] + IdsOf(models[1..])
  }

  lemma {:induction false} IdsOfElements(models: seq<Selectable>)
    ensures Elements(IdsOf(models)) == Ids(models)
  {
    if models != [] {
      IdsOfElements(models[1..]);
      assert Elements(IdsOf(models)) == {models[0].id} + Elements(IdsOf(models[1..]));
      assert models == [models[0]] + models[1..];
    }
  }

  /** Topological order where there is one, name order otherwise. */
  method OrderIds(w: Workspace, order: Option<seq<ModelId>>, ids: set<ModelId>) returns (picked: seq<ModelId>)
    requires WellFormed(w) && ids <= w.graph.models && Distinct(IdsOf(w.models))
    requires order.Some? ==> IsOrder(w.graph, order.value)
    ensures Distinct(picked) && Elements(picked) == ids
    ensures order.Some? ==> DependenciesPrecede(w.graph, picked)
    ensures order.None? ==> Sorted(NameLess, picked)
  {
    if order.Some? {
      PickKeepsOrder(w.graph, order.value, ids);
      PickMembers(order.value, ids);
      assert Elements(order.value) * ids == ids;
      return Pick(order.value, ids);
    }
    var all := Sort(NameLess, IdsOf(w.models));
    SortedNames(w);
    SortByName(IdsOf(w.models));
    PickByName(all, ids);
    PickMembers(all, ids);
    assert Elements(all) * ids == ids;
    return Pick(all, ids);
  }

  lemma SortedNames(w: Workspace)
    requires WellFormed(w) && Distinct(IdsOf(w.models))
    ensures Distinct(Sort(NameLess, IdsOf(w.models))) && Elements(Sort(NameLess, IdsOf(w.models))) == w.graph.models
  {
    IdsOfElements(w.models);
    SortDistinct(NameLess, IdsOf(w.models));
    SortMembers(NameLess, IdsOf(w.models));
    assert Elements(Sort(NameLess, IdsOf(w.models))) == Elements(IdsOf(w.models));
  }

  function MemberFor(id: ModelId, matched: Origins, expanded: Origins): SelectedModel {
    SelectedModel(id, TextsFor(matched, id), TextsFor(expanded, id))
  }

  method MembersFor(ids: seq<ModelId>, matched: Origins, expanded: Origins) returns (members: seq<SelectedModel>)
    ensures MemberIds(members) == ids
    ensures forall i :: 0 <= i < |members| ==> members[i] == MemberFor(members[i].id, matched, expanded)
  {
    members := [];
    for i := 0 to |ids|
      invariant MemberIds(members) == ids[..i]
      invariant forall k :: 0 <= k < |members| ==> members[k] == MemberFor(members[k].id, matched, expanded)
    {
      AppendMember(members, MemberFor(ids[i], matched, expanded));
      members := members + [MemberFor(ids[i], matched, expanded)];
      assert ids[..i + 1] == ids[..i] + [ids[i]];
    }
    assert ids[..|ids|] == ids;
  }

  lemma AppendMember(members: seq<SelectedModel>, m: SelectedModel)
    ensures MemberIds(members + [m]) == MemberIds(members) + [m.id]
  {
  }

  datatype Selection = Selection(members: seq<SelectedModel>, excluded: set<ModelId>)

  /** The flags expand the filtered base matches, past the filters. */
  method ExpandFlags(w: Workspace, s: SelectorSet, seed: set<ModelId>, before: Origins) returns (expanded: Origins)
    requires WellFormed(w) && seed <= w.graph.models
    ensures seed + expanded.Keys == seed + before.Keys + Flags(w, s, seed)
  {
    expanded := before;
    if s.expandUpstream {
      var grown := Expand(w.graph, seed, true);
      expanded := Push(expanded, grown - seed, "--upstream");
    }
    if s.expandDownstream {
      var grown := Expand(w.graph, seed, false);
      expanded := Push(expanded, grown - seed, "--downstream");
    }
  }

  /** The include terms, or everything when there are none. */
  method Include(w: Workspace, s: SelectorSet, changed: Option<set<ModelId>>)
    returns (error: Option<SelectorError>, matched: Origins, expanded: Origins)
    requires WellFormed(w)
    ensures error == FirstError(w, s.includes, changed)
    ensures error.None? ==>
              && matched.Keys == Base(w, s, changed)
              && matched.Keys + expanded.Keys == Base(w, s, changed) + UnionGrowth(w, s.includes, changed)
    ensures error.None? ==>
              forall id :: id in matched ==> TextsFor(matched, id) == IncludedBy(w, s, changed, id)
  {
    if s.includes == [] {
      return None, Everything(w), map[];
    }
    error, matched, expanded := IncludeTerms(w, s.includes, changed);
    ReachedIsGrowth(w, s.includes, changed);
    assert error.None? ==> TellsTexts(w, s.includes, changed, matched);
  }

  function IncludedBy(w: Workspace, s: SelectorSet, changed: Option<set<ModelId>>, id: ModelId): seq<string> {
    if s.includes == [] then ["*"] else MatchedTexts(w, s.includes, changed, id)
  }

  function FirstErrorIn(w: Workspace, s: SelectorSet, changed: Option<set<ModelId>>): Option<SelectorError> {
    if FirstError(w, s.includes, changed).Some? then FirstError(w, s.includes, changed)
    else if FirstError(w, s.filters, changed).Some? then FirstError(w, s.filters, changed)
    else FirstError(w, s.excludes, changed)
  }

  /** Why a selected model is in: the include terms matching it, if it also passed the filters. */
  ghost function MatchedIn(w: Workspace, s: SelectorSet, changed: Option<set<ModelId>>, id: ModelId): seq<string> {
    if id in Base(w, s, changed) * AllMatch(w, s.filters, changed) then IncludedBy(w, s, changed, id) else []
  }

  lemma SelectionAlgebra(
    models: set<ModelId>, base: set<ModelId>, growth: set<ModelId>, keep: set<ModelId>, flags: set<ModelId>,
    removed: set<ModelId>, e0: set<ModelId>, e1: set<ModelId>)
    requires base + e0 == base + growth && base <= models && growth <= models && flags <= models
    requires base * keep + e1 == base * keep + e0 * keep + flags
    ensures base * keep * (models - removed) + e1 * (models - removed) == (base + growth) * keep + flags - removed
  {
    var all := base * keep + e1;
    forall id ensures id in all <==> id in (base + growth) * keep + flags {
      assert id in base + e0 <==> id in base + growth;
      assert id in all <==> id in base * keep + e0 * keep + flags;
    }
    assert all == (base + growth) * keep + flags && all <= models;
  }

  ghost function Flags(w: Workspace, s: SelectorSet, seed: set<ModelId>): set<ModelId>
    requires w.graph.Closed()
  {
    (if s.expandUpstream then Closure(w.graph, seed, true) else {})
    + (if s.expandDownstream then Closure(w.graph, seed, false) else {})
  }

  lemma {:induction false} GrowthIsKnown(w: Workspace, terms: seq<SelectorTerm>, changed: Option<set<ModelId>>)
    requires WellFormed(w)
    ensures UnionMatches(w, terms, changed) <= w.graph.models && UnionGrowth(w, terms, changed) <= w.graph.models
  {
    if terms != [] {
      GrowthIsKnown(w, terms[..|terms| - 1], changed);
    }
  }

  lemma SelectedIs(
    w: Workspace, s: SelectorSet, changed: Option<set<ModelId>>, e0: set<ModelId>, e1: set<ModelId>)
    requires WellFormed(w)
    requires Base(w, s, changed) + e0 == Base(w, s, changed) + UnionGrowth(w, s.includes, changed)
    requires var keep := AllMatch(w, s.filters, changed);
             var seed := Base(w, s, changed) * keep;
             seed + e1 == seed + e0 * keep + Flags(w, s, seed)
    ensures var rest := w.graph.models - UnionRemoval(w, s.excludes, changed);
            Base(w, s, changed) * AllMatch(w, s.filters, changed) * rest + e1 * rest == Selected(w, s, changed)
  {
    var base, keep := Base(w, s, changed), AllMatch(w, s.filters, changed);
    GrowthIsKnown(w, s.includes, changed);
    var growth, flags, removed := UnionGrowth(w, s.includes, changed), Flags(w, s, base * keep),
      UnionRemoval(w, s.excludes, changed);
    SelectionAlgebra(w.graph.models, base, growth, keep, flags, removed, e0, e1);
    assert Selected(w, s, changed) == (base + growth) * keep + flags - removed;
  }

  /** Include, filter and expand by flag. */
  method Gather(w: Workspace, s: SelectorSet, changed: Option<set<ModelId>>)
    returns (error: Option<SelectorError>, matched: Origins, expanded: Origins, ghost grown: set<ModelId>)
    requires WellFormed(w)
    ensures error == (if FirstError(w, s.includes, changed).Some? then FirstError(w, s.includes, changed)
                      else FirstError(w, s.filters, changed))
    ensures Base(w, s, changed) + grown == Base(w, s, changed) + UnionGrowth(w, s.includes, changed) || error.Some?
    ensures error.None? ==>
              var keep := AllMatch(w, s.filters, changed);
              && matched.Keys == Base(w, s, changed) * keep
              && matched.Keys + expanded.Keys == matched.Keys + grown * keep + Flags(w, s, matched.Keys)
    ensures error.None? ==> forall id :: id in matched ==> TextsFor(matched, id) == IncludedBy(w, s, changed, id)
  {
    var keep;
    error, matched, expanded := Include(w, s, changed);
    grown := expanded.Keys;
    if error.None? {
      error, keep := FilterTerms(w, s.filters, changed);
      if error.None? {
        forall id | id in matched ensures TextsFor(matched, id) == IncludedBy(w, s, changed, id) {
        }
        matched, expanded := Retain(matched, keep), Retain(expanded, keep);
        expanded := ExpandFlags(w, s, matched.Keys, expanded);
      }
    }
  }

  /** The selected models with their origins, once the excluded ones are dropped. */
  method ResolveIds(w: Workspace, s: SelectorSet, changed: Option<set<ModelId>>)
    returns (error: Option<SelectorError>, matched: Origins, expanded: Origins, excluded: set<ModelId>)
    requires WellFormed(w)
    ensures error == FirstErrorIn(w, s, changed)
    ensures error.None? ==>
              && matched.Keys + expanded.Keys == Selected(w, s, changed)
              && excluded == UnionRemoval(w, s.excludes, changed)
    ensures error.None? ==> forall id :: id in matched.Keys + expanded.Keys ==>
              TextsFor(matched, id) == MatchedIn(w, s, changed, id)
  {
    ghost var grown;
    excluded := {};
    error, matched, expanded, grown := Gather(w, s, changed);
    if error.None? {
      error, excluded := ExcludeTerms(w, s.excludes, changed);
      if error.None? {
        SelectedIs(w, s, changed, grown, expanded.Keys);
        var rest := w.graph.models - excluded;
        matched, expanded := Retain(matched, rest), Retain(expanded, rest);
      }
    }
  }

  /**
   The members are exactly the ids of the closed form, each once, dependencies
   first on an acyclic graph and in name order on others, each with the include terms that match it;
   otherwise the answer is the error of the first failing term.
   */
  method ResolveSelection(
    w: Workspace, s: SelectorSet, changed: Option<set<ModelId>>, order: Option<seq<ModelId>>)
    returns (result: Result<Selection, SelectorError>)
    requires WellFormed(w) && Distinct(IdsOf(w.models)) && (order.Some? ==> IsOrder(w.graph, order.value))
    ensures result.Err? <==> FirstErrorIn(w, s, changed).Some?
    ensures result.Err? ==> Some(result.error) == FirstErrorIn(w, s, changed)
    ensures result.Ok? ==>
              var ids := MemberIds(result.value.members);
              && Distinct(ids) && Elements(ids) == Selected(w, s, changed)
              && (if order.Some? then DependenciesPrecede(w.graph, ids) else Sorted(NameLess, ids))
              && result.value.excluded == UnionRemoval(w, s.excludes, changed)
    ensures result.Ok? ==> forall i :: 0 <= i < |result.value.members| ==>
              result.value.members[i].matched == MatchedIn(w, s, changed, result.value.members[i].id)
  {
    var error, matched, expanded, excluded := ResolveIds(w, s, changed);
    if error.Some? {
      return Err(error.value);
    }
    var ids := OrderIds(w, order, matched.Keys + expanded.Keys);
    var members := MembersFor(ids, matched, expanded);
    forall i | 0 <= i < |members| ensures members[i].id in matched.Keys + expanded.Keys {
      assert MemberIds(members)[i] in Elements(ids);
    }
    return Ok(Selection(members, excluded));
  }
}
