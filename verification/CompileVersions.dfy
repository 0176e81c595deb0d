/**
 Versioning every model of a workspace, upstream first
 (crates/phlo-transform-core/src/compile.rs): a Merkle construction over the
 dependency graph.
 */
module CompileVersions {
  import opened Wrappers
  import opened Collections
  import opened Ordering
  import opened Identity
  import opened Digraph
  import opened Version

  /** The parts of a compiled model that its version reads, and the assertions its directives ask for. */
  datatype VersionedModel = VersionedModel(
    canonicalSql: string,
    materialization: string,
    schema: Option<string>,
    incremental: string,
    contract: Option<string>,
    targetSchema: string,
    targetTable: string,
    models: seq<ModelId>,
    sources: seq<SourceId>,
    directives: seq<string>)

  /** A compiled workspace with the observed state of its sources. */
  datatype Project = Project(models: map<ModelId, VersionedModel>, states: SourceId -> Option<string>)

  function ConfigText(m: VersionedModel): string {
    "materialization=" + m.materialization + ";schema=" + m.schema.GetOr("") + ";incremental=" + m.incremental
  }

  function ContractText(m: VersionedModel, assertions: seq<string>): string {
    m.contract.GetOr("") + ";assertions=" + Join(assertions, ',')
  }

  function TargetText(m: VersionedModel): string {
    m.targetSchema + "." + m.targetTable + "|" + m.materialization
  }

  function DependencyPairs(ids: seq<ModelId>, versions: map<ModelId, ModelVersion>): seq<Pair> {
    if ids == [] then []
    else
      [(LogicalName(ids[0]), if ids[0] in versions then versions[ids[0]].hash else "")]
      + DependencyPairs(ids[1..], versions)
  }

  function SourcePairs(sources: seq<SourceId>, states: SourceId -> Option<string>): seq<Pair> {
    if sources == [] then []
    else [(SourceName(sources[0]), states(sources[0]).GetOr(""))] + SourcePairs(sources[1..], states)
  }

  function InputsOf(
    m: VersionedModel, assertions: seq<string>, states: SourceId -> Option<string>,
    versions: map<ModelId, ModelVersion>): VersionInputs
  {
    VersionInputs(
      m.canonicalSql, ConfigText(m), ContractText(m, assertions),
      DependencyPairs(m.models, versions), SourcePairs(m.sources, states), TargetText(m))
  }

  function Upstream(p: Project): ModelGraph {
    ModelGraph(p.models.Keys, map id | id in p.models :: Elements(p.models[id].models))
  }

  const UNVERSIONED := ModelVersion("", "", "", "", "", "", "", "")

  /** A model's version from its dependencies' versions; no assertion is known yet. */
  function VersionStep(sha: string -> string, p: Project): (ModelId, map<ModelId, ModelVersion>) -> ModelVersion {
    (id, versions) =>
      if id in p.models then VersionOf(sha, InputsOf(p.models[id], [], p.states, versions)) else UNVERSIONED
  }

  /** The compiled models' assertions once these models have been analysed. */
  function FilledIn(p: Project, analysed: set<ModelId>): map<ModelId, seq<string>> {
    map id | id in p.models :: if id in analysed then p.models[id].directives else []
  }

  lemma FillNext(p: Project, analysed: set<ModelId>, id: ModelId)
    requires id in p.models && id !in analysed
    ensures FilledIn(p, analysed)[id] == []
    ensures FilledIn(p, analysed)[id := p.models[id].directives] == FilledIn(p, analysed + {id})
  {
  }

  /** The analysis loop. A model's assertions are filled in after its version was computed. */
  method VersionAll(sha: string -> string, p: Project, order: seq<ModelId>)
    returns (versions: map<ModelId, ModelVersion>, assertions: map<ModelId, seq<string>>)
    requires Distinct(order) && Elements(order) == p.models.Keys
    ensures versions == Along(VersionStep(sha, p), order)
    ensures assertions == FilledIn(p, p.models.Keys)
  {
    assertions := map id | id in p.models :: [];
    versions := map[];
    for i := 0 to |order|
      invariant versions == Along(VersionStep(sha, p), order[..i])
      invariant assertions == FilledIn(p, Elements(order[..i]))
    {
      var id := order[i];
      assert id in Elements(order) && id !in Elements(order[..i]);
      FillNext(p, Elements(order[..i]), id);
      AlongNext(VersionStep(sha, p), order[..i], id);
      TakeOneMore(order, i);
      var version := ComputeVersion(sha, InputsOf(p.models[id], assertions[id], p.states, versions));
      assert version == VersionStep(sha, p)(id, versions);
      versions := versions[id := version];
      assertions := assertions[id := p.models[id].directives];
    }
    assert order[..|order|] == order;
  }

  // -- Named values as sets ------------------------------------------------------------------

  ghost function Tagged<V>(ids: set<ModelId>, values: map<ModelId, V>): set<(string, V)> {
    set d | d in ids && d in values :: (LogicalName(d), values[d])
  }

  ghost function Hashes(versions: map<ModelId, ModelVersion>): map<ModelId, string> {
    map d | d in versions :: versions[d].hash
  }

  lemma {:induction false} DependencyPairsAreTagged(ids: seq<ModelId>, versions: map<ModelId, ModelVersion>)
    requires Elements(ids) <= versions.Keys
    ensures Elements(DependencyPairs(ids, versions)) == Tagged(Elements(ids), Hashes(versions))
  {
    if ids != [] {
      assert Elements(ids) == {ids[0]} + Elements(ids[1..]);
      DependencyPairsAreTagged(ids[1..], versions);
      var pairs, rest := DependencyPairs(ids, versions), DependencyPairs(ids[1..], versions);
      assert Elements(pairs) == {pairs[0]} + Elements(rest);
    }
  }

  lemma TaggedTransfers<V, W>(
    a: set<ModelId>, b: set<ModelId>, va: map<ModelId, V>, vb: map<ModelId, V>,
    wa: map<ModelId, W>, wb: map<ModelId, W>)
    requires a <= va.Keys && b <= vb.Keys && a <= wa.Keys && b <= wb.Keys
    requires forall d, e :: d in a && e in b && va[d] == vb[e] ==> wa[d] == wb[e]
    requires Tagged(a, va) == Tagged(b, vb)
    ensures Tagged(a, wa) == Tagged(b, wb)
  {
    forall d | d in a ensures (LogicalName(d), wa[d]) in Tagged(b, wb) {
      assert (LogicalName(d), va[d]) in Tagged(b, vb);
      var e :| e in b && LogicalName(e) == LogicalName(d) && vb[e] == va[d];
    }
    forall e | e in b ensures (LogicalName(e), wb[e]) in Tagged(a, wa) {
      assert (LogicalName(e), vb[e]) in Tagged(a, va);
      var d :| d in a && LogicalName(d) == LogicalName(e) && va[d] == vb[e];
    }
  }

  // -- The Merkle theorem -----------------------------------------------------------------------

  /** Everything a model is computed from, unfolded down to the sources. */
  datatype Tree = Tree(
    canonicalSql: string,
    config: string,
    contract: string,
    target: string,
    dependencies: set<(string, Tree)>,
    sources: set<Pair>)

  ghost function TreeOf(m: VersionedModel, p: Project, trees: map<ModelId, Tree>): Tree {
    Tree(
      m.canonicalSql, ConfigText(m), m.contract.GetOr(""), TargetText(m),
      Tagged(Elements(m.models), trees), Elements(SourcePairs(m.sources, p.states)))
  }

  ghost function TreeStep(p: Project): (ModelId, map<ModelId, Tree>) -> Tree {
    (id, trees) => if id in p.models then TreeOf(p.models[id], p, trees) else Tree("", "", "", "", {}, {})
  }

  ghost predicate WellFormed(p: Project) {
    Upstream(p).Closed() && forall id :: id in p.models ==> IsModelId(id)
  }

  /** The sources' names can be told apart in both workspaces. */
  ghost predicate SourcesFramable(p: Project, q: Project) {
    forall a, b :: a in p.models && b in q.models ==>
      Framable(Elements(SourcePairs(p.models[a].sources, p.states))
        + Elements(SourcePairs(q.models[b].sources, q.states)))
  }

  lemma VersionsAreLocal(sha: string -> string, p: Project)
    requires Upstream(p).Closed()
    ensures Local(Upstream(p), VersionStep(sha, p))
  {
    var g, step := Upstream(p), VersionStep(sha, p);
    forall id, a, b | id in g.models && SameValues(g.deps[id], a, b) ensures step(id, a) == step(id, b) {
      PairsAreLocal(p.models[id].models, a, b);
    }
  }

  lemma {:induction false} PairsAreLocal(
    ids: seq<ModelId>, a: map<ModelId, ModelVersion>, b: map<ModelId, ModelVersion>)
    requires SameValues(Elements(ids), a, b)
    ensures DependencyPairs(ids, a) == DependencyPairs(ids, b)
  {
    if ids != [] {
      assert Elements(ids) == {ids[0]} + Elements(ids[1..]);
      PairsAreLocal(ids[1..], a, b);
    }
  }

  lemma TreesAreLocal(p: Project)
    requires Upstream(p).Closed()
    ensures Local(Upstream(p), TreeStep(p))
  {
    var g, step := Upstream(p), TreeStep(p);
    forall id, a, b | id in g.models && SameValues(g.deps[id], a, b) ensures step(id, a) == step(id, b) {
      assert Tagged(Elements(p.models[id].models), a) == Tagged(Elements(p.models[id].models), b);
    }
  }

  lemma LogicalNameIsPlain(id: ModelId)
    requires IsModelId(id)
    ensures Free(LogicalName(id), '=') && Free(LogicalName(id), '\n')
  {
    JoinChars(id.path, '.');
    assert !IsSegmentChar('=') && !IsSegmentChar('\n');
    var name, local := LogicalName(id), LocalName(id);
    forall i | 0 <= i < |name| ensures IsSegmentChar(name[i]) || name[i] == '.' {
      if i < |id.ns| {
        assert name[i] == id.ns[i];
      } else if i > |id.ns| {
        assert name[i] == local[i - |id.ns| - 1];
      }
    }
  }

  lemma DependenciesFramable(sha: string -> string, p: Project, versions: map<ModelId, ModelVersion>, id: ModelId)
    requires IsDigest(sha) && WellFormed(p) && IsFixpoint(Upstream(p), VersionStep(sha, p), versions)
    requires id in p.models
    ensures Elements(DependencyPairs(p.models[id].models, versions))
         == Tagged(Upstream(p).deps[id], Hashes(versions))
    ensures forall pair :: pair in Tagged(Upstream(p).deps[id], Hashes(versions)) ==>
              Free(pair.0, '\n') && Free(pair.1, '\n') && Free(pair.0, '=')
  {
    DependencyPairsAreTagged(p.models[id].models, versions);
    forall d | d in Upstream(p).deps[id]
      ensures Free(LogicalName(d), '=') && Free(LogicalName(d), '\n') && Free(versions[d].hash, '\n')
    {
      assert HasStepValue(VersionStep(sha, p), versions, d);
      LogicalNameIsPlain(d);
    }
  }

  lemma SameContractText(a: VersionedModel, b: VersionedModel)
    ensures ContractText(a, []) == ContractText(b, []) <==> a.contract.GetOr("") == b.contract.GetOr("")
  {
    var x, y := a.contract.GetOr(""), b.contract.GetOr("");
    var tail := ";assertions=" + Join([], ',');
    assert ContractText(a, []) == x + tail && ContractText(b, []) == y + tail;
    if x + tail == y + tail {
      assert x == (x + tail)[..|x + tail| - |tail|] && y == (y + tail)[..|y + tail| - |tail|];
    }
  }

  /** A workspace with the versions and unfolded trees of its models. */
  datatype Compiled = Compiled(
    p: Project, order: seq<ModelId>, versions: map<ModelId, ModelVersion>, trees: map<ModelId, Tree>)

  ghost predicate IsCompiled(sha: string -> string, c: Compiled) {
    && WellFormed(c.p) && IsOrder(Upstream(c.p), c.order)
    && IsFixpoint(Upstream(c.p), VersionStep(sha, c.p), c.versions)
    && IsFixpoint(Upstream(c.p), TreeStep(c.p), c.trees)
  }

  predicate SameOwnInputs(m: VersionedModel, p: Project, n: VersionedModel, q: Project) {
    && m.canonicalSql == n.canonicalSql && ConfigText(m) == ConfigText(n)
    && m.contract.GetOr("") == n.contract.GetOr("") && TargetText(m) == TargetText(n)
    && Elements(SourcePairs(m.sources, p.states)) == Elements(SourcePairs(n.sources, q.states))
  }

  ghost function Below(x: Compiled, a: ModelId): set<ModelId>
    requires a in x.p.models
  {
    Upstream(x.p).deps[a]
  }

  ghost function TaggedHashes(x: Compiled, a: ModelId): set<Pair>
    requires a in x.p.models
  {
    Tagged(Below(x, a), Hashes(x.versions))
  }

  /** The loop's versions, in any dependency order, are the ones the theorems speak of. */
  lemma VersionAllCompiles(sha: string -> string, p: Project, order: seq<ModelId>)
    requires WellFormed(p) && IsOrder(Upstream(p), order)
    ensures IsCompiled(sha, Compiled(p, order, Along(VersionStep(sha, p), order), Along(TreeStep(p), order)))
  {
    VersionsAreLocal(sha, p);
    AlongIsFixpoint(Upstream(p), VersionStep(sha, p), order);
    TreesAreLocal(p);
    AlongIsFixpoint(Upstream(p), TreeStep(p), order);
  }

  lemma DependencyNamesFramable(sha: string -> string, x: Compiled, y: Compiled, a: ModelId, b: ModelId)
    requires IsDigest(sha) && IsCompiled(sha, x) && IsCompiled(sha, y) && a in x.p.models && b in y.p.models
    ensures Elements(DependencyPairs(x.p.models[a].models, x.versions)) == TaggedHashes(x, a)
    ensures Elements(DependencyPairs(y.p.models[b].models, y.versions)) == TaggedHashes(y, b)
    ensures Framable(TaggedHashes(x, a) + TaggedHashes(y, b))
  {
    DependenciesFramable(sha, x.p, x.versions, a);
    DependenciesFramable(sha, y.p, y.versions, b);
    PlainNamesFramable(TaggedHashes(x, a) + TaggedHashes(y, b));
  }

  lemma HashTellsInputs(
    sha: string -> string, x: Compiled, y: Compiled, a: ModelId, b: ModelId, below: set<Pair>, other: set<Pair>)
    requires IsDigest(sha) && IsCompiled(sha, x) && IsCompiled(sha, y)
    requires a in x.p.models && b in y.p.models && a in x.versions && b in y.versions
    requires Elements(DependencyPairs(x.p.models[a].models, x.versions)) == below
    requires Elements(DependencyPairs(y.p.models[b].models, y.versions)) == other
    requires Framable(below + other)
    requires Framable(
               Elements(SourcePairs(x.p.models[a].sources, x.p.states))
               + Elements(SourcePairs(y.p.models[b].sources, y.p.states)))
    ensures x.versions[a].hash == y.versions[b].hash
       <==> SameOwnInputs(x.p.models[a], x.p, y.p.models[b], y.p) && below == other
  {
    var i, j := InputsOf(x.p.models[a], [], x.p.states, x.versions),
        InputsOf(y.p.models[b], [], y.p.states, y.versions);
    assert HasStepValue(VersionStep(sha, x.p), x.versions, a) && HasStepValue(VersionStep(sha, y.p), y.versions, b);
    VersionExactly(sha, i, j);
    SameContractText(x.p.models[a], y.p.models[b]);
  }

  /** One model's version tells exactly its own inputs and its dependencies' versions. */
  lemma VersionTellsInputs(sha: string -> string, x: Compiled, y: Compiled, a: ModelId, b: ModelId)
    requires IsDigest(sha) && IsCompiled(sha, x) && IsCompiled(sha, y) && SourcesFramable(x.p, y.p)
    requires a in x.p.models && b in y.p.models && a in x.versions && b in y.versions
    ensures x.versions[a].hash == y.versions[b].hash
       <==> SameOwnInputs(x.p.models[a], x.p, y.p.models[b], y.p) && TaggedHashes(x, a) == TaggedHashes(y, b)
  {
    DependencyNamesFramable(sha, x, y, a, b);
    HashTellsInputs(sha, x, y, a, b, TaggedHashes(x, a), TaggedHashes(y, b));
  }

  lemma TreeTellsInputs(sha: string -> string, x: Compiled, y: Compiled, a: ModelId, b: ModelId)
    requires IsCompiled(sha, x) && IsCompiled(sha, y)
    requires a in x.p.models && b in y.p.models && a in x.trees && b in y.trees
    ensures x.trees[a] == y.trees[b]
       <==> && SameOwnInputs(x.p.models[a], x.p, y.p.models[b], y.p)
            && Tagged(Below(x, a), x.trees) == Tagged(Below(y, b), y.trees)
  {
    assert HasStepValue(TreeStep(x.p), x.trees, a) && HasStepValue(TreeStep(y.p), y.trees, b);
  }

  lemma BelowIsEarlier(sha: string -> string, x: Compiled, a: ModelId, d: ModelId)
    requires IsCompiled(sha, x) && a in x.p.models && d in Below(x, a)
    ensures d in x.versions && d in x.trees && a in x.order && d in x.order
      && Position(x.order, d) < Position(x.order, a)
  {
    DependencyIsEarlier(Upstream(x.p), x.order, a, d);
  }

  lemma InOrderIsCompiled(sha: string -> string, x: Compiled, a: ModelId)
    requires IsCompiled(sha, x) && a in x.p.models
    ensures a in x.versions && a in x.trees
    ensures Below(x, a) <= x.versions.Keys && Below(x, a) <= x.trees.Keys
  {
    forall d | d in Below(x, a) ensures d in x.versions && d in x.trees {
      BelowIsEarlier(sha, x, a, d);
    }
  }

  ghost predicate Match(x: Compiled, y: Compiled, d: ModelId, e: ModelId) {
    && d in x.versions && d in x.trees && e in y.versions && e in y.trees
    && (x.versions[d].hash == y.versions[e].hash <==> x.trees[d] == y.trees[e])
  }

  ghost function MatchOf(x: Compiled, y: Compiled): (ModelId, ModelId) -> bool {
    (d, e) => Match(x, y, d, e)
  }

  lemma MerkleStep(sha: string -> string, x: Compiled, y: Compiled, a: ModelId, b: ModelId)
    requires IsDigest(sha) && IsCompiled(sha, x) && IsCompiled(sha, y) && SourcesFramable(x.p, y.p)
    requires a in x.p.models && b in y.p.models
    requires AllPairs(Below(x, a), Below(y, b), MatchOf(x, y))
    ensures MatchOf(x, y)(a, b)
  {
    InOrderIsCompiled(sha, x, a);
    InOrderIsCompiled(sha, y, b);
    SubtreesAgree(x, y, Below(x, a), Below(y, b));
    VersionTellsInputs(sha, x, y, a, b);
    TreeTellsInputs(sha, x, y, a, b);
  }

  lemma MatchIsHereditary(sha: string -> string, x: Compiled, y: Compiled, a: ModelId, b: ModelId)
    requires IsDigest(sha) && IsCompiled(sha, x) && IsCompiled(sha, y) && SourcesFramable(x.p, y.p)
    requires a in x.p.models && b in y.p.models
    ensures Hereditary(Upstream(x.p), Upstream(y.p), MatchOf(x, y), a, b)
  {
    if AllPairs(Below(x, a), Below(y, b), MatchOf(x, y)) {
      MerkleStep(sha, x, y, a, b);
    }
  }

  /** Two models have one version exactly when everything they are computed from is the same. */
  lemma MerkleTheorem(sha: string -> string, x: Compiled, y: Compiled, a: ModelId, b: ModelId)
    requires IsDigest(sha) && IsCompiled(sha, x) && IsCompiled(sha, y) && SourcesFramable(x.p, y.p)
    requires a in x.p.models && b in y.p.models
    ensures a in x.versions && a in x.trees && b in y.versions && b in y.trees
    ensures x.versions[a].hash == y.versions[b].hash <==> x.trees[a] == y.trees[b]
  {
    var g, h := Upstream(x.p), Upstream(y.p);
    forall d, e | d in g.models && e in h.models ensures Hereditary(g, h, MatchOf(x, y), d, e) {
      MatchIsHereditary(sha, x, y, d, e);
    }
    assert a in Elements(x.order) && b in Elements(y.order);
    PairInduction(g, x.order, h, y.order, MatchOf(x, y), a, b);
    assert Match(x, y, a, b);
  }

  lemma SubtreesAgree(x: Compiled, y: Compiled, a: set<ModelId>, b: set<ModelId>)
    requires a <= x.versions.Keys && a <= x.trees.Keys && b <= y.versions.Keys && b <= y.trees.Keys
    requires AllPairs(a, b, MatchOf(x, y))
    ensures Tagged(a, Hashes(x.versions)) == Tagged(b, Hashes(y.versions)) <==> Tagged(a, x.trees) == Tagged(b, y.trees)
  {
    forall d, e | d in a && e in b ensures Match(x, y, d, e) {
      assert MatchOf(x, y)(d, e);
    }
    if Tagged(a, Hashes(x.versions)) == Tagged(b, Hashes(y.versions)) {
      TaggedTransfers(a, b, Hashes(x.versions), Hashes(y.versions), x.trees, y.trees);
    }
    if Tagged(a, x.trees) == Tagged(b, y.trees) {
      TaggedTransfers(a, b, x.trees, y.trees, Hashes(x.versions), Hashes(y.versions));
    }
  }

  // -- What cannot move a version ---------------------------------------------------------------------

  /** Within `scope` the two workspaces agree, up to the assertions their directives ask for. */
  ghost predicate AgreeOn(p: Project, q: Project, scope: set<ModelId>) {
    forall id :: id in scope ==>
      && id in p.models && id in q.models
      && p.models[id].(directives := []) == q.models[id].(directives := [])
      && SourcePairs(p.models[id].sources, p.states) == SourcePairs(q.models[id].sources, q.states)
      && Upstream(p).deps[id] <= scope
  }

  /** Nothing outside a model's upstream closure can move its version, nor can any assertion. */
  lemma {:induction false} OnlyUpstreamMovesVersion(
    sha: string -> string, p: Project, q: Project, order: seq<ModelId>, scope: set<ModelId>, id: ModelId,
    u: map<ModelId, ModelVersion>, v: map<ModelId, ModelVersion>)
    requires Upstream(p).Closed() && IsOrder(Upstream(p), order)
    requires IsFixpoint(Upstream(p), VersionStep(sha, p), u) && IsFixpoint(Upstream(q), VersionStep(sha, q), v)
    requires AgreeOn(p, q, scope) && id in scope && id in order
    ensures id in p.models && id in q.models && u[id] == v[id]
    decreases Position(order, id)
  {
    forall d | d in Elements(p.models[id].models) ensures d in u && d in v && u[d] == v[d] {
      assert d in Upstream(p).deps[id];
      DependencyIsEarlier(Upstream(p), order, id, d);
      OnlyUpstreamMovesVersion(sha, p, q, order, scope, d, u, v);
    }
    PairsAreLocal(p.models[id].models, u, v);
    assert p.models[id].(directives := []).models == q.models[id].models;
    SameTexts(p.models[id], q.models[id]);
    assert HasStepValue(VersionStep(sha, p), u, id) && HasStepValue(VersionStep(sha, q), v, id);
  }

  lemma SameTexts(a: VersionedModel, b: VersionedModel)
    requires a.(directives := []) == b.(directives := [])
    ensures a.canonicalSql == b.canonicalSql && ConfigText(a) == ConfigText(b)
    ensures ContractText(a, []) == ContractText(b, []) && TargetText(a) == TargetText(b)
  {
    assert b == a.(directives := b.directives);
  }

  /** Changing what a model's directives assert moves no version, although the version is meant to cover assertions. */
  lemma AssertionsMoveNothing(
    sha: string -> string, p: Project, id: ModelId, directives: seq<string>, order: seq<ModelId>)
    requires id in p.models && WellFormed(p) && IsOrder(Upstream(p), order)
    ensures var q := p.(models := p.models[id := p.models[id].(directives := directives)]);
            Along(VersionStep(sha, q), order) == Along(VersionStep(sha, p), order)
  {
    var q := p.(models := p.models[id := p.models[id].(directives := directives)]);
    AlongAssertions(sha, p, q, id, order);
  }

  lemma {:induction false} AlongAssertions(
    sha: string -> string, p: Project, q: Project, id: ModelId, order: seq<ModelId>)
    requires id in p.models && q.states == p.states
    requires exists directives :: q.models == p.models[id := p.models[id].(directives := directives)]
    ensures Along(VersionStep(sha, q), order) == Along(VersionStep(sha, p), order)
  {
    if order != [] {
      var rest, last := order[..|order| - 1], order[|order| - 1];
      AlongAssertions(sha, p, q, id, rest);
      if last in p.models {
        SameTexts(p.models[last], q.models[last]);
      }
    }
  }
}
