/**
 The change set behind the `changed` selector
 (crates/phlo-transform-engine/src/changed.rs).
 */
module Changed {
  import opened Wrappers
  import opened Collections
  import opened Identity
  import opened Digraph
  import opened Version
  import opened CompileVersions

  /** What the state store remembers about a materialised model. */
  datatype StateRecord = StateRecord(hash: string, target: string)

  /** The parts of a compiled model the comparison reads; `target` is its full display form. */
  datatype CurrentModel = CurrentModel(id: ModelId, ephemeral: bool, hash: string, target: string)

  /** A state store's answers, by logical name. */
  type Lookup<!E> = string -> Result<Option<StateRecord>, E>

  predicate Differs(model: CurrentModel, found: Option<StateRecord>) {
    found.None? || found.value.hash != model.hash || found.value.target != model.target
  }

  predicate IsChanged<E>(model: CurrentModel, state: Option<Lookup<E>>) {
    && !model.ephemeral
    && match state
       case None => true
       case Some(lookup) => lookup(LogicalName(model.id)).Ok? && Differs(model, lookup(LogicalName(model.id)).value)
  }

  predicate Fails<E>(model: CurrentModel, state: Option<Lookup<E>>) {
    !model.ephemeral && state.Some? && state.value(LogicalName(model.id)).Err?
  }

  /** The change set is exact, and the first failing lookup is the answer. */
  method ChangedModels<E>(models: seq<CurrentModel>, state: Option<Lookup<E>>)
    returns (result: Result<set<ModelId>, E>)
    ensures result.Err? <==> exists i :: 0 <= i < |models| && Fails(models[i], state)
    ensures result.Ok? ==> result.value == set i | 0 <= i < |models| && IsChanged(models[i], state) :: models[i].id
  {
    var changed: set<ModelId> := {};
    for i := 0 to |models|
      invariant forall k :: 0 <= k < i ==> !Fails(models[k], state)
      invariant changed == set k | 0 <= k < i && IsChanged(models[k], state) :: models[k].id
    {
      var model := models[i];
      if model.ephemeral {
        continue;
      }
      var changedModel := true;
      if state.Some? {
        var found := state.value(LogicalName(model.id));
        if found.Err? {
          return Err(found.error);
        }
        changedModel := Differs(model, found.value);
      }
      if changedModel {
        changed := changed + {model.id};
      }
    }
    return Ok(changed);
  }

  // -- Changes propagate downstream ---------------------------------------------------------------

  /** The model is new since the earlier compile, or has another version now. */
  ghost predicate Moved(earlier: Compiled, now: Compiled, id: ModelId) {
    id in earlier.versions ==> id in now.versions ==> now.versions[id].hash != earlier.versions[id].hash
  }

  lemma TaggedIdentifies<V>(a: set<ModelId>, va: map<ModelId, V>, b: set<ModelId>, vb: map<ModelId, V>, d: ModelId)
    requires forall id :: id in a || id in b ==> IsModelId(id)
    requires Tagged(a, va) == Tagged(b, vb) && d in a && d in va
    ensures d in b && d in vb && va[d] == vb[d]
  {
    assert (LogicalName(d), va[d]) in Tagged(b, vb);
    var e :| e in b && e in vb && LogicalName(e) == LogicalName(d) && vb[e] == va[d];
    LogicalNameInjective(d, e);
  }

  /** A dependent of a moved model has moved. */
  lemma MovedReachesDependent(sha: string -> string, earlier: Compiled, now: Compiled, m: ModelId, d: ModelId)
    requires IsDigest(sha) && IsCompiled(sha, earlier) && IsCompiled(sha, now) && SourcesFramable(earlier.p, now.p)
    requires m in now.p.models && d in Upstream(now.p).deps[m]
    requires Moved(earlier, now, d)
    ensures Moved(earlier, now, m)
  {
    if !Moved(earlier, now, m) {
      VersionTellsInputs(sha, earlier, now, m, m);
      InOrderIsCompiled(sha, now, m);
      TaggedIdentifies(Below(now, m), Hashes(now.versions), Below(earlier, m), Hashes(earlier.versions), d);
    }
  }

  /** So does every model that reaches a moved one along dependencies. */
  lemma {:induction false} MovedReachesDownstream(
    sha: string -> string, earlier: Compiled, now: Compiled, path: seq<ModelId>)
    requires IsDigest(sha) && IsCompiled(sha, earlier) && IsCompiled(sha, now) && SourcesFramable(earlier.p, now.p)
    requires IsWalk(Upstream(now.p), path) && Moved(earlier, now, path[|path| - 1])
    ensures path[0] in now.p.models && Moved(earlier, now, path[0])
  {
    if |path| > 1 {
      MovedReachesDownstream(sha, earlier, now, path[1..]);
      assert path[1] in Upstream(now.p).deps[path[0]];
      MovedReachesDependent(sha, earlier, now, path[0], path[1]);
    }
  }

  /** Every record was written by the earlier compile. */
  ghost predicate RecordedBy<E>(lookup: Lookup<E>, earlier: Compiled, id: ModelId) {
    var found := lookup(LogicalName(id));
    found.Ok? && (found.value.Some? ==> id in earlier.versions && found.value.value.hash == earlier.versions[id].hash)
  }

  /**
   If some model moved, an ephemeral one included, every materialised model
   downstream of it is reported changed.
   */
  lemma ChangedClosedDownstream<E>(
    sha: string -> string, earlier: Compiled, now: Compiled, lookup: Lookup<E>, model: CurrentModel, path: seq<ModelId>)
    requires IsDigest(sha) && IsCompiled(sha, earlier) && IsCompiled(sha, now) && SourcesFramable(earlier.p, now.p)
    requires IsWalk(Upstream(now.p), path) && Moved(earlier, now, path[|path| - 1])
    requires model.id == path[0] && !model.ephemeral && model.id in now.versions
    requires model.hash == now.versions[model.id].hash && RecordedBy(lookup, earlier, model.id)
    ensures IsChanged(model, Some(lookup))
  {
    MovedReachesDownstream(sha, earlier, now, path);
  }
}
