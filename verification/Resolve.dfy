/**
 Relation resolution over a fixed set of models
 (crates/phlo-transform-core/src/resolve.rs).

 The functions scan the registry; the class answers from hash indexes, as the
 source does, and is proved to give the scan's answers.
 */
module Resolve {
  import opened Wrappers
  import opened Collections
  import opened Ordering
  import opened Identity
  import opened Sql

  datatype RootRef = RootRef(id: nat, relativePath: seq<string>)

  datatype RegistryEntry = RegistryEntry(id: ModelId, ns: string, root: Option<RootRef>)

  datatype Resolution =
    | ToModel(id: ModelId)
    | External(source: SourceId)
    | Ambiguous(candidates: seq<ModelId>)

  /** A physical relation. */
  datatype Relation = Relation(catalog: Option<string>, schema: string, table: string)

  // -- Resolution by scanning the registry ------------------------------------------

  /** `suffix` is the whole name or what follows one of its dots. */
  predicate IsDottedSuffix(suffix: string, name: string) {
    || name == suffix
    || (|suffix| < |name| && name[|name| - |suffix| - 1] == '.' && name[|name| - |suffix|..] == suffix)
  }

  function Exact(entries: seq<RegistryEntry>, full: string): seq<ModelId> {
    if entries == [] then []
    else
      var rest, last := Exact(entries[..|entries| - 1], full), entries[|entries| - 1];
      if LogicalName(last.id) == full then rest + [last.id] else rest
  }

  function InNamespace(entries: seq<RegistryEntry>, ns: string, full: string): seq<ModelId> {
    if entries == [] then []
    else
      var rest, last := InNamespace(entries[..|entries| - 1], ns, full), entries[|entries| - 1];
      if last.ns == ns && LocalName(last.id) == full then rest + [last.id] else rest
  }

  function InRoot(entries: seq<RegistryEntry>, root: nat, full: string): seq<ModelId> {
    if entries == [] then []
    else
      var rest, last := InRoot(entries[..|entries| - 1], root, full), entries[|entries| - 1];
      if last.root.Some? && last.root.value.id == root && Join(last.root.value.relativePath, '.') == full
      then rest + [last.id] else rest
  }

  function BySuffix(entries: seq<RegistryEntry>, full: string): seq<ModelId> {
    if entries == [] then []
    else
      var rest, last := BySuffix(entries[..|entries| - 1], full), entries[|entries| - 1];
      if IsDottedSuffix(full, LogicalName(last.id)) then rest + [last.id] else rest
  }

  /** No candidate says nothing; one resolves; several are an ambiguity. */
  function Unique(candidates: seq<ModelId>): Option<Resolution> {
    var distinct := SortedSet(ModelLess, candidates);
    if |distinct| == 0 then None
    else if |distinct| == 1 then Some(ToModel(distinct[0]))
    else Some(Ambiguous(distinct))
  }

  function ResolveGlobal(entries: seq<RegistryEntry>, name: Name): Resolution {
    var full := Join(name, '.');
    var exact := Unique(Exact(entries, full));
    if exact.Some? then exact.value
    else
      var suffix := Unique(BySuffix(entries, full));
      if suffix.Some? then suffix.value else External(SourceId(name))
  }

  /** Exact name, then the current namespace, then the current root, then a unique suffix, then a source. */
  function ResolveIn(entries: seq<RegistryEntry>, current: RegistryEntry, name: Name): Resolution {
    var full := Join(name, '.');
    var exact := Unique(Exact(entries, full));
    var inNamespace := Unique(InNamespace(entries, current.ns, full));
    var inRoot := if current.root.Some? then Unique(InRoot(entries, current.root.value.id, full)) else None;
    if exact.Some? then exact.value
    else if inNamespace.Some? then inNamespace.value
    else if inRoot.Some? then inRoot.value
    else ResolveGlobal(entries, name)
  }

  /** The relation a source name stands for under the workspace defaults. */
  function RelationForSource(source: SourceId, catalog: Option<string>, schema: Option<string>): Relation {
    var parts := source.parts;
    if |parts| == 0 then Relation(catalog, schema.GetOr("default"), "")
    else if |parts| == 1 then Relation(catalog, schema.GetOr("default"), parts[0])
    else if |parts| == 2 then Relation(catalog, parts[0], parts[1])
    else Relation(Some(parts[0]), parts[1], Join(parts[2..], '.'))
  }

  // -- What resolution answers ----------------------------------------------------------

  lemma UniqueKeepsCandidates(candidates: seq<ModelId>)
    ensures var distinct := SortedSet(ModelLess, candidates);
            Distinct(distinct) && Elements(distinct) == Elements(candidates) && |distinct| == |Elements(candidates)|
  {
    ModelLessTotal();
    SortedSetIsSet(ModelLess, candidates);
    DistinctSize(SortedSet(ModelLess, candidates));
  }

  /** A level decides by the set of its candidates: none, exactly one, or every one of them once. */
  lemma UniqueDecides(candidates: seq<ModelId>)
    ensures Unique(candidates).None? <==> candidates == []
    ensures Unique(candidates).Some? && Unique(candidates).value.ToModel? ==>
              Elements(candidates) == {Unique(candidates).value.id}
    ensures Unique(candidates).Some? && !Unique(candidates).value.ToModel? ==>
              && Unique(candidates).value.Ambiguous? && |Elements(candidates)| > 1
              && Distinct(Unique(candidates).value.candidates)
              && Elements(Unique(candidates).value.candidates) == Elements(candidates)
  {
    UniqueKeepsCandidates(candidates);
    var distinct := SortedSet(ModelLess, candidates);
    if candidates != [] {
      assert candidates[0] in Elements(candidates);
    }
    if |distinct| == 1 {
      assert Elements(distinct) == {distinct[0]};
    }
  }

  lemma {:induction false} SuffixCandidates(entries: seq<RegistryEntry>, full: string)
    ensures Elements(BySuffix(entries, full))
         == set e | e in entries && IsDottedSuffix(full, LogicalName(e.id)) :: e.id
  {
    if entries != [] {
      var rest, last := entries[..|entries| - 1], entries[|entries| - 1];
      SuffixCandidates(rest, full);
      assert Elements(BySuffix(rest, full) + [last.id]) == Elements(BySuffix(rest, full)) + {last.id};
      forall e ensures e in entries <==> e in rest || e == last {
        assert entries == rest + [last];
      }
    }
  }

  lemma {:induction false} NarrowIsSuffix(entries: seq<RegistryEntry>, current: RegistryEntry, full: string)
    requires BySuffix(entries, full) == []
    requires forall e :: e in entries && e.root.Some? ==>
               IsDottedSuffix(Join(e.root.value.relativePath, '.'), LogicalName(e.id))
    ensures Exact(entries, full) == [] && InNamespace(entries, current.ns, full) == []
    ensures current.root.Some? ==> InRoot(entries, current.root.value.id, full) == []
  {
    if entries != [] {
      var rest, last := entries[..|entries| - 1], entries[|entries| - 1];
      assert last in entries && forall e :: e in rest ==> e in entries;
      NarrowIsSuffix(rest, current, full);
      var name := LogicalName(last.id);
      assert name[|name| - |LocalName(last.id)|..] == LocalName(last.id);
    }
  }

  /**
   When root-relative paths are dotted suffixes of logical names, a name that is
   external without context is the same external source in every model's context.
   */
  lemma ExternalEverywhere(entries: seq<RegistryEntry>, current: RegistryEntry, name: Name)
    requires forall e :: e in entries && e.root.Some? ==>
               IsDottedSuffix(Join(e.root.value.relativePath, '.'), LogicalName(e.id))
    requires ResolveGlobal(entries, name).External?
    ensures ResolveIn(entries, current, name) == ResolveGlobal(entries, name) == External(SourceId(name))
  {
    var full := Join(name, '.');
    UniqueDecides(Exact(entries, full));
    UniqueDecides(BySuffix(entries, full));
    NarrowIsSuffix(entries, current, full);
  }

  lemma {:induction false} ExactCandidates(entries: seq<RegistryEntry>, full: string)
    ensures forall id :: id in Exact(entries, full) <==>
          exists e :: e in entries && LogicalName(e.id) == full && e.id == id
  {
    if entries != [] {
      var rest, last := entries[..|entries| - 1], entries[|entries| - 1];
      ExactCandidates(rest, full);
      forall e ensures e in entries <==> e in rest || e == last {
        assert entries == rest + [last];
      }
    }
  }

  /** A model's full logical name resolves to it from anywhere. */
  lemma QualifiedNameResolves(entries: seq<RegistryEntry>, current: RegistryEntry, entry: RegistryEntry)
    requires entry in entries && forall e :: e in entries ==> IsModelId(e.id)
    ensures ResolveIn(entries, current, Segments(entry.id)) == ToModel(entry.id)
    ensures ResolveGlobal(entries, Segments(entry.id)) == ToModel(entry.id)
  {
    var full := Join(Segments(entry.id), '.');
    LogicalNameIsJoin(entry.id);
    ExactCandidates(entries, full);
    var found := Exact(entries, full);
    forall id | id in found ensures id == entry.id {
      LogicalNameInjective(id, entry.id);
    }
    assert entry.id in found;
    assert Elements(found) == {entry.id};
    UniqueDecides(found);
  }

  lemma {:induction false} CandidateIsKnown(
    entries: seq<RegistryEntry>, ns: string, root: nat, full: string, id: ModelId)
    requires || id in Exact(entries, full) || id in InNamespace(entries, ns, full)
             || id in InRoot(entries, root, full) || id in BySuffix(entries, full)
    ensures exists e :: e in entries && e.id == id
  {
    var rest, last := entries[..|entries| - 1], entries[|entries| - 1];
    if last.id != id {
      CandidateIsKnown(rest, ns, root, full, id);
      var e :| e in rest && e.id == id;
      assert e in entries;
    } else {
      assert last in entries;
    }
  }

  lemma ResolvedIsCandidate(entries: seq<RegistryEntry>, current: RegistryEntry, name: Name, id: ModelId)
    requires ResolveIn(entries, current, name) == ToModel(id)
    ensures var full := Join(name, '.');
            || id in Exact(entries, full) || id in InNamespace(entries, current.ns, full)
            || (current.root.Some? && id in InRoot(entries, current.root.value.id, full))
            || id in BySuffix(entries, full)
  {
    var full := Join(name, '.');
    UniqueDecides(Exact(entries, full));
    UniqueDecides(InNamespace(entries, current.ns, full));
    if current.root.Some? {
      UniqueDecides(InRoot(entries, current.root.value.id, full));
    }
    UniqueDecides(BySuffix(entries, full));
    assert forall s: seq<ModelId> :: Elements(s) == {id} ==> id in Elements(s);
  }

  /** Resolution only ever names registered models, and external names keep their parts. */
  lemma ResolvesToKnown(entries: seq<RegistryEntry>, current: RegistryEntry, name: Name)
    ensures var r := ResolveIn(entries, current, name);
            && (r.ToModel? ==> exists e :: e in entries && e.id == r.id)
            && (r.External? ==> r.source == SourceId(name))
  {
    var r := ResolveIn(entries, current, name);
    if r.ToModel? {
      var root := if current.root.Some? then current.root.value.id else 0;
      ResolvedIsCandidate(entries, current, name, r.id);
      CandidateIsKnown(entries, current.ns, root, Join(name, '.'), r.id);
    } else if r.External? {
      var full := Join(name, '.');
      UniqueDecides(Exact(entries, full));
      UniqueDecides(InNamespace(entries, current.ns, full));
      if current.root.Some? {
        UniqueDecides(InRoot(entries, current.root.value.id, full));
      }
      UniqueDecides(BySuffix(entries, full));
    }
  }

  // -- The indexed resolver ----------------------------------------------------------------

  function Get<K(==)>(index: map<K, seq<ModelId>>, key: K): seq<ModelId> {
    if key in index then index[key] else []
  }

  function Push<K(==)>(index: map<K, seq<ModelId>>, key: K, id: ModelId): map<K, seq<ModelId>> {
    index[key := Get(index, key) + [id]]
  }

  /** What a key leads to once the first `positions` characters have been looked at for dots. */
  function Filed(before: map<string, seq<ModelId>>, id: ModelId, positions: nat, full: string): seq<ModelId> {
    var logical := LogicalName(id);
    if |logical| - positions <= |full| && full != logical && IsDottedSuffix(full, logical)
    then Get(before, full) + [id] else Get(before, full)
  }

  lemma FileNext(before: map<string, seq<ModelId>>, index: map<string, seq<ModelId>>, id: ModelId, position: nat)
    requires position < |LogicalName(id)|
    requires forall full :: Get(index, full) == Filed(before, id, position, full)
    ensures var logical := LogicalName(id);
            var next := if logical[position] == '.' then Push(index, logical[position + 1..], id) else index;
            forall full :: Get(next, full) == Filed(before, id, position + 1, full)
  {
    var logical := LogicalName(id);
    var suffix := logical[position + 1..];
    var next := if logical[position] == '.' then Push(index, suffix, id) else index;
    forall full ensures Get(next, full) == Filed(before, id, position + 1, full) {
      assert Get(index, full) == Filed(before, id, position, full);
      if |full| == |suffix| {
        assert |logical| - |full| == position + 1;
        assert IsDottedSuffix(full, logical) && full != logical <==> logical[position] == '.' && suffix == full;
      }
    }
  }

  ghost predicate LogicalIndex(index: map<string, seq<ModelId>>, entries: seq<RegistryEntry>) {
    forall full :: Get(index, full) == Exact(entries, full)
  }

  ghost predicate NamespaceIndex(index: map<(string, string), seq<ModelId>>, entries: seq<RegistryEntry>) {
    forall ns, full :: Get(index, (ns, full)) == InNamespace(entries, ns, full)
  }

  ghost predicate RootIndex(index: map<(nat, string), seq<ModelId>>, entries: seq<RegistryEntry>) {
    forall root, full :: Get(index, (root, full)) == InRoot(entries, root, full)
  }

  ghost predicate SuffixIndex(index: map<string, seq<ModelId>>, entries: seq<RegistryEntry>) {
    forall full :: Get(index, full) == BySuffix(entries, full)
  }

  function RootKey(root: RootRef): (nat, string) {
    (root.id, Join(root.relativePath, '.'))
  }

  lemma IndexOne(
    entries: seq<RegistryEntry>, entry: RegistryEntry, byLogical: map<string, seq<ModelId>>,
    byNamespace: map<(string, string), seq<ModelId>>, byRoot: map<(nat, string), seq<ModelId>>)
    requires LogicalIndex(byLogical, entries) && NamespaceIndex(byNamespace, entries) && RootIndex(byRoot, entries)
    ensures LogicalIndex(Push(byLogical, LogicalName(entry.id), entry.id), entries + [entry])
    ensures NamespaceIndex(Push(byNamespace, (entry.ns, LocalName(entry.id)), entry.id), entries + [entry])
    ensures RootIndex(
              if entry.root.Some? then Push(byRoot, RootKey(entry.root.value), entry.id) else byRoot, entries + [entry])
  {
    var more := entries + [entry];
    assert more[..|more| - 1] == entries && more[|more| - 1] == entry;
  }

  lemma AllFiled(
    entries: seq<RegistryEntry>, entry: RegistryEntry,
    before: map<string, seq<ModelId>>, index: map<string, seq<ModelId>>)
    requires SuffixIndex(before, entries)
    requires var logical := LogicalName(entry.id);
             forall full :: Get(index, full) == Filed(Push(before, logical, entry.id), entry.id, |logical|, full)
    ensures SuffixIndex(index, entries + [entry])
  {
    var logical, more := LogicalName(entry.id), entries + [entry];
    assert more[..|more| - 1] == entries && more[|more| - 1] == entry;
    forall full ensures Get(index, full) == BySuffix(more, full) {
      assert Get(before, full) == BySuffix(entries, full);
      assert Get(index, full) == Filed(Push(before, logical, entry.id), entry.id, |logical|, full);
    }
  }

  class Resolver {
    var byLogical: map<string, seq<ModelId>>
    var byNamespace: map<(string, string), seq<ModelId>>
    var byRoot: map<(nat, string), seq<ModelId>>
    var bySuffix: map<string, seq<ModelId>>
    ghost var entries: seq<RegistryEntry>

    /** The indexes hold, per key, what a scan of the registry would find. */
    ghost predicate Valid()
      reads this
    {
      && LogicalIndex(byLogical, entries) && NamespaceIndex(byNamespace, entries)
      && RootIndex(byRoot, entries) && SuffixIndex(bySuffix, entries)
    }

    constructor (registry: seq<RegistryEntry>)
      ensures Valid() && entries == registry
    {
      byLogical, byNamespace, byRoot, bySuffix := map[], map[], map[], map[];
      entries := [];
      new;
      for i := 0 to |registry|
        invariant Valid() && entries == registry[..i]
      {
        assert registry[..i + 1] == registry[..i] + [registry[i]];
        Add(registry[i]);
      }
      assert registry[..|registry|] == registry;
    }

    method Add(entry: RegistryEntry)
      requires Valid()
      modifies this
      ensures Valid() && entries == old(entries) + [entry]
    {
      var logical := LogicalName(entry.id);
      IndexOne(entries, entry, byLogical, byNamespace, byRoot);
      byLogical := Push(byLogical, logical, entry.id);
      byNamespace := Push(byNamespace, (entry.ns, LocalName(entry.id)), entry.id);
      if entry.root.Some? {
        byRoot := Push(byRoot, RootKey(entry.root.value), entry.id);
      }
      ghost var before := bySuffix;
      bySuffix := IndexSuffixes(entry.id, Push(bySuffix, logical, entry.id));
      AllFiled(entries, entry, before, bySuffix);
      entries := entries + [entry];
    }

    /** File a model under what follows each dot of its logical name. */
    static method IndexSuffixes(id: ModelId, before: map<string, seq<ModelId>>)
      returns (index: map<string, seq<ModelId>>)
      ensures forall full :: Get(index, full) == Filed(before, id, |LogicalName(id)|, full)
    {
      var logical := LogicalName(id);
      index := before;
      for position := 0 to |logical|
        invariant forall full :: Get(index, full) == Filed(before, id, position, full)
      {
        FileNext(before, index, id, position);
        if logical[position] == '.' {
          index := Push(index, logical[position + 1..], id);
        }
      }
    }

    method ResolveGlobally(name: Name) returns (resolution: Resolution)
      requires Valid() && IsRelationName(name)
      ensures resolution == ResolveGlobal(entries, name)
    {
      var full := Join(name, '.');
      var exact := Unique(Get(byLogical, full));
      if exact.Some? {
        return exact.value;
      }
      var suffix := Unique(Get(bySuffix, full));
      if suffix.Some? {
        return suffix.value;
      }
      return External(SourceId(name));
    }

    method ResolveFor(current: RegistryEntry, name: Name) returns (resolution: Resolution)
      requires Valid() && IsRelationName(name)
      ensures resolution == ResolveIn(entries, current, name)
    {
      var full := Join(name, '.');
      var exact := Unique(Get(byLogical, full));
      if exact.Some? {
        return exact.value;
      }
      var inNamespace := Unique(Get(byNamespace, (current.ns, full)));
      if inNamespace.Some? {
        return inNamespace.value;
      }
      if current.root.Some? {
        var inRoot := Unique(Get(byRoot, (current.root.value.id, full)));
        if inRoot.Some? {
          return inRoot.value;
        }
      }
      resolution := ResolveGlobally(name);
    }
  }
}
