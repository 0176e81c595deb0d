# phlo-transform: verified model

phlo-transform compiles SQL models into queries over physical relations, schedules and versions them, tells where
each output column comes from, and runs them through a daemon that survives crashes. This project models the parts of
it that carry promises and proves the promises.

**The SQL compiler** (`Sql`, `Resolve`, `Rewrite`, `Revisit`, `Meaning`, `Compile`, `CompiledMeaning`, `Hazards`,
`Endless`, `Targets`).
A workspace means something before it is compiled: each model is the table its query computes when every name is read
as the model or source it resolves to. Compilation renames references to physical relations and inlines ephemeral
models as derived tables. The two agree, for every meaning of SELECT blocks, set operations and table functions.
`Hazards` has the exact conditions on single references, over all databases and meanings with tables that are numbers;
a reference kept over those is kept over tables of any kind (`KeptOverAnything`). It also has the smallest queries that
break them. `Revisit` and `Endless` say exactly when the visits of inlined queries come to an end.

**The column analyser** (`Relational`, `Analyze`, `AnalyzeRun`, `AnalyzeSound`, `AnalyzeTheorems`, `AnalyzeHazards`,
`NullHazards`). Inference of nullability and of column inputs, proved sound against an evaluator with three-valued
logic, outer joins and row identities; and exactly when its NOT NULL claims hold where the analysis does not guard them.

**Scheduling and selection** (`Digraph`, `Graph`, `Select`, `Exclusion`). Kahn's algorithm with an ordered ready set,
the three-colour search for cycles, selectors with their closed form, and exactly when an exclude term removes no more
than its `+` signs stand for.

**Versions** (`Version`, `CompileVersions`, `Changed`). Content hashes as a Merkle construction. SHA-256 is an
injective function whose results have no newline; the framing of lines and pairs is kept, and its injectivity proved.

**Lineage** (`Lineage`, `LineageBuild`, `LineageWalk`, `LineageAgrees`, `LineageDiff`, `DiffOrder`, `BuiltDiffs`,
`Fingerprint`). Building and walking the graph, its agreement with scheduling, the diff of two graphs and the order of
its lists, and the fingerprint.

**The operation store** (`Operations`, `Protocol`, `Recovery`). The store as a class, the daemon as a step relation
with interleaving, crashes and restarts, and what reopening a journal restores.

**Shared** (`Wrappers`, `Collections`, `Ordering`, `Identity`, `Semantic`, `TypeText`, `Witnesses`).

Code that changes state is modelled by classes and loops, proved against functions; the properties are lemmas about
those functions. I/O, clocks, fresh ids and digests are parameters: whether a write reaches the disk is a `durable`
argument, an operation's id is an argument required to be fresh, a digest is a function from strings to strings.

## Where the code does not do what it promises

- `version.rs:60` describes the contract input as covering assertions. They are still empty when versions are computed
  (`AssertionsMoveNothing`).
- `operations.rs:341-370` collects every non-terminal line as interrupted, also for operations that finish further
  down. One reopening restores history; a second one forgets successes (`SecondReopenForgetsSuccess`, with the exact
  condition in `HistorySurvivesExactly`, and the repair in `CarefulReopenings`).
- `lineage_diff.rs:149` says every list is sorted. Added and changed lists are; removed edges are not always
  (`DiffOrder.RemovedInOrderExactly`, and `BuiltDiffs.RemovedEdgesUnsorted` for two graphs that building makes).
- `compile.rs:746-748` folds the namespace into table names so that targets stay unique. Two models can still be given
  one (`TargetsMeetExactly`, `AbsorbedTargetsCollide`, `UnderscoresCollide`); the compiler then reports an error
  (`CollisionReportedExactly`).
- `rewrite.rs:113-178` visits what it has inlined, with nothing to stop it. An ephemeral model that reads itself is
  inlined without end, before `compile.rs:297` would report the cycle, and so is one whose name is another model's
  target (`VisitsEndExactly`, `SelfReadingIsEndless`, `ShadowingIsEndless`).
- A column's impact is meant to stay with its model, its dependents and tests. It does exactly when columns are read
  from dependencies (`ImpactIsDownstreamExactly`); a self-named WITH table breaks it (`HiddenReadIsNoDependency`,
  `HiddenReadEscapes`).
- `operations.rs:334-336` starts with an empty store when the journal cannot be read. From every reachable state in
  which work has started under a key, such a restart lets it start again (`SpentKeyRunsAgain`); other restarts never do
  (`RestartKeepsKeysExactly`).
- `semantic.rs:79-90`: the text `TIMESTAMP WITH TIME ZONE` is not read back as that type (`RoundTripExactly` has all
  types that are).
- `rewrite.rs:93-106` puts a WITH name in scope of its own body, so a WITH table named like the model it reads hides
  the model (`OwnNameHidesModel`, `HiddenReferenceExactly`); the analyser keeps WITH names of derived tables in scope
  (`InnerWithLeaks`, `InnerWithLeaksExactly`).
- `analyze.rs:425-434` leaves NOT NULL on the null-supplied side of outer joins (`OuterJoinKeepsNotNull`,
  `SafePaddingExactly`), and `analyze.rs:213-236` reads VALUES off their first row (`FirstRowDecides`, `ValuesExactly`).
- The documented selector grammar has `+m+` stand for `m` with its dependencies and its dependents. As an exclude term
  it also removes dependents of the dependencies (`select.rs:422-427`). `RemovalExactly` says when it removes nothing
  else, and `BystanderIsRemoved` has a model that is lost.

## Premises of the compiler's theorem

`CompiledMeaning.Compilable` and `Meaning.Faithful` are read off the queries before compilation: the dependency graph
is acyclic; every model is a single query; no reference is ambiguous; a reference the rewrite takes for a WITH table is
one to SQL or would be left alone; a renamed table keeps its qualifier or its block uses neither name; where a model is
inlined no WITH name in scope is a simple name its expansion can leave; and physical names resolve to themselves.
`Witnesses` has a workspace that meets them while a model is inlined into another, and a query and database that meet
those of the analyser's theorems.

## Model

| member | source | states |
|---|---|---|
| `CompiledMeaning.CompilationKeepsMeaning` | crates/phlo-transform-core/src/compile.rs:637-723 | For every meaning of blocks and set operations and every acyclic workspace meeting the premises below, each model's rewritten and inlined query, over a database holding each materialised model at its target, computes exactly the table the model means |
| `CompiledMeaning.WorkspaceHasOneMeaning` | crates/phlo-transform-core/src/compile.rs:147-201 | Over given sources such a workspace means exactly one table per model, so the statement above is about something |
| `CompiledMeaning.ExpansionLands` | crates/phlo-transform-core/src/compile.rs:662-722 | Every expansion exists and refers to physical relations only, so visiting it again changes nothing |
| `Meaning.RewriteKeepsMeaning` | crates/phlo-transform-core/src/rewrite.rs:93-178 | The rewritten query over the physical database equals the original query with every name read as the model or source it stands for, under any WITH scope and any outer context |
| `Meaning.RewriteLands` | crates/phlo-transform-core/src/rewrite.rs:113-178 | What a rewrite leaves free is a physical name or a WITH name visible to SQL |
| `Meaning.InlineKeepsMeaning` | crates/phlo-transform-core/src/rewrite.rs:156-171 | A query inlined under the WITH names of its new place, and visited a second time, still computes its model |
| `Meaning.StableIsFixpoint` | crates/phlo-transform-core/src/rewrite.rs:113-178 | A query whose references are fixpoints of resolution is left exactly as it is, at every depth |
| `Rewrite.RelationRewriter.VisitQuery` | crates/phlo-transform-core/src/rewrite.rs:93-111 | The walk with its stack of WITH scopes gives the specified rewrite, leaves the stack as it found it, and sets `cut` exactly when an inlined query lies deeper than the bound on visits, which the source does not have |
| `Rewrite.RelationRewriter.VisitTableFactor` | crates/phlo-transform-core/src/rewrite.rs:113-178 | One FROM item: left alone, renamed, or replaced by a derived table that is visited again, `cut` telling whether that visit was kept from going on |
| `Rewrite.RelationRewriter.IsScopedCte` | crates/phlo-transform-core/src/rewrite.rs:77-87 | A reference is taken for a WITH table exactly when it is one part naming a table of an enclosing query |
| `Compile.Expansion.Expand` | crates/phlo-transform-core/src/compile.rs:650-723 | The recursion over the dependency graph terminates on every graph, cyclic ones included, and leaves `visiting` as it was; on acyclic graphs it gives the unmemoised unfolding whatever was asked before |
| `Revisit.VisitsEndExactly` | crates/phlo-transform-core/src/rewrite.rs:113-178 | The visits of inlined queries come to an end if and only if no inlined query is visited again from inside its own visit under the same WITH names |
| `Revisit.DepthIsEnough` | crates/phlo-transform-core/src/rewrite.rs:113-178 | Where visits stay above a bound, every larger bound, and so none at all, gives the same query |
| `Endless.CompilationEnds` | crates/phlo-transform-core/src/compile.rs:214-262 | Under the premises of the compilation theorem every model's visits end: nothing is inlined into what is inlined |
| `Endless.SelfReadingIsEndless` | crates/phlo-transform-core/src/compile.rs:214-240 | The visits of one ephemeral model that reads itself never end, and they begin before the cycle is reported |
| `Endless.ShadowingIsEndless` | crates/phlo-transform-core/src/rewrite.rs:155-171 | Without any cycle, a target relation that is also an ephemeral model's name makes them endless too |
| `Compile.Expansion.ExpandNested` | crates/phlo-transform-core/src/compile.rs:676-690 | The ephemeral dependencies' expansions, each the unmemoised one |
| `Compile.Expansion.CompileAll` | crates/phlo-transform-core/src/compile.rs:214-262 | On an acyclic workspace every model gets its specified query, in whatever order the models come; with `cut` still false all visits have ended and every larger bound gives the same queries |
| `Compile.BoundIsEnough` | crates/phlo-transform-core/src/compile.rs:662-722 | Where every model's visits stay above a bound, all expansions, nested ones included, are the same under every larger bound, and so without one |
| `Compile.UnfoldIgnoresVisiting` | crates/phlo-transform-core/src/compile.rs:662-681 | In an acyclic workspace the cycle guard never cuts an expansion short |
| `Compile.UnfoldIsExpanded` | crates/phlo-transform-core/src/compile.rs:683-722 | A model's expansion is its own query with its dependencies' complete expansions inlined |
| `Compile.DependenciesAreKnown` | crates/phlo-transform-core/src/compile.rs:147-201 | Every dependency the compiler records is a model of the workspace |
| `Hazards.HiddenReferenceExactly` | crates/phlo-transform-core/src/rewrite.rs:93-106 | Over every meaning with tables that are numbers, every database and every WITH table in scope, a reference the rewrite takes for a WITH table keeps its value if and only if it is one to SQL or would be left alone anyway |
| `Hazards.RenamedReferenceExactly` | crates/phlo-transform-core/src/rewrite.rs:173-175 | A renamed reference keeps its value if and only if it has an alias, its last part stays, or its block asks for neither qualifier |
| `Hazards.InlinedReferenceExactly` | crates/phlo-transform-core/src/rewrite.rs:155-171 | An inlined reference keeps its value if and only if no WITH name in scope is a simple name the inlined query reads |
| `Hazards.KeptOverAnything` | crates/phlo-transform-core/src/rewrite.rs:113-178 | A reference kept over tables that are numbers is kept over every kind of table, row context, meaning and database |
| `Hazards.OwnNameHidesModel` | crates/phlo-transform-core/src/rewrite.rs:93-106 | A WITH table named like the materialised model it reads: the compiled query evaluates to the relation of that name, the original to the model |
| `Hazards.InlinedSourceIsCaptured` | crates/phlo-transform-core/src/rewrite.rs:143-171 | Without a catalog, an inlined model reads a WITH table of its reader where the original reads the source of that name |
| `Hazards.CatalogPreventsCapture` | crates/phlo-transform-core/src/rewrite.rs:143-154 | With a default catalog no expansion leaves a simple name free, so nothing can be captured |
| `Targets.TargetsMeetOnText` | crates/phlo-transform-core/src/compile.rs:738-759 | Two models share a target if and only if their schemas agree and their joined table names are one text |
| `Targets.TargetsMeetExactly` | crates/phlo-transform-core/src/compile.rs:738-759 | Where no segment holds or ends in the separator, that is if and only if they are one model or one repeats the other below a namespace that is the schema |
| `Targets.AbsorbedTargetsCollide` | crates/phlo-transform-core/src/compile.rs:746-753 | A default schema named like a namespace gives two different models one target, although targets are meant to stay unique |
| `Targets.UnderscoresCollide` | crates/phlo-transform-core/src/compile.rs:749-753 | A `__` inside a segment does so too |
| `Targets.DetectCollisions` | crates/phlo-transform-core/src/compile.rs:761-786 | The reported relations are those several models target, with those models in order |
| `Targets.CollisionReportedExactly` | crates/phlo-transform-core/src/compile.rs:761-786 | A relation is reported if and only if two different models are compiled to it |
| `Resolve.Resolver.ResolveFor` | crates/phlo-transform-core/src/resolve.rs:96-112 | The hash indexes answer what a linear scan of the registry answers, in a model's context |
| `Resolve.Resolver.ResolveGlobally` | crates/phlo-transform-core/src/resolve.rs:115-127 | The same without context |
| `Resolve.SuffixCandidates` | crates/phlo-transform-core/src/resolve.rs:49-86 | The suffix index holds exactly the models whose logical name is the name or ends in a dot and the name |
| `Resolve.UniqueDecides` | crates/phlo-transform-core/src/resolve.rs:157-165 | A level of resolution says nothing, one model, or an ambiguity of all its candidates, each once |
| `Resolve.QualifiedNameResolves` | crates/phlo-transform-core/src/resolve.rs:96-112 | A model's full name resolves to it from everywhere |
| `Resolve.ExternalEverywhere` | crates/phlo-transform-core/src/resolve.rs:96-155 | When root paths are dotted suffixes of logical names, a name that is external globally is external in every context |
| `Resolve.ResolvesToKnown` | crates/phlo-transform-core/src/resolve.rs:96-127 | Resolution names registered models only, and an external name keeps its parts |
| `Identity.ParseRoundTrip` | crates/phlo-transform-core/src/identity.rs:69-110 | A model's dotted name and its URI both parse back to it |
| `Identity.ParseAcceptsExactly` | crates/phlo-transform-core/src/identity.rs:69-83 | Parsing accepts a text exactly when its trimmed, dotted form is a valid model's name |
| `Identity.LogicalNameInjective` | crates/phlo-transform-core/src/identity.rs:94-101 | Different models have different logical names |
| `Identity.NewModelId` | crates/phlo-transform-core/src/identity.rs:57-66 | An identity is built exactly from valid segments with a non-empty path |
| `Graph.TransformGraph.Build` | crates/phlo-transform-core/src/graph.rs:55-89 | The graph's nodes and edges are the models and their dependencies, once each |
| `Graph.TransformGraph.TopologicalOrder` | crates/phlo-transform-core/src/graph.rs:197-224 | An order exactly when there is one, and then the lexicographically least of all; otherwise there is a cycle |
| `Graph.TransformGraph.Cycle` | crates/phlo-transform-core/src/graph.rs:226-284 | `None` exactly when an order exists; otherwise a walk along real dependencies back to its start that repeats no other model |
| `Graph.TransformGraph.ModelEdges` | crates/phlo-transform-core/src/graph.rs:162-190 | Each model waits for as many models as it depends on, and every dependency pair is recorded once |
| `Graph.TransformGraph.Dependencies` | crates/phlo-transform-core/src/graph.rs:128-142 | A model's direct dependencies, sorted, each once |
| `Digraph.OrderableExactlyWhenAcyclic` | crates/phlo-transform-core/src/graph.rs:192-284 | On every graph an order exists if and only if no cycle does |
| `Digraph.GreedyIsLeast` | crates/phlo-transform-core/src/graph.rs:197-224 | Always taking the least ready model gives the least order of all |
| `Select.ResolveSelection` | crates/phlo-transform-core/src/select.rs:351-464 | The members are exactly ((base matches with per-term closures) within the filters, with flag closures) minus the exclude closures; duplicate-free, dependencies first or else by name; or the first failing term's error |
| `Select.Expand` | crates/phlo-transform-core/src/select.rs:647-674 | The worklist computes true reachability on every graph, cyclic ones included |
| `Select.ExpandTerm` | crates/phlo-transform-core/src/select.rs:467-487 | A `+` term adds the closures of its matches in each direction asked for |
| `Select.OrderIds` | crates/phlo-transform-core/src/select.rs:678-690 | The listed models are the selected ones, once each, in dependency order when there is one and in name order otherwise |
| `Select.FullNameSelects` | crates/phlo-transform-core/src/select.rs:550-566 | A model's logical name or URI selects that model alone |
| `Select.BaseMatch` | crates/phlo-transform-core/src/select.rs:490-546 | Terms match known models; only `changed` may match none |
| `Exclusion.RemovalExactly` | crates/phlo-transform-core/src/select.rs:416-431 | An exclude term removes its matches, their dependencies and their dependents as its `+` signs say, never less; and no more if and only if it has one `+` at most, or whoever reads a dependency of its matches is itself one of their dependencies or dependents |
| `Exclusion.BystanderIsRemoved` | crates/phlo-transform-core/src/select.rs:416-431 | Two models over a shared one: excluding `+n.left+` from everything also drops `n.right` |
| `CompileVersions.MerkleTheorem` | crates/phlo-transform-core/src/compile.rs:312-490 | With an injective digest, two models of two compiled workspaces have equal version hashes if and only if their fully unfolded upstream trees are equal |
| `CompileVersions.OnlyUpstreamMovesVersion` | crates/phlo-transform-core/src/compile.rs:357-366 | Workspaces that agree on a set of models closed under dependencies give those models equal versions, whatever lies outside it and whatever they assert |
| `CompileVersions.VersionTellsInputs` | crates/phlo-transform-core/src/compile.rs:391-490 | One version tells exactly the model's own inputs and its dependencies' hashes by name |
| `CompileVersions.VersionAll` | crates/phlo-transform-core/src/compile.rs:312-379 | The loop over the topological order computes these versions, and fills in assertions after each |
| `CompileVersions.VersionAllCompiles` | crates/phlo-transform-core/src/compile.rs:312-379 | The loop's results are the compiled workspaces the Merkle theorem is about |
| `CompileVersions.AssertionsMoveNothing` | crates/phlo-transform-core/src/compile.rs:357-371 | Changing a model's assertions moves no version, although the contract input is documented to cover them |
| `Version.VersionExactly` | crates/phlo-transform-core/src/version.rs:84-135 | Equal hashes if and only if all version inputs agree, on names whose lines cannot be confused |
| `Version.FramedInjective` | crates/phlo-transform-core/src/version.rs:178-190 | Newline framing of one-line texts is injective |
| `Version.LinesMeetExactly` | crates/phlo-transform-core/src/version.rs:95-115 | Two names can yield the same `name=value` line if and only if one is the other, `=` and more |
| `Version.EqualsInNameCollides` | crates/phlo-transform-core/src/version.rs:95-115 | A `=` in a source name lets two different observations share a version |
| `Version.HashLines` | crates/phlo-transform-core/src/version.rs:178-190 | The hasher's loop digests the framed text |
| `Version.ComputeVersion` | crates/phlo-transform-core/src/version.rs:84-135 | The version computed from sorted local copies is the specified one |
| `Changed.ChangedModels` | crates/phlo-transform-engine/src/changed.rs:32-63 | The changed set is exact: materialised models without state, without a record, or with another hash; a failing lookup is the answer |
| `Changed.ChangedClosedDownstream` | crates/phlo-transform-engine/src/changed.rs:32-63 | If any model moved since an earlier compile, ephemeral ones included, every materialised model downstream of it is reported |
| `Changed.MovedReachesDependent` | crates/phlo-transform-core/src/compile.rs:447-458 | A dependent of a model that moved has moved |
| `LineageAgrees.LineageAgreesWithScheduling` | crates/phlo-transform-core/src/lineage.rs:311-471 | A model is in another's downstream walk, and that one in its upstream walk, if and only if it transitively depends on it in the scheduling graph, whatever their columns read |
| `LineageAgrees.RelationsStayDownstream` | crates/phlo-transform-core/src/lineage.rs:837-848 | Whatever columns read, a walk from a model reaches no model or dataset but its own output and those of dependents |
| `LineageAgrees.ImpactIsDownstreamExactly` | crates/phlo-transform-core/src/lineage.rs:837-848 | Walks from a model's node, output or columns reach only its own data, dependents and tests if and only if every column is read from its own model, a dependency or outside all models |
| `LineageAgrees.HiddenReadEscapes` | crates/phlo-transform-core/src/lineage.rs:379-425 | With a read no dependency was recorded for, the impact of a column includes a column of a model that does not depend on it |
| `AnalyzeHazards.HiddenReadIsNoDependency` | crates/phlo-transform-core/src/analyze.rs:113-125 | Such a read exists: in WITH x AS (SELECT * FROM x) SELECT * FROM x the analyser reads the model `x`, and relation extraction records nothing |
| `LineageAgrees.EdgesExactly` | crates/phlo-transform-core/src/lineage.rs:311-501 | The built graph holds exactly the planned edges whose two ends are nodes: none is lost to the order of the passes |
| `LineageAgrees.SourcesAreNotModels` | crates/phlo-transform-core/src/resolve.rs:96-112 | A name resolved as a source is no registered model's name |
| `LineageBuild.LineageGraph.Build` | crates/phlo-transform-core/src/lineage.rs:311-471 | The passes over models, sources, dependencies, columns and tests leave the nodes, metadata and edges of the plan |
| `LineageBuild.LineageGraph.EnsureNode` | crates/phlo-transform-core/src/lineage.rs:473-486 | A known node's metadata is merged field by field, a new one is added |
| `LineageBuild.LineageGraph.AddEdge` | crates/phlo-transform-core/src/lineage.rs:488-501 | An edge without both ends is dropped and an equal one is not repeated |
| `LineageBuild.LineageGraph.Neighbors` | crates/phlo-transform-core/src/lineage.rs:823-835 | One hop in either direction, sorted, each node once |
| `LineageBuild.LineageGraph.Walk` | crates/phlo-transform-core/src/lineage.rs:837-848 | Exactly the nodes at least one step away, sorted; the start only around a cycle |
| `LineageWalk.WalksAreConverse` | crates/phlo-transform-core/src/lineage.rs:565-580 | Downstream and upstream walks are converse relations |
| `LineageDiff.MergeBags` | crates/phlo-transform-core/src/lineage_diff.rs:205-235 | The two-pointer merge of sorted bags leaves on each side the other side's difference |
| `LineageDiff.SubtractIsDifference` | crates/phlo-transform-core/src/lineage_diff.rs:205-235 | What is left is the exact multiset difference |
| `LineageDiff.DeltaIsExact` | crates/phlo-transform-core/src/lineage_diff.rs:189-269 | Each bag is matched plus changed plus reported edges, with disjoint leftovers, and edges are not both added and removed at one key |
| `LineageDiff.ChangesAreDifferences` | crates/phlo-transform-core/src/lineage_diff.rs:236-250 | Every reported change names a field, so the `debug_assert` cannot fire |
| `LineageDiff.Diff` | crates/phlo-transform-core/src/lineage_diff.rs:150-340 | The loops over nodes and edge keys compute the specified report |
| `LineageDiff.ReportedCounts` | crates/phlo-transform-core/src/lineage_diff.rs:189-269 | Every edge is reported added and removed as often as its key's bags say |
| `LineageDiff.EmptyExactly` | crates/phlo-transform-core/src/lineage_diff.rs:128-136 | The diff is empty if and only if node metadata and edge bags are equal |
| `LineageDiff.SwapExchanges` | crates/phlo-transform-core/src/lineage_diff.rs:150-269 | Swapping the graphs swaps added and removed |
| `DiffOrder.SwapFlipsChanges` | crates/phlo-transform-core/src/lineage_diff.rs:236-250 | It turns every reported change of an edge round, and reports no other |
| `DiffOrder.AddedAndChangedInOrder` | crates/phlo-transform-core/src/lineage_diff.rs:147-256 | Added and changed edges are listed in key order, whatever the graphs |
| `DiffOrder.NodesInOrder` | crates/phlo-transform-core/src/lineage_diff.rs:153-186 | Added, removed and changed nodes are listed in node order |
| `DiffOrder.RemovedInOrderExactly` | crates/phlo-transform-core/src/lineage_diff.rs:251-269 | Removed edges are listed in key order if and only if no key of the base alone comes before a shared key where the base has more edges |
| `BuiltDiffs.BuiltIsView` | crates/phlo-transform-core/src/lineage.rs:447-501 | Building gives nodes in order, no edge twice and none without its ends, as the diff expects |
| `BuiltDiffs.RemovedEdgesUnsorted` | crates/phlo-transform-core/src/lineage_diff.rs:147-150 | Two built graphs whose removed edges come out of order, although every list is documented as sorted: a model drops a join and a condition on a column it goes on selecting |
| `Fingerprint.FingerprintExactly` | crates/phlo-transform-core/src/lineage.rs:706-759 | With plain names and an injective digest, fingerprints are equal if and only if the diff is empty, whatever the insertion order |
| `Fingerprint.UrisIdentify` | crates/phlo-transform-core/src/lineage.rs:85-165 | Nodes with plain names have one URI each |
| `Protocol.KeyExecutesOnce` | crates/phlo-transform-daemon/src/operations.rs:414-509 | In every run of submissions, transitions, crashes and restarts, at most one execution starts under a key, as long as every restart after it can read the journal |
| `Protocol.SpentKeyRunsAgain` | crates/phlo-transform-daemon/src/operations.rs:329-338 | From every reachable state in which work has started under a key, a restart that cannot read the journal has a continuation that starts work under it again |
| `Protocol.RestartKeepsKeysExactly` | crates/phlo-transform-daemon/src/operations.rs:329-372 | After a restart, all continuations whose own restarts read the journal execute a key at most once, if and only if this restart read it or no work has started under the key |
| `Protocol.KeyHasOneOwner` | crates/phlo-transform-daemon/src/operations.rs:414-509 | All records with one key, in the table or the journal, belong to one operation and one request, as long as every restart after the first of them reads the journal |
| `Protocol.KeyIsRequestBound` | crates/phlo-transform-daemon/src/operations.rs:414-448 | Once durable, a key is answered from its operation across restarts that read the journal: the same request replays, another conflicts |
| `Protocol.GateIsExclusive` | crates/phlo-transform-daemon/src/operations.rs:452-467 | At most one warehouse-mutating operation is unfinished, and the gate is closed while one is |
| `Protocol.LifecycleIsForward` | crates/phlo-transform-daemon/src/operations.rs:529-613 | Status only moves queued, running, one terminal state; work ends cancelled exactly when cancellation came before it finished |
| `Protocol.RefusalLeavesNoTrace` | crates/phlo-transform-daemon/src/operations.rs:472-509 | In every reachable interleaving a submission refused by the gate or the journal leaves table, keys, journal and history as they were, and the gate closed exactly if another task holds it |
| `Protocol.RefusedIsUnknown` | crates/phlo-transform-daemon/src/operations.rs:472-509 | No record or journal line exists for a refused submission |
| `Protocol.SubmissionIsAtomicCall` | crates/phlo-transform-daemon/src/operations.rs:414-448 | A submission's steps without interruption are one call of `submit`, whether it is registered, replayed, in conflict, busy or refused by the journal |
| `Protocol.RunInvariant` | crates/phlo-transform-daemon/src/lib.rs:1194-1230 | Table, gate, lock, journal, bindings and executions stay consistent over every run, unreadable journals included |
| `Recovery.OneReopen` | crates/phlo-transform-daemon/src/operations.rs:329-372 | One reopening restores every id to its last journalled record, in-flight ones as interrupted failures, and every key to its last owner |
| `Recovery.HistorySurvivesExactly` | crates/phlo-transform-daemon/src/operations.rs:341-370 | Later reopenings agree with the first on an operation if and only if it was never seen in flight, still is, or already reads as that interruption |
| `Recovery.SecondReopenForgetsSuccess` | crates/phlo-transform-daemon/src/operations.rs:341-370 | A success journalled in full reads as interrupted after two restarts |
| `Recovery.CarefulReopenings` | crates/phlo-transform-daemon/src/operations.rs:341-370 | If interruptions were collected after the fold, history would survive any number of reopenings, even with lost notes |
| `Operations.OperationStore.Submit` | crates/phlo-transform-daemon/src/operations.rs:414-448 | Fresh registration, replay, conflict or refusal, with the exact new state |
| `Operations.OperationStore.Register` | crates/phlo-transform-daemon/src/operations.rs:472-509 | Gate, journal reservation and table entry, undone when one fails |
| `Operations.OperationStore.Open` | crates/phlo-transform-daemon/src/operations.rs:329-372 | The journal is folded, interrupted work is failed, noted and appended; one that cannot be read is kept and taken for empty |
| `Operations.OperationStore.MarkRunning` | crates/phlo-transform-daemon/src/operations.rs:560-578 | Queued work starts, and the transition is journalled |
| `Operations.OperationStore.Finish` | crates/phlo-transform-daemon/src/operations.rs:582-613 | Unfinished work gets its one terminal record, cancelled when the flag is set |
| `Operations.OperationStore.Cancel` | crates/phlo-transform-daemon/src/operations.rs:529-538 | Unfinished work is flagged, nothing else changes |
| `AnalyzeTheorems.NullabilitySound` | crates/phlo-transform-core/src/analyze.rs:113-387 | On databases that respect declared nullability, a column inferred NOT NULL never holds NULL, through CASE, casts, arithmetic, derived tables, WITH tables, set operations and joins, outer ones included as long as no column a block claims rests on the claims of a side that is padded |
| `AnalyzeTheorems.LineageSound` | crates/phlo-transform-core/src/analyze.rs:246-527 | Databases that agree on a complete column's Direct inputs give equal values in each output row both have |
| `AnalyzeTheorems.AllInputsDetermineColumn` | crates/phlo-transform-core/src/analyze.rs:246-387 | For a SELECT over base relations, agreement on all recorded inputs makes the whole column identical, rows and values, outer joins included |
| `AnalyzeSound.InferNotNull` | crates/phlo-transform-core/src/analyze.rs:733-1120 | An expression inferred NOT NULL does not evaluate to NULL |
| `AnalyzeSound.InferDepends` | crates/phlo-transform-core/src/analyze.rs:733-1120 | A completely analysed expression depends on its Direct inputs only |
| `AnalyzeTheorems.CombineSupports` | crates/phlo-transform-core/src/analyze.rs:169-212 | Set operations keep both claims |
| `NullHazards.SafePaddingExactly` | crates/phlo-transform-core/src/analyze.rs:406-457 | For joins of given kinds, whatever the tables and conditions, NOT NULL claims survive if and only if no relation the joins can pad has such a column |
| `AnalyzeHazards.OuterJoinKeepsNotNull` | crates/phlo-transform-core/src/analyze.rs:425-434 | The right side of a LEFT JOIN keeps its NOT NULL columns, yet an unmatched row holds NULL there |
| `NullHazards.ValuesExactly` | crates/phlo-transform-core/src/analyze.rs:213-236 | For VALUES of literals, the NOT NULL claims hold of every row if and only if no row has a NULL where the first has a value |
| `AnalyzeHazards.FirstRowDecides` | crates/phlo-transform-core/src/analyze.rs:213-236 | VALUES (1), (NULL) is read off its first row |
| `AnalyzeHazards.InnerWithLeaks` | crates/phlo-transform-core/src/analyze.rs:113-125 | A WITH name of a derived table stays known to its later siblings |
| `NullHazards.InnerWithLeaksExactly` | crates/phlo-transform-core/src/analyze.rs:558-575 | What is then claimed of the sibling relation holds of what it evaluates to, over every database that matches the schemas, if and only if it is no more than the relation's own schema claims |
| `NullHazards.LeakedNameExactly` | crates/phlo-transform-core/src/analyze.rs:558-575 | The same for any reference outside every WITH scope that is taken for a WITH table |
| `AnalyzeRun.QueryAnalyzer.AnalyzeQuery` | crates/phlo-transform-core/src/analyze.rs:113-155 | The walk that updates WITH columns and flags gives the analysis the theorems are about |
| `AnalyzeRun.QueryAnalyzer.AnalyzeBody` | crates/phlo-transform-core/src/analyze.rs:159-244 | The same for a query body, with the union mismatch recorded |
| `AnalyzeRun.QueryAnalyzer.BuildScope` | crates/phlo-transform-core/src/analyze.rs:391-457 | The same for the FROM scope and its join constraints |
| `AnalyzeRun.QueryAnalyzer.AnalyzeFactor` | crates/phlo-transform-core/src/analyze.rs:529-604 | The same for one relation: WITH table, model, source or derived table |
| `AnalyzeRun.QueryAnalyzer.AnalyzeProjection` | crates/phlo-transform-core/src/analyze.rs:255-382 | The same for the WHERE clause and the projection |
| `TypeText.RoundTripExactly` | crates/phlo-transform-core/src/semantic.rs:35-176 | A type is read back from its printed form if and only if it holds no time zone and no ROW field that prints with a space |
| `TypeText.ReadBackExactly` | crates/phlo-transform-core/src/semantic.rs:35-95 | The same for every text that differs from the printed form by case and outer space only |
| `TypeText.LostTypes` | crates/phlo-transform-core/src/semantic.rs:79-90 | `TIMESTAMP WITH TIME ZONE` is lost even on its own, and so is a ROW of an ARRAY of MAPs |
| `Semantic.SplitTopLevel` | crates/phlo-transform-core/src/semantic.rs:449-474 | The loop with a depth counter splits at top-level commas |
| `Semantic.WidenAssociates` | crates/phlo-transform-core/src/semantic.rs:115-142 | Widening does not depend on how branches are grouped |
| `Semantic.WidenCommutes` | crates/phlo-transform-core/src/semantic.rs:115-142 | Nor on their order; it is idempotent and never invents a type |

## Left out

- Meaning.RewriteKeepsMeaning: its guard is sufficient, not necessary, for a whole query, since a block may ignore what it reads; the conditions that are exact are those on a single reference, in `Hazards`.
- Hazards.InlinedReferenceExactly: for an inlined query that a second visit leaves as it is, which `ExpansionLands` shows of every expansion under the premises.
- Rewrite.RelationRewriter.VisitTableFactor: the visit of inlined queries is given a bound so that it ends; `cut` tells whether it was met, and `Revisit` shows that a bound that is not met makes no difference and when there is one.
- Compile.Expansion.CompileAll: on a workspace with cycles only termination of the recursion over dependencies and the restored state are stated, not which queries result; compilation reports an error there.
- Rewrite.RelationRewriter.VisitQuery: in-place mutation of the syntax tree is modelled by returning the rewritten tree; the scope stack is a field.
- AnalyzeTheorems.NullabilitySound: VALUES must not be known less in a later row than in the first, and no WITH name may be taken for another (`NullHazards` has what holds then); the analysed operators must not yield NULL for operands that are not NULL, which leaves out division and modulo by zero where an engine answers them with NULL; claims refused by a join's condition are not told from claims it lets through.
- Relational.Joined: FROM items are joined from left to right, so a RIGHT or FULL JOIN after a comma pads the items before the comma as well, which SQL does not.
- AnalyzeTheorems.LineageSound: the fragment has positional scalar functions; aggregates, windows, DISTINCT, LIMIT, ORDER BY, GROUP BY, HAVING and QUALIFY are not in it, as the analyser does not record all of their influence on rows.
- AnalyzeTheorems.AllInputsDetermineColumn: for blocks over base relations; clause inputs of nested queries are not recorded for the outer query's rows.
- AnalyzeRun.QueryAnalyzer.AnalyzeQuery: data types, expression text and limitations are not among its results; inputs are sets, where the source keeps sorted lists without repetitions.
- LineageBuild.LineageGraph.Build: which seed fills a source is given, the matching of seed names is not modelled.
- LineageAgrees.LineageAgreesWithScheduling: assumes that no source is named like a model, which `SourcesAreNotModels` derives from resolution.
- Fingerprint.FingerprintExactly: serialising a document to JSON and digesting it is one function that does not collide.
- CompileVersions.MerkleTheorem: a model's canonical SQL, configuration and contract texts are taken as they are formatted; that different configurations format differently is not shown.
- Select.ResolveSelection: parsing of selector text and suggestions for unmatched terms.
- LineageDiff.Diff: rendering of nodes, field descriptions and impact lists.
- Protocol.KeyExecutesOnce: for restarts that can read the journal once work has started under the key (`SpentKeyRunsAgain` shows why); appends are atomic, ids are fresh, and each task calls mark_running, finish and release once.
- Protocol.KeyHasOneOwner: for restarts that can read the journal once it names the key; so `KeyIsRequestBound`.
- Targets.TargetsMeetExactly: segments holding or ending in the separator are covered by `TargetsMeetOnText` only.
- TypeText.RoundTripExactly: case folding is that of ASCII.
- Operation timestamps, JSON bodies and the wording of errors.
- The column walks of the lineage graph with their first edges, its subgraphs and one-hop queries by kind.
- NATURAL and USING joins, nested joins, lateral and correlated derived tables, WITH RECURSIVE and alias column lists.
- Models whose statements are not a single query keep no compiled query; their diagnostics are not modelled.
- Contract validation, generated tests, reports, planning, running, promotion and adapters.
- Git, file discovery, configuration files, the command line and HTTP handlers.
