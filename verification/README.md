# Verified model of the Spice toolchain

A Dafny model of the compiler core of the Spice toolchain, with proofs of the properties its code and documentation
promise. `dafny verify dfyconfig.toml` checks the whole project.

## What is modelled

- **Dependency graph** (`TypeIndex`, `Selection`, `Wiring`, `DependencyGraph`, `Tarjan`, `CycleWitness`, `SymbolLists`,
  `ReadyQueue`, `ConstructionOrder`, `GraphBuild`): the type index, candidate selection, edges, strongly connected components, the
  printed cycle witness and the construction order over a binary heap. `LeastOrder` states the order without any algorithm;
  `CatalogIndependence` shows that the catalog's numbering does not matter; `PolicyOrder` is the second, independent topological sort.
- **From graph to code** (`InputRendering`, `ConstructorRendering`, `Declarations`, `ApplicationRendering`, `Identifiers`, `Naming`,
  `Decorator`, `DecoratorChoices`, `DecoratorRuns`):
  generated code is a list of statements with the variables they declare and use, and, for method decorators, a list of
  assignments of function literals that an interpreter runs against every behaviour of the runtime.
- **Guarded module-file changes** (`ModuleFiles`, `ModuleInstall`, `TextLines`, `UnifiedDiff`, `Decimal`): a directory as a map in
  which every operation may fault, with a record of the directory after every operation; the diff printer against an independent
  reader and applier of unified diffs.
- **OpenAPI** (`OpenApi`, `OpenApiShapes`, `OpenApiDocument`, `OpenApiOperations`): the schema builder over cyclic named types, the
  document around it, and what schemas and operations say.
- **Annotation tool client** (`AnnotationClient`) and **target identifiers** (`TargetId`).

`Catalog`, `Digraph`, `Sorting`, `StringOrder` and `StringLists` hold the records, graph theory, sorting and string order the others
share.

## Results that differ from expectation

- The type index is not a linear scan by type identity for every request. Type printing keeps alias names, so an alias inside a type
  argument, struct or signature gives identical types different keys. `TypeIndex.LookupIsTheScan` says for which requests and
  catalogs it is one, `TypeIndex.LookupIsTheScanIffSpineClosed` for which requests it is one in every catalog, and
  `TypeIndex.AliasInTypeArgumentIsMissed` is an instance of a miss.
- Provider variables can coincide (`Naming.SharedVariable`); `Naming.VariablesDistinctIff` is the exact condition on the final bases.
- Provider variables can take a reserved name (`Naming.ReservedVariable`); `Naming.ReservedIff` is the exact condition.
- A generated body can declare a name twice (`Declarations.CleanupMeets`); `Declarations.DeclaredOnceIff` is the exact condition.
- A struct schema can list a required name twice (`OpenApi.RequiredNameTwice`); `OpenApi.RequiredIsUniqueIff` is the condition.
- Operation identifiers can coincide (`OpenApiDocument.OperationIdsCanClash`); `OpenApiDocument.OperationIdsUniqueIff` is the condition.
- `Client.Close` is documented to terminate the process always; `AnnotationClient.Client.Close` states exactly when it does not.
- Cleanup of backups can fail after every file is installed: `ModuleInstall.ApplyChanges` then reports incomplete cleanup and
  promises the after-images, not the initial directory.

## Assumptions

- Provider symbol identifiers are unique and non-empty, bean names are non-empty, and a provider's inputs are numbered 0 to n-1.
- Truncated SHA-256 suffixes are a parameter that tells apart the finitely many labels or symbols concerned.
- Random suffixes have sixteen characters, no existing file has a staging or backup name, and file names contain no newline.
- Policy services are unique per provider and singleton-scoped, and their managers are providers (`compiler/policy/policy.go:244-245`,
  `compiler/policy/policy.go:312-330`). A topic's provider depends on the providers of its listeners.
- `sort.Slice` and `sort.Strings` are represented by a stable insertion sort.
- Of the character classes and case mappings of package unicode only what they say of ASCII letters and digits is supposed.
- Strings are sequences of characters. Lower-casing is any mapping that lowers ASCII letters and keeps other ASCII.

## Model

| member | source | states |
|---|---|---|
| `Tarjan.StronglyConnected` | compiler/graph/build.go:674-735 | For every finite adjacency the search terminates with a partition of all nodes in which two nodes share a component iff each reaches the other; members and components ascend by the spelling of their symbols. |
| `Tarjan.SearchAll` | compiler/graph/build.go:719-730 | Visiting every unseen node in symbol order covers all nodes: the components found are the partition into mutual reachability classes. |
| `Tarjan.ComponentSearch.Open` | compiler/graph/build.go:686-689 | Giving a node its index and pushing it keeps the search invariant (low links witnessed by real paths, stack reaching later entries). |
| `Tarjan.ComponentSearch.Follow` | compiler/graph/build.go:690-699 | One neighbour more: unseen neighbours are visited, stacked ones bound the low link; low links of nodes seen before stay. |
| `Tarjan.ComponentSearch.Visit` | compiler/graph/build.go:685-717 | A visit finishes everything reachable from the node except through the stack, and terminates because the unseen nodes shrink. |
| `Tarjan.ComponentSearch.Close` | compiler/graph/build.go:700-716 | A node whose low link is its index closes exactly one component; any other node stays on the stack with a witness below it. |
| `Tarjan.ComponentSearch.Unstack` | compiler/graph/build.go:703-712 | Popping down to the node takes exactly the stack from it upwards. |
| `Tarjan.PushKeepsConsistent` | compiler/graph/build.go:686-689 | The search invariant survives pushing a node that all open nodes reach. |
| `Tarjan.CloseKeepsConsistent` | compiler/graph/build.go:700-702 | The invariant survives leaving a node that still reaches an earlier stacked one. |
| `Tarjan.PopKeepsConsistent` | compiler/graph/build.go:703-716 | The invariant survives popping a closed block, which adds it to the finished nodes. |
| `Tarjan.BlockIsComponent` | compiler/graph/build.go:700-716 | A block closed off from the rest of the stack is a whole mutual-reachability class. |
| `Tarjan.ProgressAfterVisit` | compiler/graph/build.go:691-695 | Taking the minimum of the low links carries the invariant over a recursive visit. |
| `Tarjan.PartitionPermuted` | compiler/graph/build.go:731-733 | Sorting the components does not disturb the partition. |
| `Tarjan.ComponentsSpelled` | compiler/graph/build.go:713-734 | With one identifier per node and no two the same, the first differing character puts each component's members, and the components by their first members, in ascending order. |
| `CycleWitness.CycleSearch.Search` | compiler/graph/build.go:766-793 | Depth-first search for a way back to the start: on success the path is a simple cycle, on failure path and visited set are restored and no way back exists; it terminates because the unvisited members shrink. |
| `CycleWitness.RepresentativeCycle` | compiler/graph/build.go:760-801 | In a cyclic component the result is a closed walk of real edges from the first member with no other repetition; the fallback is never taken. |
| `CycleWitness.WitnessIsCycle` | compiler/graph/build.go:760-801 | What the search returns for a cyclic component is a simple cycle of the graph. |
| `CycleWitness.LargeComponentHasWayBack` | compiler/graph/build.go:53-57 | In a component of two or more members there is, for every member, a simple cycle through it that stays inside the component. |
| `CycleWitness.CyclicIffCyclicComponent` | compiler/graph/build.go:53-57 | A graph has a cycle, self-loops included, iff some component has more than one member or a self-loop. |
| `LeastOrder.EmitIsSound` | compiler/graph/build.go:870-884 | Emitting the least ready identifier lists no duplicates and every dependency first. |
| `LeastOrder.CompleteIffAcyclic` | compiler/graph/build.go:846-886 | The emission is complete, and then a topological order, iff the dependency relation has no cycle. |
| `LeastOrder.EmitIsLeast` | compiler/graph/build.go:870-884 | Every other dependency-first listing of the same identifiers is lexicographically later. |
| `LeastOrder.EmitIsTheLeastTopologicalOrder` | compiler/graph/build.go:846-886 | For an acyclic relation the emission is the unique lexicographically least topological order. |
| `StringOrder.LessIffSpelledBefore` | compiler/graph/build.go:813-824 | One identifier is before another iff it ends, or has the smaller character, at the first place where they differ. |
| `LeastOrder.ReadyBySpelling` | compiler/graph/build.go:870-884 | Of two identifiers ready together, the one spelled before the other is emitted first. |
| `ReadyQueue.RootIsLeast` | compiler/graph/build.go:813-839 | In a heap no element belongs before the root. |
| `ReadyQueue.SiftDownStep` | compiler/graph/build.go:807-839 | Swapping a hole with its smaller child keeps the order everywhere but below the hole. |
| `ReadyQueue.SiftUpStep` | compiler/graph/build.go:807-839 | Swapping with a larger parent keeps the order everywhere but above the hole. |
| `ReadyQueue.Queue.Init` | compiler/graph/build.go:869 | Heap construction keeps the elements and establishes the heap order. |
| `ReadyQueue.Queue.Push` | compiler/graph/build.go:826-832 | Adds one element and keeps the heap order. |
| `ReadyQueue.Queue.Pop` | compiler/graph/build.go:834-839 | Removes one element that no queued element precedes, keeping the heap order. |
| `ReadyQueue.Queue.Down` | compiler/graph/build.go:807-839 | Restores the heap order below a position without touching elements outside the heap. |
| `ReadyQueue.Queue.Up` | compiler/graph/build.go:807-839 | Restores the heap order above a position. |
| `SymbolLists.SortedUnique` | compiler/graph/build.go:661-672 | The result is strictly ascending by symbol and has exactly the given elements. |
| `SymbolLists.AscendingIsUnique` | compiler/graph/build.go:661-672 | A set of indices has one ascending listing. |
| `ConstructionOrder.CountDependencies` | compiler/graph/build.go:847-857 | remaining counts each provider's dependencies and consumers lists exactly the reverse edges, ascending. |
| `ConstructionOrder.InitialReady` | compiler/graph/build.go:864-868 | The first queue content is exactly the providers without dependencies. |
| `ConstructionOrder.Serve` | compiler/graph/build.go:878-883 | After one emission remaining counts the unemitted dependencies again and the queue holds exactly the newly and still ready providers. |
| `ConstructionOrder.EmitOne` | compiler/graph/build.go:871-884 | One round emits the least ready provider and keeps the counting invariant. |
| `ConstructionOrder.ReadyIsZeroCount` | compiler/graph/build.go:878-883 | A zero counter means exactly that all dependencies have been emitted. |
| `ConstructionOrder.EmitNext` | compiler/graph/build.go:871-884 | The provider the heap yields is the one the mathematical order emits next. |
| `ConstructionOrder.Order` | compiler/graph/build.go:846-886 | The heap-based algorithm produces the least dependency-first order, as a sequence of identifiers; of two providers ready together, the first differing character of their identifiers decides which is constructed first. |
| `TypeIndex.BuildTypeIndex` | compiler/graph/build.go:486-500 | A provider is listed under a key iff one of its exposed types has that key; each list is ascending by symbol. |
| `TypeIndex.Exposes` | compiler/graph/build.go:502-520 | True iff some exposed type is identical to the request. |
| `TypeIndex.Lookup` | compiler/graph/build.go:502-520 | Returns, ascending and once each, the providers under the request's key that expose an identical type. |
| `TypeIndex.KeyAgreesIffSpineClosed` | compiler/graph/build.go:522-541 | All types identical to a type share its key iff its spine of arrays, slices, pointers, maps and channels ends only in printed types without component types. |
| `TypeIndex.LookupIsTheScan` | compiler/graph/build.go:484-541 | The index finds exactly what a linear scan by type identity finds: for a request whose spine is closed in every catalog, and for any other request when it and the identical types exposed are written without aliases inside printed types. |
| `TypeIndex.LookupIsTheScanIffSpineClosed` | compiler/graph/build.go:484-541 | A request agrees with the scan on every possible catalog iff its spine is closed: any other one misses an identical type in some catalog. |
| `TypeIndex.KeyOfPlain` | compiler/graph/build.go:522-541 | A type without aliases inside printed types has the key of its alias-free form. |
| `TypeIndex.AliasInTypeArgumentIsMissed` | compiler/provider/provider.go:2025-2035 | A bean of type Box[UserID], with UserID an alias of string and so not written plainly, is not found under Box[string]. |
| `TypeIndex.ChannelsPrintApart` | compiler/provider/provider.go:2025-2035 | Printed channel types show their direction by the arrow, whatever their element. |
| `Selection.FilterQualified` | compiler/graph/build.go:407-432 | Keeps exactly the candidates that answer to every qualifier, in order. |
| `Selection.PreferNonFallback` | compiler/graph/build.go:434-448 | The regular candidates, or all of them if there are none. |
| `Selection.SelectPrimary` | compiler/graph/build.go:450-464 | The primary candidates, or all of them if there are none. |
| `Selection.SelectByParameterName` | compiler/graph/build.go:466-482 | The candidates named like the parameter, or all of them if there are none. |
| `Selection.SelectedCandidates` | compiler/graph/build.go:245-262 | The candidates no other candidate outranks, by fallback, then primary, then parameter name. |
| `Selection.TiersAreRanks` | compiler/graph/build.go:245-262 | The three filters in a row pick the top of one ranking. |
| `Wiring.CollectionOrderIsStrictWeak` | compiler/graph/build.go:388-405 | The collection order is a strict weak order, so sorting by it is well defined; what it compares is CollectionOrderMeans. |
| `Wiring.CollectionOrderMeans` | compiler/graph/build.go:393-403 | In a collection order the earlier provider has the smaller declared order, on a tie the bean name spelled before, on a tie the symbol spelled before. |
| `Wiring.CollectionEdgesAscend` | compiler/graph/build.go:140-187 | The edges of a collection input are numbered 0, 1, ... and their providers ascend by declared order, bean name and symbol. |
| `Wiring.EdgesCarryTheInput` | compiler/graph/build.go:347-386 | Every edge of an input carries the input's parameter and name and the type asked for, and leads to a provider found for that type that answers to every qualifier. |
| `Wiring.OutcomeIsDecided` | compiler/graph/build.go:82-262 | An input never both resolves and fails; a failing one gives one diagnostic and no edge. |
| `DependencyGraph.OrderedCollectionCandidates` | compiler/graph/build.go:388-405 | Each candidate once, in collection order. |
| `DependencyGraph.DuplicateCandidateName` | compiler/graph/build.go:264-277 | The first bean name met a second time in the given order; none iff no two candidates share a name. |
| `DependencyGraph.FirstScopedCandidate` | compiler/graph/build.go:306-316 | The first non-singleton candidate in the given order, or none iff all are singletons. |
| `DependencyGraph.GraphBuilder.AppendEdge` | compiler/graph/build.go:347-386 | Appends exactly one edge and the matching adjacency entry. |
| `DependencyGraph.GraphBuilder.DependencyCandidates` | compiler/graph/build.go:116-138 | The candidates are the qualified matches of the collection type itself or, failing that, of its element type. |
| `DependencyGraph.GraphBuilder.ConnectSingle` | compiler/graph/build.go:189-243 | One edge to the single top-ranked candidate if it may be injected directly, none for an unmatched optional input, else exactly one diagnostic of the right kind. |
| `DependencyGraph.GraphBuilder.ConnectCollection` | compiler/graph/build.go:140-187 | Edges to all candidates in collection order with positions 0, 1, ...; or one diagnostic on the first repeated map name or, failing that, the first scoped candidate; the order is the one CollectionOrderMeans spells out. |
| `DependencyGraph.GraphBuilder.ConnectDependency` | compiler/graph/build.go:82-114 | Each input is treated by its effective kind. |
| `DependencyGraph.GraphBuilder.ConnectDependencies` | compiler/graph/build.go:63-80 | Whether or not inputs fail, every input of every provider has exactly the edges and the diagnostics of its own outcome, and nothing else leaves an edge or a diagnostic. |
| `DependencyGraph.ConnectedOneMore` | compiler/graph/build.go:63-80 | Connecting one input more records exactly its outcome and leaves the edges and diagnostics of all others as they were. |
| `DependencyGraph.EdgesForPermuted` | compiler/graph/build.go:31-46 | Sorting the edge list leaves the edges of each input the same. |
| `GraphBuild.DiagnosticsForSorted` | compiler/graph/build.go:53-58 | Adding cycle diagnostics and sorting leaves the diagnostics of each input the same. |
| `GraphBuild.CleanAdjacency` | compiler/graph/build.go:47-52 | Adjacency lists become duplicate-free and ascending, naming exactly the targets of the edges. |
| `GraphBuild.AdjacencyIsDependsOn` | compiler/graph/build.go:47-52 | The cleaned adjacency is the reported dependency relation. |
| `GraphBuild.CycleDiagnostic` | compiler/graph/build.go:737-758 | The diagnostic lists exactly the component in ascending order, is filed under its first member, and prints a real cycle through that member repeating no other provider. |
| `GraphBuild.CycleDiagnostics` | compiler/graph/build.go:53-57 | Cycle diagnostics and cyclic components correspond one to one: every provider on a cycle is listed, every list is one class of mutual dependency, and no two are filed under the same provider. |
| `GraphBuild.ReportedOnce` | compiler/graph/build.go:53-57 | A provider on a cycle is listed by exactly one cycle diagnostic. |
| `GraphBuild.MembersAreMutual` | compiler/graph/build.go:737-758 | A component listed by identifiers is a class of mutual dependency between identifiers, given that identifiers are unique. |
| `GraphBuild.CycleReportDecides` | compiler/graph/build.go:53-57 | There is a cycle diagnostic iff the dependency relation has a cycle. |
| `GraphBuild.SettledUnlessRejected` | compiler/graph/build.go:82-262 | In a finished build an input has a diagnostic iff it cannot be resolved. |
| `GraphBuild.FaultIffRejected` | compiler/graph/build.go:63-262 | A build has a wiring fault iff some input is rejected, and without one every input is resolved. |
| `GraphBuild.SortedIsInReportOrder` | compiler/graph/build.go:34-46 | Sorted edges ascend by consumer, then parameter, then position, then dependency, and sorted diagnostics by provider, then kind, names compared by spelling. |
| `GraphBuild.Build` | compiler/graph/build.go:19-61 | With or without faults: every input has exactly the edges and diagnostics of its outcome, no other edge or wiring diagnostic exists, every cyclic component of the recorded relation is reported once, and a cycle is reported iff that relation has one; without diagnostics the order is the least topological order of all providers; edges and diagnostics are listed in report order. |
| `CatalogIndependence.EdgesAreDeclared` | compiler/graph/build.go:63-262 | In every build, faulted or not, an edge joins two identifiers iff an acceptable input of the set of declared providers demands it. |
| `CatalogIndependence.AcceptedIffAcceptable` | compiler/graph/build.go:82-262 | Whether an input resolves depends on the set of declared providers only. |
| `CatalogIndependence.FaultedIffUnacceptable` | compiler/graph/build.go:82-262 | An input has a wiring diagnostic iff the set of declared providers does not meet its requirement. |
| `CatalogIndependence.WiringFaultIffUnacceptable` | compiler/graph/build.go:82-262 | The build reports a wiring fault iff that set contains an unresolvable input. |
| `CatalogIndependence.BuildIgnoresNumbering` | compiler/graph/build.go:19-61 | Permuting or renumbering a catalog, faulted or not, changes neither which inputs are faulted, nor the dependency relation, nor whether it has a cycle, nor the emitted identifier sequence. |
| `PolicyOrder.CountAll` | compiler/application/application.go:577-604 | Adjacency and indegree represent exactly the graph edges plus the manager-before-service edges, duplicates counted once. |
| `PolicyOrder.AddRepresents` | compiler/application/application.go:584-596 | Adding one edge keeps the maps in step with the relation, also when the edge is there already or an identifier is empty. |
| `PolicyOrder.InitialReady` | compiler/application/application.go:605-611 | The ready list is the sorted list of nodes without dependencies. |
| `PolicyOrder.Serve` | compiler/application/application.go:617-628 | Serving a node's consumers keeps the counts and the sorted ready list exact. |
| `PolicyOrder.EmitAll` | compiler/application/application.go:613-629 | The loop emits the least order of the enlarged relation. |
| `PolicyOrder.Blame` | compiler/application/application.go:633-652 | The diagnostic names the first transactional method of the first blocked managed service. |
| `PolicyOrder.OrderProvidersForPolicies` | compiler/application/application.go:569-659 | Untouched without policies; otherwise the least order of the enlarged relation when it is complete, else a diagnostic. |
| `PolicyOrder.ReorderedIsLeastOrder` | compiler/application/application.go:569-659 | A diagnostic iff graph edges plus manager edges contain a cycle, else the catalog's own records in the least topological order of that relation. |
| `PolicyOrder.ManagersKeepTheOrderIff` | compiler/application/application.go:569-659 | Two algorithms, one order: the construction order stays as it was iff it has every manager before its services already. |
| `PolicyOrder.LeastOfMore` | compiler/application/application.go:613-629 | A least order that respects further dependencies is the least order of all of them. |
| `PolicyOrder.RedundantManagersKeepTheOrder` | compiler/application/application.go:569-659 | In particular managers that add no new dependency leave the list as it was. |
| `PolicyOrder.BuildThenReorder` | compiler/application/application.go:427-431 | After a diagnostic-free build all this holds of the heap-based construction order. |
| `ModuleFiles.GeneratedNamesDiffer` | compiler/annotationinstall/install.go:799-803 | Staging and backup names of different files, with suffixes of one length, never coincide. |
| `ModuleFiles.GeneratedNamesCarry` | compiler/annotationinstall/install.go:799-803 | A staging or backup name is hidden, begins with its file's name and ends with its suffix. |
| `ModuleInstall.Root.CreateExclusive` | compiler/annotationinstall/install.go:808-812 | Creates an empty file iff no operation fault occurs and the name is free. |
| `ModuleInstall.Root.WriteAll` | compiler/annotationinstall/install.go:820-822 | A failing write leaves some prefix of the content. |
| `ModuleInstall.Root.Rename` | compiler/annotationinstall/install.go:847-850 | Moves one name to another, or changes nothing. |
| `ModuleInstall.Root.RemoveIfExists` | compiler/annotationinstall/install.go:943-952 | A missing file and the empty name are no errors. |
| `ModuleInstall.StageChange` | compiler/annotationinstall/install.go:791-832 | Only the change's own names move; on success its after-content is staged, on failure without a second fault the staging file is gone; the original is readable at every step. |
| `ModuleInstall.BackupChange` | compiler/annotationinstall/install.go:834-870 | The original is at its backup and matches the preview, or nothing is lost and the cause is exact: a stale preview iff nothing faulted and the file was changed or created since, a failed backup iff an operation faulted or the file is gone. |
| `ModuleInstall.InstallChange` | compiler/annotationinstall/install.go:872-890 | Moves the staged file into place, or only marks a deletion. |
| `ModuleInstall.RollbackItem` | compiler/annotationinstall/install.go:895-912 | Without faults the change's names are as before it; with faults the original is still at its name or at the backup. |
| `ModuleInstall.RollbackChanges` | compiler/annotationinstall/install.go:892-915 | Without faults the directory is exactly the initial one; with faults no original is lost at any step. |
| `ModuleInstall.CleanupStaged` | compiler/annotationinstall/install.go:917-928 | After a failed staging, removing staged files restores the initial directory unless an operation faults. |
| `ModuleInstall.RemoveBackup` | compiler/annotationinstall/install.go:932-940 | Removing one backup leaves every after-image in place. |
| `ModuleInstall.CleanupBackups` | compiler/annotationinstall/install.go:930-941 | From the first removal on every changed name holds its after-image; without faults nothing else is left. |
| `ModuleInstall.StageAll` | compiler/annotationinstall/install.go:764-774 | The first loop of applyChanges: all staged, or stopped with the staged prefix on record. |
| `ModuleInstall.BackupAll` | compiler/annotationinstall/install.go:771-779 | The second loop: every original is at its backup and matched the preview, or the run stops with the cause of a fault or of the first mismatch. |
| `ModuleInstall.InstallAll` | compiler/annotationinstall/install.go:780-787 | The third loop: every after-image is in place, or the run stops. |
| `ModuleInstall.ApplyChanges` | compiler/annotationinstall/install.go:759-789 | Success leaves exactly the after-images; a failed run whose undoing does not fault restores the exact initial directory; up to the start of cleanup no original is lost and after it every after-image stands; every failure has a stated reason, so an undisturbed run succeeds iff the preview still matches; undisturbed, the first file that differs from the preview makes the run end with a stale preview, or with a failed backup if it is gone. |
| `ModuleInstall.ExplainedUndisturbed` | compiler/annotationinstall/install.go:834-870 | Without faults, cancellation or a missing suffix only a mismatch can end a run, and whether the first mismatching file is gone decides the cause. |
| `ModuleInstall.PlansFollowNonces` | compiler/annotationinstall/install.go:791-803 | The i-th change uses the i-th random suffix. |
| `ModuleInstall.DistinctNamesAreFresh` | compiler/annotationinstall/install.go:799-803 | Distinct file names and suffixes of one length that are new in the directory meet every demand of ApplyChanges. |
| `TextLines.SplitLines` | compiler/annotationinstall/install.go:1042-1057 | The pieces concatenate to the content, each has at most one newline and that at its end, and only the last may lack it. |
| `TextLines.SplittingIsUnique` | compiler/annotationinstall/install.go:1042-1057 | There is only one such cutting. |
| `TextLines.LinesAppend` | compiler/annotationinstall/install.go:1042-1057 | Whole lines in front do not change how the rest is cut. |
| `TextLines.CommonPrefix` | compiler/annotationinstall/install.go:1059-1066 | The longest common prefix. |
| `TextLines.CommonSuffix` | compiler/annotationinstall/install.go:1068-1076 | The longest common suffix. |
| `UnifiedDiff.CommonEnds` | compiler/annotationinstall/install.go:994-997 | Prefix and suffix never overlap and cannot be extended. |
| `UnifiedDiff.UnifiedRangeStart` | compiler/annotationinstall/install.go:1035-1040 | The printed start denotes the position after the common prefix, for empty ranges too. |
| `UnifiedDiff.HeaderReadsBack` | compiler/annotationinstall/install.go:1008-1015 | The printed hunk header reads back as its four numbers. |
| `UnifiedDiff.BodyReadsBack` | compiler/annotationinstall/install.go:1016-1031 | The printed -/+ lines with their no-newline markers read back as the removed and added lines, whatever follows. |
| `UnifiedDiff.UnifiedFileDiff` | compiler/annotationinstall/install.go:991-1033 | The text reads as one patch that turns the before-content into the after-content and, reversed, back; it names /dev/null for missing sides and shares no first or last line between the sides. |
| `UnifiedDiff.PatchApplies` | compiler/annotationinstall/install.go:991-1033 | A hunk made of the differing middle applies in both directions. |
| `UnifiedDiff.ModuleDiff` | compiler/annotationinstall/install.go:979-989 | The whole diff reads back as one faithful patch for every change, in name order. |
| `OpenApi.ComponentNamesAreDistinct` | compiler/generate/openapi.go:424-433 | Component names of different types differ, consist of legal key characters and are never SpiceProblem. |
| `OpenApi.Builder.Schema` | compiler/generate/openapi.go:320-347 | Returns the structural schema of the type and adds only components reachable from it, terminating on cyclic types. |
| `OpenApi.Builder.NamedSchema` | compiler/generate/openapi.go:349-362 | The placeholder is replaced before return: every finished component has its type's structure. |
| `OpenApi.Builder.StructSchema` | compiler/generate/openapi.go:364-385 | Properties and sorted required names of the exported JSON fields, the last field of a name winning. |
| `OpenApiShapes.StructShape` | compiler/generate/openapi.go:364-385 | A struct is an object with a property for every JSON name, showing the last field of that name; its required names, ascending, are those of fields that are never omitted. |
| `OpenApiShapes.FieldInJson` | compiler/generate/openapi.go:402-422 | A field is named by its tag or, failing that, by itself; it is left out when unexported or tagged -, and required unless omitempty or omitzero is among its options. |
| `OpenApiShapes.WrapperShapes` | compiler/generate/openapi.go:320-347 | Slices and arrays are arrays of their element, maps objects of theirs, pointers their target or null, and aliases their target. |
| `OpenApiShapes.BasicShapes` | compiler/generate/openapi.go:387-400 | Basic types by kind; an integer is int32 iff it has 8, 16 or 32 bits and int64 otherwise. |
| `OpenApiShapes.NamedShapes` | compiler/generate/openapi.go:349-362 | Times and durations are formatted strings; every other named type is a reference made of its name and hash. |
| `OpenApiShapes.NameSanitized` | compiler/generate/openapi.go:424-428 | Letters, digits and underscores of a type's name stay and every run of other characters becomes one underscore. |
| `OpenApi.RequiredIsUniqueIff` | compiler/generate/openapi.go:364-385 | The required names of a struct schema are unique iff no two required exported fields share a JSON name. |
| `OpenApi.RequiredNameTwice` | compiler/generate/openapi.go:364-385 | Two exported fields tagged with one JSON name: the schema lists it as required twice. |
| `OpenApi.ReachableIsInside` | compiler/generate/openapi.go:320-362 | A set of types that mentions nothing outside itself contains everything reachable from it. |
| `OpenApiDocument.ReadBindings` | compiler/generate/openapi.go:192-226 | Sorts bindings into parameters, form fields and a JSON body. |
| `OpenApiDocument.BuildOperation` | compiler/generate/openapi.go:164-265 | The operation described by the route alone, with every component its types need. |
| `OpenApiOperations.OperationAnswers` | compiler/generate/openapi.go:164-265 | The status codes of every route are those of its kind, the two refusals iff it is guarded, and a problem by default unless its handler is raw, each with its content. |
| `OpenApiOperations.FormIsBody` | compiler/generate/openapi.go:199-250 | As soon as one input is a form field the body is a form: a property for every field, the last of a name winning, required iff some field is. |
| `OpenApiOperations.ParameterShapes` | compiler/generate/openapi.go:267-293 | A parameter's schema by its scalar kind; an integer is int32 iff the type behind it, through aliases and one name, has 8, 16 or 32 bits. |
| `OpenApiOperations.ProblemMembers` | compiler/generate/openapi.go:306-318 | The problem schema has the five members of section 3.1 of RFC 9457, the first three required. |
| `OpenApiOperations.IdentifiersSpelled` | compiler/generate/openapi.go:119-143 | An operation is called by controller and route, followed by its symbol's hash iff another route has the same name. |
| `OpenApiDocument.ShapeResolves` | compiler/generate/openapi.go:320-385 | Every reference of a structural schema names a component of a mentioned type. |
| `OpenApiDocument.RenderOpenApi` | compiler/generate/openapi.go:105-162 | The components are SpiceProblem plus exactly the named types reachable from the routes, each with its own structure; each path and method holds the last route that claims it; every reference resolves; bearer security iff a route is protected. |
| `OpenApiDocument.ComponentsIgnoreOrder` | compiler/generate/openapi.go:127-150 | The same routes in any order give the same components. |
| `OpenApiDocument.ComponentsAreDetermined` | compiler/generate/openapi.go:320-362 | The reachable types determine the component map. |
| `OpenApiDocument.OperationIdsUniqueIff` | compiler/generate/openapi.go:119-143 | Operation identifiers are unique iff no name used once spells out what a repeated name becomes. |
| `OpenApiDocument.OperationIdsCanClash` | compiler/generate/openapi.go:119-143 | Three routes on which two identifiers coincide. |
| `InputRendering.ProviderArguments` | compiler/generate/dependency_render.go:333-386 | The arguments of one provider, or a fault iff some input lacks an edge or names an unknown provider. |
| `InputRendering.DependencyVariables` | compiler/generate/dependency_render.go:314-386 | All arguments, or a fault iff some input cannot be written. |
| `InputRendering.ResolvedInputPasses` | compiler/generate/dependency_render.go:341-386 | In a diagnostic-free graph neither fault can occur, and each argument passes the variables of the providers the wiring rules choose, in collection order with distinct map keys; non-singletons only as providers. |
| `InputRendering.ArgumentDeterminesProviders` | compiler/generate/dependency_render.go:341-386 | When different providers have different variables, an argument determines its providers, and they are exactly the chosen ones in the chosen order. |
| `InputRendering.SelectedAreResolved` | compiler/generate/dependency_render.go:353-355 | Sorting an input's edges by position restores the wiring order. |
| `InputRendering.SortedPositionsAreUnique` | compiler/generate/dependency_render.go:353-355 | Positions 0, 1, ... determine the sorted list. |
| `ConstructorRendering.WriteProviders` | compiler/generate/provider_render.go:16-148 | Writes the providers in order, with a fault iff some provider lacks metadata; otherwise the source falls into one part for every provider that serves it, and no variable is left unused. |
| `ConstructorRendering.WriteProvider` | compiler/generate/provider_render.go:34-146 | A fault iff the provider lacks its adapter, configuration, topic or a listener's variable; otherwise its value is made exactly once from its own arguments, a constructed one followed at once by the registration of its cleanup, decorated exactly once if it has a policy service, and every declared variable is used. |
| `ConstructorRendering.NoFaultIff` | compiler/generate/provider_render.go:34-146 | A provider can be written iff it has what its scope and source call for: adapter, configuration type, topic with a variable for every listener. |
| `ConstructorRendering.BlockServes` | compiler/generate/provider_render.go:34-326 | A provider's statements make its value once, register the cleanup of what they construct, decorate it once if it has a service, and leave no variable unused. |
| `ConstructorRendering.BodyServes` | compiler/generate/provider_render.go:34-146 | The whole body falls into such parts, one for every provider in order, and leaves no variable unused. |
| `ConstructorRendering.WriteEventProvider` | compiler/generate/provider_render.go:336-396 | A topic gives its block over every listener's receiver, or the first unknown listener; what the block uses and declares is BlockScoped. |
| `ConstructorRendering.BlockScoped` | compiler/generate/provider_render.go:162-326 | A block uses only parameters, variables of other providers it needs and its own, and declares both variables of its provider. |
| `ConstructorRendering.BodyScoped` | compiler/generate/provider_render.go:34-146 | Blocks in dependency order form a well-scoped body. |
| `ApplicationRendering.TargetProviderVariables` | compiler/generate/generate.go:925-937 | Every provider gets its variable. |
| `ApplicationRendering.PolicyExposureVariables` | compiler/generate/policy_render.go:82-112 | Decorated providers are exposed under variables that are fresh, pairwise different and built from their own; all others keep their variable. |
| `ApplicationRendering.OrderIsListing` | compiler/application/application.go:427-431 | The final provider list is the catalog with dependencies and managers first. |
| `ApplicationRendering.BodyRenders` | compiler/generate/provider_render.go:34-146 | For such a list no writer faults and every variable used was declared by an earlier statement. |
| `ApplicationRendering.RenderOrdered` | compiler/generate/generate.go:692-727 | Naming, wiring and writing an ordered list always succeeds. |
| `ApplicationRendering.ExposedDiffer` | compiler/generate/policy_render.go:82-112 | Distinct provider variables stay distinct when decorated providers are exposed under fresh ones. |
| `ApplicationRendering.RenderConstructor` | compiler/generate/generate.go:692-727 | From a diagnostic-free graph: a policy diagnostic iff the enlarged relation has a cycle, else a well-scoped constructor body under the variables of providerVariableNames in which each argument passes what its input is wired to. Unless one final base shadows another, an argument determines exactly the chosen providers, and no name is declared twice iff no provider's variable is another one's followed by the Cleanup, Factory, Scope or Topic that one declares; each provider is made exactly once from its own arguments, with its cleanup registered right after construction, and no variable is left unused. |
| `Declarations.BlockOnce` | compiler/generate/provider_render.go:34-146 | A block declares exactly its provider's variables and its helper variables. |
| `Declarations.DeclaredOnceIff` | compiler/generate/provider_render.go:162-396 | No name is declared twice in the body iff every provider has variables of its own and none of them is the name of a helper variable. |
| `Declarations.OnlyItsOwnBlock` | compiler/generate/provider_render.go:34-146 | When nothing is declared twice, a provider's variables are declared by its own block and by no other. |
| `Declarations.CleanupMeets` | compiler/generate/provider_render.go:202-233 | Beans with variables foo and fooCleanup: the body declares fooCleanup twice. |
| `Decorator.WriteDecoratedMethodBody` | compiler/generate/policy_render.go:502-596 | Each emitted literal's next variable stands for exactly the layers below it. |
| `Decorator.KeysAgree` | compiler/generate/policy_render.go:614-640 | Calls share a cache key iff all arguments but the context are equal. |
| `Decorator.TransactionLayer` | compiler/generate/policy_render.go:525-541 | Observers begin in order, one transaction holds one call, observers finish in reverse with the transaction's outcome. |
| `Decorator.AttemptsLayer` | compiler/generate/policy_render.go:542-562 | Numbered attempts, each with a transaction of its own, and only a failed one is followed by another. |
| `Decorator.CacheLayer` | compiler/generate/policy_render.go:563-574 | A look-up first; a hit or a read failure ends the run; a store comes last, after a miss and success. |
| `Decorator.AuthorizationLayer` | compiler/generate/policy_render.go:575-580 | Permission is asked before the layers below, and what is recorded is what the authorizer answered at that moment. |
| `Decorator.ObservationLayer` | compiler/generate/policy_render.go:581-594 | The whole emitted body, run from the outermost literal, has the documented shape. |
| `DecoratorRuns.RunsAsDocumented` | compiler/generate/policy_render.go:502-596 | For every subset of the policies and every behaviour of the runtime, a run of the emitted statements terminates without calling an unset variable, has that shape and records at every moment what the runtime chose; it ends as denied iff the authorizer refuses when asked. |
| `DecoratorChoices.RunObeys` | compiler/generate/policy_render.go:502-596 | Every event of a run is the runtime's choice at that moment: permission, look-up, begin, target value and outcome, commit, store; another attempt follows a failed one iff one is left and the policy says so, and the cache afterwards is exactly what was stored. |
| `DecoratorChoices.AttemptsObey` | compiler/generate/policy_render.go:542-562 | A failed attempt that is not the last and that the policy accepts is always followed by the next, or found cancelled; no other is. |
| `DecoratorChoices.LookUpObeys` | compiler/generate/policy_render.go:563-574 | The look-up answers from the cache as it is, unreadable, hit, expired or missing; a store after it replaces one entry. |
| `DecoratorChoices.TransactsObeys` | compiler/generate/policy_render.go:525-541 | A transaction is committed iff its call succeeded and the commit does. |
| `DecoratorRuns.ObservationEncloses` | README.md:155-158 | Observation begins before and ends after everything else, with the run's own outcome. |
| `DecoratorRuns.DenialComesFirst` | README.md:155-158 | Permission is asked once, before anything but observation; the run ends as denied iff permission is refused, and then nothing else happens. |
| `DecoratorRuns.HitRunsNothing` | README.md:155-158 | A cache hit runs no attempt, transaction or target, stores nothing and succeeds. |
| `DecoratorRuns.StoreFollowsSuccess` | compiler/generate/policy_render.go:563-574 | A store follows a miss on the same key and holds what the target last returned. |
| `DecoratorRuns.EachCallHasItsTransaction` | README.md:155-158 | Every target call is directly inside its own transaction, and there are at most as many as attempts allowed. |
| `DecoratorRuns.HitsRepeatTheTarget` | compiler/generate/policy_render.go:563-574 | After any sequence of calls, every hit returned a value the target had returned earlier for the same cached arguments. |
| `DecoratorRuns.OverlappingHitsRepeatTheTarget` | compiler/generate/policy_render.go:563-574 | The same for calls that overlap in time on one cache, in every interleaving and with entries disappearing at any moment. |
| `DecoratorRuns.RunStaysGrounded` | compiler/generate/policy_render.go:563-574 | One run keeps every cache entry backed by an earlier successful call. |
| `DecoratorRuns.ObserversFinishInReverse` | compiler/generate/policy_render.go:267-294 | Transaction observers that gave a finisher finish once each, last first. |
| `Naming.FreshName` | compiler/generate/dependency_render.go:148-160 | The suffix search terminates at the first candidate not in use. |
| `Naming.FreshIsUnique` | compiler/generate/dependency_render.go:148-160 | There is one such candidate. |
| `Naming.FixedAreOwned` | compiler/generate/dependency_render.go:42-91 | Fixed aliases are reserved words, each belonging to one path. |
| `Naming.ImportAliases` | compiler/generate/dependency_render.go:33-163 | All aliases are pairwise different, fixed ones are kept, no other alias is a reserved word, and every package takes its first candidate that is neither reserved nor taken by a smaller path. |
| `Naming.ProviderVariableNames` | compiler/generate/naming.go:15-38 | Every provider's variable is its final base, numbered from the second use on, the bases computed from bean, symbol, output and package names. |
| `Naming.ConstructorNamesItsProduct` | compiler/generate/naming.go:47-67 | An implicit bean is named by what follows the New of its constructor, or by its output type if nothing follows; every other name stays. |
| `Naming.ConstructorVariable` | compiler/generate/naming.go:40-97 | Thus a constructor New followed by any word gives that word with its leading capitals lowered, unless the result is taken. |
| `Naming.QualifiedIffShared` | compiler/generate/naming.go:24-30 | A base is qualified by its package iff another provider has the same base. |
| `Naming.UsesAreNumbered` | compiler/generate/naming.go:31-35 | The first use of a base is the base itself; any later one carries one more than the number of uses before it. |
| `Naming.VariablesAreIdentifiers` | compiler/generate/naming.go:15-38 | Every provider variable is a Go identifier, whatever the names. |
| `Naming.ReservedIff` | compiler/generate/naming.go:15-38 | Some variable takes a reserved name iff a repeated bean and its package are one of four pairs: configuration and Schema or Snapshot, http and Observers, management and Metrics. |
| `Naming.ReservedVariable` | compiler/generate/naming.go:134-173 | Two different beans, implicitly named after Schema in packages a/configuration and b/configuration: one takes the reserved configurationSchema. |
| `Naming.VariablesDistinctIff` | compiler/generate/naming.go:15-38 | Variables are pairwise different iff no final base is another one followed by a number that one's count reaches (or by the 1 of such a number). |
| `Naming.UndigitedBasesAreDistinct` | compiler/generate/naming.go:15-38 | In particular when no final base ends in a digit. |
| `Naming.SharedVariable` | compiler/generate/naming.go:15-38 | Three different beans, implicitly named after Foo in a/p, Foo in b/p and PFoo2, of which two share the variable pFoo2. |
| `Identifiers.NormalizeGeneratedIdentifier` | compiler/generate/naming.go:109-132 | Keeps an identifier, else joins its words in camel case, else falls back. |
| `Identifiers.SeparatorStartsWord` | compiler/generate/naming.go:109-132 | What follows a separator is joined as a word of its own with its first letter in upper case. |
| `Identifiers.LowerGeneratedInitialism` | compiler/generate/naming.go:81-97 | Lowers the leading run of capitals except the one that begins the next word. |
| `Identifiers.InitialismLowered` | compiler/generate/naming.go:81-97 | For every first character, capitals and remainder: the first character and the capitals are lowered and a capitalized word behind them stays. |
| `Identifiers.LocalOfName` | compiler/generate/naming.go:69-79 | An identifier becomes its lowered form; with Bean behind it if that is reserved, the fallback if that is none. |
| `Identifiers.ExportedOfName` | compiler/generate/naming.go:99-107 | An exported identifier is the name with its first character in upper case. |
| `Identifiers.LocalIsIdentifier` | compiler/generate/naming.go:69-79 | A local identifier is always an identifier and never a reserved name. |
| `Identifiers.ExportedIsIdentifier` | compiler/generate/naming.go:99-107 | An exported identifier is an identifier that begins with an upper-case letter. |
| `AnnotationClient.Client.Call` | compiler/annotationhost/client.go:313-391 | The reply read is the tool's next message; success needs version 2.0 and the request's own number; any transport, framing, identity or decoding failure closes the client and terminates the tool. |
| `AnnotationClient.Client.AbortLocked` | compiler/annotationhost/client.go:452-472 | Closes and terminates once; nothing afterwards. |
| `AnnotationClient.Client.Finish` | compiler/annotationhost/client.go:418-450 | The client is closed and the tool gone, whether it exits in time or is aborted. |
| `AnnotationClient.Client.Close` | compiler/annotationhost/client.go:224-241 | The tool is left running iff there is no context, or the request is written and answered in time and the reply is an error of the tool's own, contrary to the method's comment. |
| `AnnotationClient.RefusedShutdown` | compiler/annotationhost/client.go:224-241 | A tool on which Close leaves the process running. |
| `AnnotationClient.Client.Start` | compiler/annotationhost/client.go:152-157 | The handshake succeeds with two answered calls, else the client is closed. |
| `AnnotationClient.NumbersIncreaseIff` | compiler/annotationhost/client.go:336-342 | Request numbers strictly increase iff fewer than 2^64 requests were made. |
| `AnnotationClient.SuccessReadItsOwnReply` | compiler/annotationhost/client.go:365-390 | In every history the i-th successful call read the i-th message, which bore its own number. |
| `AnnotationClient.VerdictsMean` | compiler/annotationhost/client.go:365-391 | A reply under a foreign number or version is always fatal; an error of the tool's own in a reply to this request never is, whatever its result; success needs neither error nor decoding failure. |
| `TargetId.Default` | compiler/targetid/targetid.go:14-33 | The byte loop computes the identifier function the lemmas are about. |
| `TargetId.DefaultIsTargetId` | compiler/targetid/targetid.go:11-33 | A lower-case letter first, then letters, digits and single underscores, none at the end. |
| `TargetId.DefaultIsIdempotent` | compiler/targetid/targetid.go:14-33 | Applying it twice changes nothing. |
| `TargetId.DefaultKeepsAlphanumerics` | compiler/targetid/targetid.go:14-33 | The letters and digits from the first letter on are kept in order; without any the result is application. |
| `TargetId.WordsAreJoined` | compiler/targetid/targetid.go:14-33 | The identifier is the name's words of letters and digits joined by single underscores, whatever stands between, before or after them; digits before the first letter are dropped. |
| `TargetId.BaseIsLastElement` | compiler/load/entrypoint.go:230-235 | The last element of a path is what stands behind its last slash, trailing slashes aside. |
| `TargetId.NameCapitalizes` | compiler/application/application.go:1316-1329 | An application is named after its path's last element, with a capital in front where that begins with a letter. |
| `TargetId.PhasesAgree` | compiler/load/entrypoint.go:225-235 | Generation, from the application's name, and the entrypoint pass, from the package path, derive the same identifier for every path. |

## Left out

- TypeIndex.Lookup: finds what the printed key finds, which is less than type identity where aliases are printed inside a type.
- AnnotationClient.Client.Close: does not promise termination of the process, because the code returns early on a call error.
- ModuleInstall.CleanupBackups: promises no recovery for faults during cleanup, because the code has none.
- DependencyGraph.GraphBuilder.ConnectSingle: does not model message text and source positions of diagnostics.
- GraphBuild.Build: diagnostics are ordered by provider and kind only; the further tie-breaks by message and position are not modelled.
- Naming.ProviderVariableNames: the name of a bean's constructor and output type and the last element of its package path are inputs.
- Identifiers.NormalizeGeneratedIdentifier: names are sequences of characters; invalid UTF-8 is not modelled.
- ConstructorRendering.WriteProviders: package aliases, types and the error variable are not part of the statements.
- ModuleInstall.ApplyChanges: no other process writes to the directory between two steps, so what a backup captures is what was
  there when the changes began (which may differ from the preview).
- ModuleInstall.StageChange: file modes, syncing and closing are one operation with the write.
- AnnotationClient.Client.Call: calls are taken in the order of the client's lock; a leftover reader is queued ahead of later readers.
- Decorator.WriteDecoratedMethodBody: contexts and the wording of wrapped errors are not modelled.
- Decorator.CacheLayer: runs one call by itself; overlapping calls are modelled by their events only (`DecoratorRuns.Interleaves`).
- The retry runner, transaction manager, cache and observation helpers are runtime packages, taken as small operations: retry stops at
  the first success, a failing body rolls back, observers do not fail.
- OpenAPI: JSON text, tags, module and authorization extensions, and enumeration of controllers.
- Process launch, go list, go get and package loading, directory walks and containment calls.
- Exact Go text, gofmt and parsing of generated code.
- Annotation descriptors, controller, configuration, lifecycle and scheduling validation; manifests, hashing and defensive copies.
