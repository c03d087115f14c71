# Pointer analysis and slicing, verified

A Dafny model of the two inclusion-based pointer analyses of this repository and of the program
slicer that uses them.  `dafny verify dfyconfig.toml` checks everything.

An analysis turns a program into constraints, may rewrite these, and solves them.  The
specification all of it is measured against is the least solution of a constraint list
(`Constraints.dfy`, `FieldConstraints.dfy`), relative to the nodes that have been merged.  The main
results, each for every input:

* **Solving.**  The two-worklist solver terminates and computes exactly the least solution, with
  lazy cycle detection on or off, although its graph grows and nodes are merged while it runs
  (`Solving.Andersen.SolveConstraints`).  The field-sensitive solver does the same with difference
  propagation, visit times and a priority worklist, while it merges cycles in mid-search and
  collapses what pointers on offline cycles point to.  Collapsing relies on more than the
  constraints; a points-to graph that has it too is called tame, or steady if it has it whatever is
  merged (`FieldTasks.Tame`, `FieldTasks.Steady`).  The result is the least tame graph, and the least
  solution if and only if that is tame (`FieldSolver.Anders.Solve`, `FieldResults.ExactIff`); for
  targets found on offline cycles it is, if pointers that are stored through point to objects
  (`FieldOffline.CyclesAreExact`).
* **Cycle search.**  Nuutila's algorithm reports exactly the strongly connected components, each
  once and after those it reaches, while its call-backs merge nodes under it
  (`CycleDetectors.CycleDetector.RunOnGraph`); four detectors are proved to be lawful clients.
* **Optimizing.**  HVN and HU rewriting keep the least solution up to the merges for every list,
  and the original one at every node if nothing that points somewhere is stored through an empty
  pointer (`ConstraintOptimize.ConstraintOptimizer.Run`).  Offline hybrid cycle detection, load/store
  factoring and renumbering keep it too (`OfflineCycles.OfflineMergesAreExact`,
  `FactorLs.Factorer.FactorLs`, `Renumbering.NodeTable.ClumpAddrTaken`).
* **Programs.**  The constraints of a program ask for what is written out for its instructions and
  for nothing else (`Inclusions.SolvesIsMeant`).  What the whole pipeline computes covers every state
  of every run of a small IR, and is the least that has what the program asks for
  (`AndersenPass.Analyze`).
* **Data structures.**  The indexed heap and its worklist, union-find by rank in one field, the
  sparse bitmap with its cursor, and the cache of expanded BDDs refine their abstract types.
* **Slicing.**  Control dependence read off the post-dominator tree, and the two-phase slice, are
  exactly what their definitions say.

## Where code and comments differ

The model follows the code.

* `ConstraintCollect.cpp:18-22` says that the universal object points to itself; the store it adds
  for that only does something if the object comes to point somewhere otherwise.  It stays empty in
  every program that passes no integer where a pointer is expected
  (`UniversalObject.UniversalObjectIsEmpty`); `UniversalObject.StoreAdds` says exactly when the store
  adds nothing, and `UniversalObject.StoreMatters` gives a program in which it adds something.
* `ConstraintOptimize.cpp:214` and `ConstraintSolving.cpp:365` compare with `>`, which leaves out the
  dereference of node 0.  `Labels.FoldClassifies` and `OfflineCycles.MergesAreNodes` say exactly when
  that matters, `OptimizerLimits.RefZeroIsOverlooked` gives an input on which HVN and HU are wrong,
  and `AndersenPass.CollectedIsHarmless` shows that no collected program is such an input.
* HVN and HU identify nodes that a store through an empty pointer only seems to connect
  (`OptimizerLimits.EmptyPointerIsMerged`); their result is exact just when the nodes they merge agree
  (`PointerEquivalence.ExactIfEqual`, and for HU `HashUnions.HuIsExactIf` in terms of the predecessor
  graph).
* `cons_opt.cpp:995-1015` looks renamed indirect-call entries up in one table for loads and stores; an
  entry can be renamed to a constraint that is not in the list (`FactorLs.IcallIsLost`, with the exact
  condition in `FactorLs.IcallIsListed`).
* `solve.cpp:537-556` adds the edge that stands for all collapsed pointees even if the pointer has
  none but i2p, through which nothing can be loaded or stored, so that the result can be too large
  (`FieldLimits.RunWithIntegers`).  It is exact if and only if the least solution has the inclusions
  that these edges stand for (`FieldResults.ExactIff`).
* `solve.cpp:403-405` queues node 0 at every visit when there is no offline cycle; that is harmless.
* HU, unlike HVN, never gives a VAR node the label of an ADR node, because its table of sets is not
  seeded with theirs (`Labels.HuAdrsApart`); so it never turns a load or store into a copy
  (`HashUnions.HuKeepsForms`).
* The comments on the two phases of the slice (`BackSlice.cpp:109-112`) match its masks; what they
  leave unsaid is that the second phase restarts from everything the first one marked.

## How to read it

Classes follow the classes and passes of the source, with their fields; each method is proved
against functions on values, and the lemmas are about those.  A constraint graph or solver state as a
value is what `V()` returns.  Sets that the source walks in some order are walked in any order here,
so the results hold for every order.

## Model

| member | source | states |
|---|---|---|
| Constraints.LeastIsSolution | andersen/include/Constraint.h:9-40 | what all solutions that respect the merges agree on is itself a solution that respects them, so a least solution exists for every list |
| Constraints.LeastIsLeast | andersen/include/Constraint.h:9-40 | no solution that respects the merges is smaller at any node |
| Constraints.LeastPointsToTaken | andersen/include/Constraint.h:9-40 | in the least solution every pointee is an object whose address some constraint takes |
| NodeFactory.AndersNodeFactory.constructor | andersen/lib/NodeFactory.cpp:14-28 | a new factory's nodes stand for themselves |
| NodeFactory.AndersNodeFactory.CreateNode | andersen/lib/NodeFactory.cpp:30-77 | a new node gets the next index, stands for itself, and changes no lookup |
| NodeFactory.AndersNodeFactory.MergeNode | andersen/lib/NodeFactory.cpp:184-188 | every node that stood for n1 now resolves to what n0 resolves to, and no other lookup changes |
| NodeFactory.AndersNodeFactory.GetMergeTarget | andersen/lib/NodeFactory.cpp:190-207 | the lookup returns the root of the merge forest and ends with n pointing straight at it; compression changes the lookup of no node |
| NodeFactory.AndersNodeFactory.Compress | andersen/lib/NodeFactory.cpp:200-204 | exactly the nodes on the path are redirected, and every lookup is unchanged |
| NodeFactory.AndersNodeFactory.GetMergeTargetConst | andersen/lib/NodeFactory.cpp:209-216 | the lookup without compression returns the same root |
| NodeFactory.RootDepth | andersen/lib/NodeFactory.cpp:190-216 | a root is strictly less deep than every node it represents, so both lookups terminate |
| Graphs.SameComponent | andersen/include/CycleDetector.h:33-72 | in a list of components in reverse topological order, two nodes are in one entry exactly when each reaches the other |
| Graphs.LeadersAgree | andersen/include/CycleDetector.h:33-72 | two listed nodes have one leader exactly when they are in one strongly connected component |
| Graphs.DoneClosed | andersen/include/CycleDetector.h:33-72 | the nodes listed so far cannot reach a node that is not listed |
| Graphs.ListClosed | andersen/include/CycleDetector.h:82-96 | every set of nodes that is closed under edges can be listed as components in reverse topological order |
| Graphs.ReportOf | andersen/include/CycleDetector.h:33-72 | every node can be the root that its component is reported with, just the components it reaches having been reported before |
| CycleDetectors.CycleDetector.constructor | andersen/include/CycleDetector.h:19-31 | a fresh search with a lawful client is in a valid state with nothing reported |
| CycleDetectors.CycleDetector.Visit | andersen/include/CycleDetector.h:33-72 | from any valid state, visiting an unvisited node keeps the whole search invariant, grows the log of reported components, and leaves the node finished or waiting on the stack with a number below its own |
| CycleDetectors.CycleDetector.FollowEdge | andersen/include/CycleDetector.h:40-48 | one successor edge is handled, by a recursive visit if needed, and the number of the node is lowered only to that of a node still active |
| CycleDetectors.CycleDetector.Finish | andersen/include/CycleDetector.h:51-71 | the node is either put on the stack or it is the root of a component that is then reported in full |
| CycleDetectors.CycleDetector.ReportComponent | andersen/include/CycleDetector.h:59-71 | the call-backs run once for each other node of the component and once for its root, the component is one strongly connected component, and it comes after all components it reaches |
| CycleDetectors.CycleDetector.PopComponent | andersen/include/CycleDetector.h:60-69 | exactly the nodes not visited before the root are popped, in stack order, with one processNodeOnCycle each |
| CycleDetectors.CycleDetector.RunOnGraph | andersen/include/CycleDetector.h:82-96 | every node of the graph is in exactly one reported component, components come in reverse topological order, and the stack ends empty |
| CycleDetectors.CycleDetector.RunOnNode | andersen/include/CycleDetector.h:99-108 | the node's component, and all it reaches, are reported, nothing reported before is lost, and the stack ends empty |
| CycleDetectors.StackIsEmpty | andersen/include/CycleDetector.h:95-107 | with no visit under way nothing waits on the stack and every visited node is in a component |
| CycleDetectors.PoppedAreMutual | andersen/include/CycleDetector.h:60-69 | every node popped with the root n reaches n and is reached from it |
| CycleDetectors.PoppedAreClosed | andersen/include/CycleDetector.h:60-69 | no popped node has an edge to a node that stays active |
| CycleDetectors.DetectedComesNext | andersen/include/CycleDetector.h:51-71 | what is popped at a root is exactly one component whose successors were all reported before |
| CycleDetectors.LoweredIsAnchored | andersen/include/CycleDetector.h:46-47 | a node whose number was lowered reaches an unfinished node visited before it |
| ConstraintGraphs.ClosedIsLeast | andersen/lib/ConstraintSolving.cpp:528-674 | a state that covers the constraints, is sound and has no open representative is the least solution, read through the merges |
| OnlineCycles.OnlineIsLawful | andersen/lib/ConstraintSolving.cpp:442-478 | the call-backs that merge nodes in mid-search are lawful: the search over the changing graph reports the components of the graph as it was at the start |
| OnlineCycles.CollapseClosed | andersen/lib/ConstraintSolving.cpp:242-256 | after collapsing, a representative is closed under its copy, load and store edges unless it was merged with one that was not |
| OnlineCycles.MergedHadTheSame | andersen/lib/ConstraintSolving.cpp:442-478 | nodes that are merged, all of them closed, had one points-to set before |
| OnlineCycles.CollapseSound | andersen/lib/ConstraintSolving.cpp:242-256 | collapsing cycles of copy edges adds nothing that some solution does not have |
| OnlineCycles.CollapseProgress | andersen/lib/ConstraintSolving.cpp:242-256 | collapsing leaves fewer representatives, or changes no data at all |
| Solving.AndersWorkList.Enqueue | andersen/lib/ConstraintSolving.cpp:268-275 | an element is appended unless it is queued already |
| Solving.AndersWorkList.Dequeue | andersen/lib/ConstraintSolving.cpp:276-283 | the first element is taken off |
| Solving.Andersen.BuildConstraintGraph | andersen/lib/ConstraintSolving.cpp:409-440 | every constraint is covered by an edge or a points-to fact between representatives, and nothing unsound was entered |
| Solving.Andersen.InitialWork | andersen/lib/ConstraintSolving.cpp:520-526 | every representative that is not queued is closed |
| Solving.Andersen.ProcessLoads | andersen/lib/ConstraintSolving.cpp:596-614 | each load edge of the node adds its copy edge from the pointee, queues the pointee if the edge is new, and has a merged end replaced |
| Solving.Andersen.ProcessStores | andersen/lib/ConstraintSolving.cpp:616-632 | each store edge of the node adds its copy edge into the pointee, queues the source if the edge is new, and has a merged end replaced |
| Solving.Andersen.ProcessPointee | andersen/lib/ConstraintSolving.cpp:591-633 | the load and store edges are done for one more pointee, all open representatives are queued, and queueing means that something missing was added |
| Solving.Andersen.CopyEdgeStep | andersen/lib/ConstraintSolving.cpp:638-660 | a target other than the node gains what the node points to and is queued if that was new; the pair becomes a cycle candidate exactly when detection is on, it was not checked before, and both have the same points-to set |
| Solving.Andersen.Propagate | andersen/lib/ConstraintSolving.cpp:635-669 | the points-to set flows along every copy edge, exactly the targets that gained are queued, and stale edges are replaced |
| Solving.Andersen.ProcessNode | andersen/lib/ConstraintSolving.cpp:543-671 | the node ends closed, whatever it opened is queued, and something is queued only if a fact or an edge was added |
| Solving.Andersen.DetectCycles | andersen/lib/ConstraintSolving.cpp:472-477 | the state is the old one with cycles of copy edges merged, and nothing else changed |
| Solving.Andersen.CollapseCycles | andersen/lib/ConstraintSolving.cpp:532-539 | the same keeps the pending work, whether or not anything was merged |
| Solving.Andersen.Pass | andersen/lib/ConstraintSolving.cpp:541-671 | an emptied current worklist leaves every open representative in the next one, with strictly less missing if that is not empty |
| Solving.Andersen.Iterate | andersen/lib/ConstraintSolving.cpp:528-674 | each iteration leaves fewer representatives, or fewer missing facts and edges, or an empty worklist |
| Solving.Andersen.SolveConstraints | andersen/lib/ConstraintSolving.cpp:505-675 | for every constraint list, with lazy cycle detection on or off, the solver terminates and the points-to graph read through the merges is exactly the least solution |
| Solving.NothingLeft | andersen/lib/ConstraintSolving.cpp:528-674 | with both worklists empty the state is the least solution |
| Solving.CollapseWork | andersen/lib/ConstraintSolving.cpp:532-539 | collapsing cycles between two passes keeps all pending work, and either leaves fewer representatives or changes nothing |
| PredecessorGraphs.AdrFlows | andersen/lib/ConstraintOptimize.cpp:81-120 | whatever an ADR node flows into points to its object in every solution |
| PredecessorGraphs.SourceBefore | andersen/lib/ConstraintOptimize.cpp:81-120 | a source reaches a direct component through a node outside it that was reported before it |
| PredecessorGraphs.IndirectSources | andersen/lib/ConstraintOptimize.cpp:204-224 | a REF node, or a VAR node whose address is taken, has one source of its own, which is no ADR node |
| PredecessorGraphs.EdgeSources | andersen/lib/ConstraintOptimize.cpp:81-120 | sources flow along the edges, except into a component with a value of its own |
| Labels.FoldClassifies | andersen/lib/ConstraintOptimize.cpp:209-218 | when a component is detected, its root is classified as indirect correctly exactly when the component is not overlooked: its only indirect node is the dereference of node 0 and is not the root |
| Labels.HarmlessIsSeen | andersen/lib/ConstraintOptimize.cpp:209-218 | if node 0's dereference shares no component whose other nodes are all direct, no component is overlooked |
| Labels.HarmfulIsOverlooked | andersen/lib/ConstraintOptimize.cpp:209-218 | otherwise there is a search that overlooks a component: a list of components in reverse topological order that ends with it, and holds before it just what it reaches |
| Labels.OptimizerIsLawful | andersen/lib/ConstraintOptimize.cpp:204-224 | HVN and HU are lawful clients of the cycle search: labels are assigned in reverse topological order while the predecessor graph is being merged |
| Labels.HuLabelsAreSources | andersen/lib/ConstraintOptimize.cpp:511-554 | after HU two nodes have one label exactly when they have the same sources and both or neither is in a component with a value of its own, so unions are evaluated |
| Labels.HuAdrsApart | andersen/lib/ConstraintOptimize.cpp:511-554 | HU never gives a VAR or REF node the label of an ADR node, because its table of sets is not seeded with theirs |
| Labels.HvnLabelsAgree | andersen/lib/ConstraintOptimize.cpp:441-459 | HVN gives one label to direct components that the same non-zero labels flow into |
| Rewriting.RewriteSound | andersen/lib/ConstraintOptimize.cpp:268-356 | every rewritten constraint holds in every solution the original constraints have once the merged nodes are one |
| Rewriting.RewriteKeeps | andersen/lib/ConstraintOptimize.cpp:268-356 | each constraint on pointers is kept in its plain form, or in the form resolved against the only object its pointer can point to, or says nothing |
| Rewriting.LookupMeans | andersen/lib/ConstraintOptimize.cpp:289-350 | what the reversed label map gives for a VAR node is its representative, or the only object it can point to |
| Rewriting.LeastIsPermitted | andersen/lib/ConstraintOptimize.cpp:226-361 | in the least solution of the rewritten constraints a node points only where its label permits |
| Rewriting.RewritingPreserves | andersen/lib/ConstraintOptimize.cpp:226-361 | for every constraint list, the rewritten constraints have the least solution that the original ones have once the merged nodes are one |
| PointerEquivalence.CycleValue | andersen/lib/ConstraintOptimize.cpp:204-224 | if nothing that points somewhere is stored through an empty pointer, nodes on one cycle of the predecessor graph have one value |
| PointerEquivalence.SourcesAreValue | andersen/lib/ConstraintOptimize.cpp:204-224 | then the value of every node is the union of the values of its sources |
| PointerEquivalence.LeastIsConfined | andersen/lib/ConstraintOptimize.cpp:204-224 | without that hypothesis, a direct node points only to what flows into its component |
| PointerEquivalence.SameLabelSamePts | andersen/lib/ConstraintOptimize.cpp:384-397 | equal non-zero labels mean equal points-to sets, given that nothing that points somewhere is stored through an empty pointer |
| PointerEquivalence.LabelsMean | andersen/lib/ConstraintOptimize.cpp:272-350 | for every input label 0 means an empty points-to set, and the label of ADR(k) means exactly {k} |
| PointerEquivalence.LeastWithMerges | andersen/lib/ConstraintOptimize.cpp:226-361 | merging can only enlarge the least solution, and leaves it alone exactly when the merged nodes agreed |
| PointerEquivalence.ExactIfEqual | andersen/lib/ConstraintOptimize.cpp:226-361 | the rewritten list, read through getMergeTarget, has the original least solution at every node exactly when all merged nodes agreed in it |
| PointerEquivalence.PointedStoresLand | andersen/lib/ConstraintOptimize.cpp:93-94 | the hypothesis on stores holds if each pointer that is stored through gets an address by an AddrOf and copies |
| PointerEquivalence.RewritingIsExact | andersen/lib/ConstraintOptimize.cpp:226-361 | given that, the least solution of the rewritten list, read through getMergeTarget, is the original least solution at every node |
| HashUnions.HuIsExactIf | andersen/lib/ConstraintOptimize.cpp:511-554 | HU's result, read through getMergeTarget, is the original least solution at every node exactly when nodes that the same components flow into in the predecessor graph have one set in it |
| HashUnions.HuKeepsForms | andersen/lib/ConstraintOptimize.cpp:226-361 | under HU each rewritten constraint is an old one on representatives: no load or store becomes a copy, and no copy an address |
| OptimizerLimits.EmptyPointerIsMerged | andersen/lib/ConstraintOptimize.cpp:93-94 | a concrete list shows that the hypothesis on stores through empty pointers is needed: two nodes with different points-to sets get one label |
| OptimizerLimits.RefZeroIsOverlooked | andersen/lib/ConstraintOptimize.cpp:214-215 | a concrete list shows that the comparison with N excludes the dereference of node 0: a node that points somewhere is labelled a non-pointer and its constraint dropped |
| ConstraintOptimize.GetMergeTargetRep | andersen/lib/ConstraintOptimize.cpp:190-202 | following the merges of the search ends at the node that stands for the index |
| ConstraintOptimize.PropagateHvn | andersen/lib/ConstraintOptimize.cpp:408-460 | the single scan over the predecessors computes the label that depends on the set of their non-zero labels alone |
| ConstraintOptimize.AssignLabel | andersen/lib/ConstraintOptimize.cpp:441-459 | none, one or several labels give label 0, that label, or the label kept for the set |
| ConstraintOptimize.PropagateHu | andersen/lib/ConstraintOptimize.cpp:511-554 | the offline points-to set is the union over the predecessors, and one set always gets one label |
| ConstraintOptimize.ConstraintOptimizer.constructor | andersen/lib/ConstraintOptimize.cpp:374-378 | after construction the predecessor graph is that of the constraints and the indirect nodes are those whose address is taken |
| ConstraintOptimize.ConstraintOptimizer.BuildPredecessorGraph | andersen/lib/ConstraintOptimize.cpp:81-120 | the graph has exactly the explicit and implicit edges of all constraints, said constraint by constraint, and the indirect nodes are those whose address is taken |
| ConstraintOptimize.ConstraintOptimizer.BuildOne | andersen/lib/ConstraintOptimize.cpp:85-118 | one constraint adds exactly its edges and its indirect node |
| ConstraintOptimize.ConstraintOptimizer.Search | andersen/lib/ConstraintOptimize.cpp:380-383 | every node with an edge is in a reported component and labelled by the rules, in reverse topological order |
| ConstraintOptimize.ConstraintOptimizer.CopyLabels | andersen/lib/ConstraintOptimize.cpp:385-387 | every node of a component gets the label of its leader, and a leader keeps its own |
| ConstraintOptimize.ConstraintOptimizer.Label | andersen/lib/ConstraintOptimize.cpp:380-387 | the labels left by search and copying distinguish nodes as rewriting needs |
| ConstraintOptimize.ConstraintOptimizer.MergeVars | andersen/lib/ConstraintOptimize.cpp:233-253 | exactly the VAR nodes with one non-zero label are merged, and the reversed map has a representative for each label in use |
| ConstraintOptimize.ConstraintOptimizer.CollectAdrs | andersen/lib/ConstraintOptimize.cpp:255-266 | the reversed map prefers the ADR node of an unmerged object, and is otherwise unchanged |
| ConstraintOptimize.ConstraintOptimizer.LookUp | andersen/lib/ConstraintOptimize.cpp:294-305 | the assertion of the original holds: what is found is an ADR node or the node itself |
| ConstraintOptimize.ConstraintOptimizer.RewriteOne | andersen/lib/ConstraintOptimize.cpp:270-355 | the four cases of rewriting, with their dropped and resolved forms |
| ConstraintOptimize.RewriteIs | andersen/lib/ConstraintOptimize.cpp:268-356 | what a constraint is replaced by in terms of labels: dropped if it is about non-pointers, resolved if its pointer has the label of an unmerged address, else kept on representatives |
| ConstraintOptimize.ConstraintOptimizer.RewriteAll | andersen/lib/ConstraintOptimize.cpp:268-361 | the new list has exactly the rewritten constraints, each once |
| ConstraintOptimize.ConstraintOptimizer.Run | andersen/lib/ConstraintOptimize.cpp:380-397 | a whole run of HVN or HU leaves exactly the constraints simplified by the labels of the search, with the least solution of the old ones once the merged nodes are one; if nothing that points somewhere is stored through an empty pointer, with exactly the old least solution at every node |
| OfflineCycles.HasVar | andersen/lib/ConstraintSolving.cpp:359-361 | every component of several nodes has a VAR node, so the assertion of the original holds |
| OfflineCycles.LastStore | andersen/lib/ConstraintSolving.cpp:310-337 | every way into a REF node ends in a store through that pointer |
| OfflineCycles.OfflineIsLawful | andersen/lib/ConstraintSolving.cpp:339-375 | the offline detector is a lawful client of the cycle search |
| OfflineCycles.MergesAreEqual | andersen/lib/ConstraintSolving.cpp:344-375 | VAR nodes put in the merge map have one points-to set, in every solution in which nothing that points somewhere is stored through an empty pointer |
| OfflineCycles.CollapseTargetIsSound | andersen/lib/ConstraintSolving.cpp:296-297 | if p maps to q, every object p points to has the points-to set of q |
| OfflineCycles.NothingMissed | andersen/lib/ConstraintSolving.cpp:351-375 | two nodes have one target exactly when they are in one component of the offline graph |
| OfflineCycles.MergesAreNodes | andersen/lib/ConstraintSolving.cpp:365-371 | all merges are between nodes exactly when the dereference of node 0 is on no cycle; that is where the comparison with N decides |
| OfflineCycles.FirstAgrees | andersen/lib/ConstraintSolving.cpp:359-363 | two nodes have one first node exactly when they are in one component |
| OfflineCycles.OfflineMergesAreExact | andersen/lib/ConstraintSolving.cpp:384-390 | the merges change no least solution, given the same of it |
| OfflineCycles.OfflineCycleDetector.BuildOfflineConstraintGraph | andersen/lib/ConstraintSolving.cpp:310-337 | the offline graph has an edge between two nodes exactly for a listed copy, from a dereference exactly for a load, into one exactly for a store, and none between dereferences |
| OfflineCycles.OfflineCycleDetector.Run | andersen/lib/ConstraintSolving.cpp:384-396 | after the search every node with a successor is in a reported component and the collapse map says what the components say; two nodes have one target exactly if values can flow from each to the other along the constraints, and the target is the smallest such node |
| OfflineCycles.OfflineCycleDetector.MergeAll | andersen/lib/ConstraintSolving.cpp:388-390 | merging in any order gives every node the first node of its component as target |
| OfflineCycles.TargetFound | andersen/lib/ConstraintSolving.cpp:365-371 | a node has a collapse target exactly if values can flow from what it points to, to some node and back, along listed copies, loads and stores; the target is the smallest such node |
| OfflineCycles.WayIsReaches | andersen/lib/ConstraintSolving.cpp:310-337 | there is a path in the offline graph exactly if values can flow that way along listed copies, loads and stores |
| OfflineCycles.OfflineCycleDetector.GetCollapseTarget | andersen/lib/ConstraintSolving.cpp:399-406 | the smallest node that values can flow to from what the node points to and back, if there is one; then every object the node points to has the points-to set of the target, given that stores land |
| ConstraintCollect.RunIsSound | andersen/lib/ConstraintCollect.cpp:146-334 | in every state of every run, a register, argument or cell that holds an address of an object from site o has o in its points-to set, for every solution of the program's constraints |
| ConstraintCollect.StepSound | andersen/lib/ConstraintCollect.cpp:146-334 | each instruction of the semantics keeps that |
| ConstraintCollect.PassedSound | andersen/lib/ConstraintCollect.cpp:428-452 | a pointer passed to a parameter, or to the variable arguments, is in the points-to set of what receives it |
| Inclusions.InstMeans | andersen/lib/ConstraintCollect.cpp:146-334 | a points-to graph satisfies the constraints of an instruction exactly if it has the inclusions written out for it: a load copies from what its pointer points to, a store into it, a phi from each incoming pointer, a call from the callee's result and to its parameters |
| Inclusions.InitMeans | andersen/lib/ConstraintCollect.cpp:120-144 | and those of an initializer exactly if the object points to what each pointer constant in it points into, the null object for null, and to what the null object does where it is zero |
| Inclusions.SolvesIsMeant | andersen/lib/ConstraintCollect.cpp:16-144 | so the solutions of a program's constraints are exactly the graphs that have all the program asks for |
| UniversalObject.StoreAdds | andersen/lib/ConstraintCollect.cpp:16-24 | the store that is to make the universal object point to itself adds nothing exactly when the least solution without it satisfies it, which is so if the universal object is empty |
| UniversalObject.UniversalObjectIsEmpty | andersen/lib/ConstraintCollect.cpp:428-452 | for every program that passes no integer where a pointer is expected the universal object is empty, and that store adds nothing |
| UniversalObject.StoreMatters | andersen/lib/ConstraintCollect.cpp:428-452 | a program that stores through such a parameter: the universal object is not empty, and an object points to itself because of the store alone |
| Collectors.Collector.constructor | andersen/lib/ConstraintCollect.cpp:16-24 | collection starts with the four special nodes and no constraint |
| Collectors.Collector.AddNode | andersen/lib/NodeFactory.cpp:30-77 | a new node for a value or object, distinct from all others, and no other node is renumbered |
| Collectors.Collector.CreateInterface | andersen/lib/ConstraintCollect.cpp:78-104 | a function gets its return, variable-argument and parameter nodes |
| Collectors.Collector.CollectConstraintsForGlobals | andersen/lib/ConstraintCollect.cpp:59-118 | exactly the constraints of the globals and their initializers |
| Collectors.Collector.AddGlobalInitializerConstraints | andersen/lib/ConstraintCollect.cpp:120-144 | exactly the constraints of an initializer and, recursively, of its elements |
| Collectors.Collector.CollectFunction | andersen/lib/ConstraintCollect.cpp:26-57 | exactly the constraints of the instructions of one function more |
| Collectors.Collector.CollectConstraintsForInstruction | andersen/lib/ConstraintCollect.cpp:146-334 | exactly the constraints of one instruction more: they hold just where the inclusions written out for it do |
| Collectors.Collector.AddConstraintForCall | andersen/lib/ConstraintCollect.cpp:369-382 | the result of a direct call and its arguments, and nothing else |
| Collectors.Collector.CollectPhi | andersen/lib/ConstraintCollect.cpp:218-233 | one copy for each incoming pointer |
| Collectors.Collector.AddArgumentConstraintForCall | andersen/lib/ConstraintCollect.cpp:428-472 | one copy for each pointer argument, to its parameter or to the variable arguments, and what is passed without a pointer type as the original treats it |
| Collectors.Collector.CollectConstraints | andersen/lib/ConstraintCollect.cpp:16-57 | the list has exactly the constraints the program asks for, all between existing and pairwise distinct nodes, and nodes 0 and 1 are on the left of their defining constraints alone; a points-to graph satisfies it exactly if it has the inclusions written out for each instruction, argument, global and initializer |
| AndersenPass.MergeTargets | andersen/lib/NodeFactory.cpp:190-207 | the table of all lookups of the factory |
| AndersenPass.OptimizeConstraints | andersen/lib/ConstraintOptimize.cpp:569-599 | with at most one optimizer enabled the nodes with one label are merged, each constraint is simplified by them, and the least solution is kept, up to the merges, and exactly if nothing that points somewhere is stored through an empty pointer |
| AndersenPass.RunOnModule | andersen/lib/Andersen.cpp:52-84 | optimizing and solving together give the least solution of the given constraints |
| AndersenPass.CollectedIsHarmless | andersen/lib/ConstraintCollect.cpp:16-24 | collected constraints meet the optimizers' hypothesis on node 0, so it never has to be assumed of a program |
| AndersenPass.Analyze | andersen/lib/Andersen.cpp:52-84 | for every program, optimizer and setting of lazy cycle detection, the computed points-to sets cover every state of every run, are the least solution of the collected constraints, and are the least that have all the program asks for and do not tell merged nodes apart; the merges make no difference without an optimizer, or if nothing that points somewhere is stored through an empty pointer |
| AndersenPass.AnySolutionCovers | andersen/lib/Andersen.cpp:52-84 | whatever agrees with a least solution of the collected constraints covers all runs, merges included |
| AndersenPass.LeastIsMeant | andersen/lib/Andersen.cpp:52-84 | what agrees with a least solution of the collected constraints has all that the program asks for, and nothing that some such graph does without |
| Heaps.Heap.constructor | ptranalysis/include/heap.h:71-78 | an empty heap that can hold the values up to mv |
| Heaps.Heap.PercUp | ptranalysis/include/heap.h:31-47 | heap order is restored from one key that may be too small, and the map from values to keys is kept |
| Heaps.Heap.PercDn | ptranalysis/include/heap.h:48-68 | heap order is restored from one key that may be too large, and the map is kept |
| Heaps.Heap.Push | ptranalysis/include/heap.h:97-120 | the heap refines a finite map: v gets key k, whether it was there or not, which is returned |
| Heaps.Heap.MoveLast | ptranalysis/include/heap.h:129-135 | the last item takes the first place and heap order is restored |
| Heaps.Heap.Pop | ptranalysis/include/heap.h:122-141 | a value with a minimal key is removed and returned with its key |
| Heaps.FirstIsLeast | ptranalysis/include/heap.h:122-124 | in heap order the first key is minimal |
| Heaps.SizeBound | ptranalysis/include/heap.h:20-29 | idxv is the inverse of hv, so each value occurs at most once |
| Heaps.Worklist.constructor | ptranalysis/include/worklist.h:127-132 | both heaps are empty |
| Heaps.Worklist.SwapIfEmpty | ptranalysis/include/worklist.h:136-146 | the next pass becomes the current one exactly when that is empty |
| Heaps.Worklist.Push | ptranalysis/include/worklist.h:148-154 | the worklist refines a pair of finite maps: a push goes to the next pass |
| Heaps.Worklist.Pop | ptranalysis/include/worklist.h:157-160 | a node with a minimal key of the current pass |
| FieldConstraints.FieldLeastIsSolution | ptranalysis/anders/solve.cpp:174-213 | the five kinds of constraints with offsets have a least solution that respects the merges |
| FieldConstraints.FieldLeastIsLeast | ptranalysis/anders/solve.cpp:174-213 | no solution that respects the merges is smaller at any node |
| FieldStates.ClosedSolves | ptranalysis/anders/solve.cpp:244-258 | with no open representative a state that covers the constraints solves them, and tells no node from its representative |
| FieldStates.ByHcdApplied | ptranalysis/anders/solve.cpp:537-556 | that edge does for every pointee but i2p, because all of them were merged with the node it leads to or from |
| FieldTasks.TameEdge | ptranalysis/anders/solve.cpp:537-556 | in a tame graph the one edge of every load and store without an offset through a mapped pointer holds as soon as that points to something |
| FieldTasks.ListedHolds | ptranalysis/anders/solve.cpp:409-447 | every listed constraint is one of the given ones up to merges, so it holds in every tame graph |
| FieldTasks.TargetEqual | ptranalysis/anders/solve.cpp:379-396 | the pointees of a representative have, in every tame graph, the set of what it is mapped to |
| FieldTasks.SameTarget | ptranalysis/anders/cons_opt.cpp:203-231 | nodes that are equal in every tame graph have one target, up to merges, if both have one |
| FieldSteps.StepKeeps | ptranalysis/anders/solve.cpp:457-583 | a step that adds edges and facts while a node is solved keeps all others closed as far as their propagated part goes, if the nodes that gained are queued |
| FieldSteps.EdgeIsSound | ptranalysis/anders/solve.cpp:566-576 | the copy edge of a load or store for one pointee and offset holds in every solution |
| FieldSteps.DropListed | ptranalysis/anders/solve.cpp:421-424 | a constraint that repeats another of its list can be dropped: whatever was listed is listed still, or its twin is |
| FieldSteps.DropListedCovers | ptranalysis/anders/solve.cpp:537-556 | a constraint without an offset can be dropped once the one edge that stands for all pointees is there |
| FieldMerge.MergeKeeps | ptranalysis/anders/cons_opt.cpp:160-187 | merging two nodes keeps every other as closed as it was; the merged node is open and nothing of it counts as propagated |
| FieldMerge.MergeCoversListed | ptranalysis/anders/cons_opt.cpp:172-187 | the constraints listed with either node are listed with the merged one |
| FieldMerge.MergeSoundFor | ptranalysis/anders/cons_opt.cpp:203-231 | merging two nodes that are equal in every tame graph keeps the state within all of them; each mapped pointer stays mapped to what its target is merged into, and no other node is mapped |
| FieldMerge.MergeByHcd | ptranalysis/anders/cons_opt.cpp:203-231 | an edge that stands for all pointees of a node stands for those of the merged node |
| FieldInit.AllEntered | ptranalysis/anders/solve.cpp:178-209 | with all constraints entered and nothing propagated, every node without work is closed |
| FieldCycles.CycleIsEqual | ptranalysis/anders/solve.cpp:874-955 | in every solution that covers the state, nodes on a cycle of copy edges have one points-to set |
| FieldCycles.UniterIsLawful | ptranalysis/anders/solve.cpp:874-955 | lazy cycle detection is a lawful client of the cycle search although it merges the nodes of each component in mid-search: the components are those of the copy edges as they were at the start |
| FieldCycles.UniteNext | ptranalysis/anders/solve.cpp:938-942 | a popped node is merged with what the root stands for by then: the solver's invariant is kept, with the result open |
| FieldCycles.ReportSeveral | ptranalysis/anders/solve.cpp:927-951 | a component of several nodes is merged into one, which is queued; there are fewer representatives, and nothing outside of it changes |
| FieldOffline.PointeesHold | ptranalysis/anders/cons_opt.cpp:868-955 | if values can flow from a variable to what a pointer points to, along listed copies and loads and stores without an offset, every object it points to has all that the variable has, in every solution in which the pointers stored through point to objects |
| FieldOffline.VariableHolds | ptranalysis/anders/cons_opt.cpp:868-955 | if they can flow from there to a variable, that has all that the objects have |
| FieldOffline.LeastPointsToObjects | ptranalysis/anders/solve.cpp:174-213 | in the least solution every pointee is an object |
| FieldOffline.SolutionIsSteady | ptranalysis/anders/cons_opt.cpp:806-829 | so a solution in which stores meet objects is steady: it has all that collapsing on such cycles relies on |
| FieldOffline.CyclesAreOk | ptranalysis/anders/cons_opt.cpp:806-829 | so collapse targets found on such cycles are what the run asks for, if pointers that are equal in every solution have one target; that two pointers have one set in the least solution alone is no obstacle |
| FieldOffline.CyclesAreExact | ptranalysis/anders/cons_opt.cpp:806-829 | and the run ends with the least solution |
| FieldVisits.HcdEdgeIsSound | ptranalysis/anders/solve.cpp:537-556 | the one edge that a load or store without an offset gets for all pointees holds in every tame graph |
| FieldCollapses.CanCollapse | ptranalysis/anders/solve.cpp:389-396 | a new pointee other than i2p has the set of the collapse target in every tame graph, and no other target, so that merging it loses nothing |
| FieldCollapses.CollapsedOne | ptranalysis/anders/solve.cpp:389-396 | merging one pointee keeps all others closed, also when the node being solved is merged itself |
| FieldCollapses.CollapseEnds | ptranalysis/anders/solve.cpp:400-407 | after collapsing, the node is to be solved as before, or again from nothing if it took part, or is no representative any more and has no constraints left |
| FieldLimits.RunWithIntegers | ptranalysis/anders/solve.cpp:537-556 | a run on a list with a mapped pointer that was made from integers alone: its edge gives a node a pointee that it does not have in the least solution |
| FieldLimits.RunWithAliases | ptranalysis/anders/solve.cpp:379-396 | a run on a list with two pointers that have one set and different targets ends with the least solution |
| FieldResults.ResultIsTame | ptranalysis/anders/solve.cpp:244-258 | with nothing open the state's own points-to graph is tame |
| FieldResults.Converged | ptranalysis/anders/solve.cpp:244-258 | it is the least tame graph, and the least solution exactly when that is tame |
| FieldResults.ExactBetween | ptranalysis/anders/solve.cpp:537-556 | two conditions on the least solution that do not speak of what the run merges: one is needed for an exact result, and one is enough |
| FieldResults.ExactIff | ptranalysis/anders/solve.cpp:537-556 | the result is the least solution if and only if in that the pointees of mapped pointers have the set of the target, and for each mapped pointer to i2p alone every load without an offset through it has the set of the target in its destination, and every such store the set of its source in the target, provided no other pointer that is equal to such a one in the least solution is loaded or stored through without an offset |
| FieldSolver.Anders.FindCycles | ptranalysis/anders/solve.cpp:336-354 | searching from all starts that are still representatives keeps the solver's invariant while it merges what it finds, and leaves fewer representatives or changes nothing |
| FieldSolver.Anders.AddCopyEdge | ptranalysis/anders/solve.cpp:703-722 | a new edge copies the whole points-to set, edges with i2p or to the node itself are refused, and the result says whether the target gained |
| FieldSolver.Anders.EdgeOne | ptranalysis/anders/solve.cpp:566-576 | one pointee of a load or store is applied, opening at most the node that gained |
| FieldSolver.Anders.SolveLoad | ptranalysis/anders/solve.cpp:563-580 | a load is applied to all new pointees and its destination is queued once if it gained |
| FieldSolver.Anders.SolveStore | ptranalysis/anders/solve.cpp:563-576 | a store is applied to all new pointees and each cell that gained is queued |
| FieldSolver.Anders.SolveGepCons | ptranalysis/anders/solve.cpp:667-696 | a GEP adds the offset pointees that exist in their objects, and queues its destination if it gained |
| FieldSolver.Anders.UpdateCons | ptranalysis/anders/solve.cpp:474-484 | the constraint is made to refer to representatives, in place |
| FieldSolver.Anders.DropCons | ptranalysis/anders/solve.cpp:421-424 | the index leaves the list of the node, and nothing else changes |
| FieldSolver.Anders.EdgeByHcd | ptranalysis/anders/solve.cpp:537-550 | the one edge is added, and its target queued if it gained |
| FieldSolver.Anders.SolveByHcd | ptranalysis/anders/solve.cpp:537-556 | a load or store without an offset of a node whose pointees were merged gets that edge and is dropped |
| FieldSolver.Anders.DropSpare | ptranalysis/anders/solve.cpp:421-424 | a constraint that was seen before, or has that edge, is dropped, and all constraints stay covered |
| FieldSolver.Anders.SolveUpdated | ptranalysis/anders/solve.cpp:508-583 | the updated constraint is dropped if the same was seen in this list, else applied by one edge or to each new pointee |
| FieldSolver.Anders.SolveListed | ptranalysis/anders/solve.cpp:418-425 | a constraint is made to refer to representatives and then handled so |
| FieldSolver.Anders.SolveList | ptranalysis/anders/solve.cpp:414-447 | after the loop over one list every constraint in it is done for the new pointees |
| FieldSolver.Anders.PropOne | ptranalysis/anders/solve.cpp:729-759 | the new facts are copied to one representative, which is queued if it gained; the pair becomes the start of a cycle search exactly when both had one points-to set, not empty, for the first time |
| FieldSolver.Anders.SolveProp | ptranalysis/anders/solve.cpp:726-760 | the new facts are copied along every copy edge |
| FieldSolver.Anders.Collapse | ptranalysis/anders/solve.cpp:379-407 | the new pointees of a node with a collapse target are merged with it and the result is queued |
| FieldSolver.Anders.CollapsePointees | ptranalysis/anders/solve.cpp:387-398 | all new pointees but i2p end up merged with the collapse target, in any order |
| FieldSolver.Anders.CollapseNext | ptranalysis/anders/solve.cpp:389-396 | one pointee is merged unless it is already, or is i2p |
| FieldSolver.Anders.SolveCons | ptranalysis/anders/solve.cpp:409-450 | all three lists are applied to the new pointees, which then go along the copy edges |
| FieldSolver.Anders.SolveNode | ptranalysis/anders/solve.cpp:359-450 | difference propagation loses nothing, with collapsing of pointees: the node ends closed for all it points to or is merged away, every node that gained is queued, and there are fewer representatives, fewer missing facts or edges, or less to propagate |
| FieldSolver.Anders.VisitSooner | ptranalysis/anders/cons_opt.cpp:158-162 | the lesser visit time wins, so no entry that waits is skipped |
| FieldVisits.SoonerWaits | ptranalysis/anders/solve.cpp:228-236 | lowering visit times never makes an entry one that will be skipped |
| FieldSolver.Anders.MoveInto | ptranalysis/anders/cons_opt.cpp:163-231 | edges, constraints, points-to set and collapse target of b go to a, self edges are removed, and nothing of a counts as propagated; two targets are one already, up to merges |
| FieldSolver.Anders.MergeNodes | ptranalysis/anders/cons_opt.cpp:135-232 | the node of higher rank becomes the parent, gets everything of the other and its visit time if that is less, and its rank grows on a tie; it is what the cycle search does too |
| FieldSolver.Anders.RunLcd | ptranalysis/anders/solve.cpp:336-354 | lazy cycle detection keeps the solver's invariant, and leaves fewer representatives or changes nothing |
| FieldSolver.Anders.EnterOne | ptranalysis/anders/solve.cpp:180-207 | one constraint is entered as an address, a copy edge or a listed complex constraint |
| FieldSolver.Anders.SolveInit | ptranalysis/anders/solve.cpp:174-238 | all constraints are covered, and every representative that has work is on the worklist |
| FieldSolver.Anders.Pop | ptranalysis/anders/solve.cpp:217-238 | an entry with a minimal key is taken off the current worklist |
| FieldSolver.Anders.NextPass | ptranalysis/anders/solve.cpp:254-258 | the run ends only when neither worklist has an entry |
| FieldSolver.Anders.StepOnce | ptranalysis/anders/solve.cpp:254-293 | skipping an entry whose node was merged away, or whose key is below the visit time, drops no pending work; and each step makes progress |
| FieldSolver.Anders.VisitNode | ptranalysis/anders/solve.cpp:274-292 | a visit, with cycle detection when it is due, closes the node and makes progress |
| FieldSolver.Anders.Solve | ptranalysis/anders/solve.cpp:244-330 | for every constraint list, and every map of collapse targets in which mapped pointers that are equal in all steady graphs have one target, the solver terminates with an empty worklist, and the points-to sets read through the merges are the least tame graph; they are the least solution if and only if that is tame, and in any case if it is steady |
| FactorLs.SolutionExtends | ptranalysis/anders/cons_opt.cpp:962-1065 | every solution of the original list extends to the fresh temporaries |
| FactorLs.SolutionRestricts | ptranalysis/anders/cons_opt.cpp:962-1065 | every solution of the factored list solves the original one |
| FactorLs.FactoringPreserves | ptranalysis/anders/cons_opt.cpp:954-961 | so the least solutions agree on every old node |
| FactorLs.ListedIsFactored | ptranalysis/anders/cons_opt.cpp:962-1065 | which constraints are in the factored list, by type: others stay, accesses to a factored pair go through its temporary alone, and copies are added for each node loaded or stored |
| FactorLs.IcallIsListed | ptranalysis/anders/cons_opt.cpp:995-1015 | the renamed entry of an indirect call names a constraint of the factored list if and only if no temporary of the other kind of access to the same pair is found instead of its own |
| FactorLs.IcallIsLost | ptranalysis/anders/cons_opt.cpp:983-993 | a concrete list where the entry of a load is renamed to a load that is not in the list, because loads and stores share one map of temporaries |
| FactorLs.Factorer.FactorOne | ptranalysis/anders/cons_opt.cpp:1022-1065 | below the minimum the constraints go back unchanged, else one complex constraint through a new node and one copy for each other |
| FactorLs.Factorer.FactorAll | ptranalysis/anders/cons_opt.cpp:979-993 | every pair of one kind is factored exactly if it is worth it, with distinct new nodes |
| FactorLs.Factorer.Group | ptranalysis/anders/cons_opt.cpp:963-977 | loads and stores are grouped by what they access, all others stay |
| FactorLs.Factorer.FactorLs | ptranalysis/anders/cons_opt.cpp:962-1016 | the whole pass: a pair gets a temporary exactly if two nodes are loaded from it, or stored to it; the list is exactly the old one with each such pair's accesses replaced by one and copies, the new nodes are no objects, and the least solution is kept at every old node; the entries are renamed |
| FactorLs.Factorer.RenameIcalls | ptranalysis/anders/cons_opt.cpp:995-1015 | each entry keeps its type, offset and the side that is dereferenced, and gets the temporary of its pair on the other, if there is one; entries that become equal are united |
| Renumbering.MovedSolves | ptranalysis/anders/cons_opt.cpp:59-130 | renumbering a solution solves the renumbered constraints |
| Renumbering.RenumberingPreserves | ptranalysis/anders/cons_opt.cpp:59-130 | for every bijection that keeps objects contiguous, the least solution of the renumbered constraints is the renumbered least solution |
| Renumbering.AllListed | ptranalysis/anders/cons_opt.cpp:66-88 | the two scans give a bijection with move_to[i+k] = move_to[i]+k for every field k of an object i |
| Renumbering.AllClumped | ptranalysis/anders/cons_opt.cpp:64-110 | so after both scans the objects are in front, and the least solution of the renamed constraints is the renamed least solution |
| Renumbering.NodeTable.ClumpAddrTaken | ptranalysis/anders/cons_opt.cpp:59-130 | special nodes stay, all objects come before all other variables, both in their old order, only the object segment has its address taken, and the least solution moves along |
| Renumbering.NodeTable.MoveNodes | ptranalysis/anders/cons_opt.cpp:74-88 | one scan appends the objects, or the others, in their old order |
| Renumbering.NodeTable.MoveConstraints | ptranalysis/anders/cons_opt.cpp:90-98 | every constraint has both ends renumbered, in place |
| Renumbering.NodeTable.PtsInit | ptranalysis/anders/solve.cpp:60-157 | the mask of an offset in use has exactly the objects with a field there |
| Renumbering.NodeTable.GroupByOffset | ptranalysis/anders/solve.cpp:77-96 | each object is put at the largest offset in use that it has a field at |
| Renumbering.NodeTable.SuffixUnions | ptranalysis/anders/solve.cpp:138-157 | uniting the groups from the largest offset down gives those masks |
| UnionFind.LookupIsShort | ptranalysis/anders/cons_opt.cpp:135-151 | a lookup follows at most log2 of the number of nodes many parents |
| UnionFind.RankFits | ptranalysis/include/anders.h:31 | a representative of rank k has at least 2^k members, so a rank field never wraps in 32 bits |
| UnionFind.Nodes.constructor | ptranalysis/anders/cons_opt.cpp:270-272 | new nodes are representatives of rank 0 |
| UnionFind.Nodes.MergeNodes | ptranalysis/anders/cons_opt.cpp:135-151 | the lower rank goes under the higher; every node of either resolves to the returned parent, and no other lookup changes |
| UnionFind.Nodes.GetNodeRep | ptranalysis/include/anders.h:483-492 | the lookup with path compression returns the representative, redirects only nodes on the way, and changes no lookup |
| UnionFind.Nodes.CgetNodeRep | ptranalysis/include/anders.h:494-499 | the lookup without compression returns the same representative |
| Assignments.PickMatches | ptranalysis/anders/util.cpp:44-94 | every choice among the open bits gives a number that agrees with the assignment |
| Assignments.MatchesPick | ptranalysis/anders/util.cpp:44-94 | every number that agrees is one of those choices |
| Assignments.MatchesIsAgrees | ptranalysis/anders/util.cpp:55-68 | a number agrees with an assignment read from the top exactly if each bit is what the assignment has in the even position for it, unless that is left open |
| Assignments.PickGrows | ptranalysis/anders/util.cpp:44-94 | and none comes twice: larger choices give larger numbers |
| Assignments.SmallList | ptranalysis/anders/util.cpp:70-80 | the cases of up to two open bits, with their fall-through, list every number once |
| Assignments.AddPicked | ptranalysis/anders/util.cpp:84-92 | the inner loop adds the masks chosen by the bits of i |
| Assignments.Sat2Vec | ptranalysis/anders/util.cpp:44-95 | exactly the numbers whose bits are those the assignment gives are appended, each once |
| BddCache.TopExists | ptranalysis/anders/util.cpp:37-40 | a queue that is not empty has an oldest use |
| BddCache.PopKeeps | ptranalysis/anders/util.cpp:153-165 | popping the oldest use keeps every queued id cached, every last use queued, and the size the sum of all vectors |
| BddCache.DropIsOldest | ptranalysis/anders/util.cpp:158-165 | an id is dropped only if all others were used later |
| BddCache.Bdd2Vec.Evict | ptranalysis/anders/util.cpp:151-167 | the loop terminates with room to spare, its assertion holds, and exactly the ids not used after some time are gone |
| BddCache.Bdd2Vec.Expand | ptranalysis/anders/util.cpp:170-175 | the vector is the sorted list of exactly the numbers the BDD stands for |
| BddCache.Bdd2Vec.Hit | ptranalysis/anders/util.cpp:138-144 | a cached vector is still right, and its id becomes the last one used |
| BddCache.Bdd2Vec.Miss | ptranalysis/anders/util.cpp:145-181 | a new vector is stored; ids leave only when the cache was full, least recently used first |
| BddCache.Bdd2Vec.Get | ptranalysis/anders/util.cpp:127-183 | bdd2vec always returns the sorted expansion of its argument and keeps the cache and its queue in step |
| ControlDependence.PostDomAntisym | CDG.cpp:17-41 | different blocks do not post-dominate each other |
| ControlDependence.Parent | CDG.cpp:20-37 | the post-dominators of a block are the block and those of its parent in the tree |
| ControlDependence.SuccessorMeets | CDG.cpp:26-36 | the parent of a block post-dominates all its successors, so the walk up from a successor meets it before the root |
| ControlDependence.CDG.Walk | CDG.cpp:25-37 | the walk terminates at the parent of b and adds exactly the nodes passed |
| ControlDependence.CDG.AddBranches | CDG.cpp:20-38 | the dependences on one block: exactly the blocks that post-dominate a successor of it but not strictly the block itself |
| ControlDependence.CDG.RunOnFunction | CDG.cpp:11-50 | the graph has exactly the control dependences, ENTRY controls exactly the blocks nothing else does, and every block has a predecessor |
| BackSlices.AtEnd | BackSlice.cpp:123-168 | with nothing left to look at, what is marked is everything with a way to a seed along edges of the mask |
| BackSlices.TwoPhases | BackSlice.cpp:102-116 | a slice of a slice is what has a way to a seed that goes along the second mask first and then along the first |
| BackSlices.SliceIs | BackSlice.cpp:102-116 | the slice of a slice with the masks of the two phases is what has such a way along the recorded kinds |
| BackSlices.BackSlice.MarkReaching | BackSlice.cpp:120-168 | one pass terminates, looks at each node at most once, and marks exactly that |
| BackSlices.BackSlice.MarkVertices | BackSlice.cpp:102-116 | the backward slice is exactly the set of nodes with a way to a seed by control, flow and paramOut edges followed by control, flow, call and paramIn edges, stated over the kinds recorded with each edge |
| Bitmap.Canonical | ptranalysis/include/bitmap.h:663-673 | two lists in canonical form that hold the same numbers are equal |
| Bitmap.SparseBitVector.FindLowerBound | ptranalysis/include/bitmap.h:409-436 | from any cursor position the search ends at the element with the index, or beside where it would be |
| Bitmap.SparseBitVector.Test | ptranalysis/include/bitmap.h:584-597 | whether the number is in the set, from any cursor position |
| Bitmap.SparseBitVector.Reset | ptranalysis/include/bitmap.h:599-618 | exactly that number is taken out, and an element that becomes empty is deleted |
| Bitmap.SparseBitVector.Set | ptranalysis/include/bitmap.h:620-646 | exactly that number is put in, in order, in a new element if there is none |
| Bitmap.SparseBitVector.Equals | ptranalysis/include/bitmap.h:663-673 | the element-wise comparison decides equality of the sets |
| Bitmap.SparseBitVector.Union | ptranalysis/include/bitmap.h:688-712 | the result holds the numbers of both sets, aliased or not, and the flag says whether the left one changed |
| Bitmap.SparseBitVector.IntersectWithComplement | ptranalysis/include/bitmap.h:757-792 | exactly the numbers of the right set are taken out, and the flag says whether the left one changed |
| Bitmap.BitIterator.constructor | ptranalysis/include/bitmap.h:459-474 | a walk starts at the least number, or at the end if there is none |
| Bitmap.BitIterator.Advance | ptranalysis/include/bitmap.h:476-521 | each step goes to the least number above the last, or to the end if there is none, so each number comes once in increasing order |

## Left out

- Solving.Andersen.SolveConstraints: without the online half of hybrid cycle detection (`ConstraintSolving.cpp:557-589`), which queues the merged node only if the node merges with itself, so that the least solution is not reached in general.
- Solving.Andersen: lookups are the table `root` of what the node factory returns; the factory itself, with path compression, is verified in `NodeFactory`.
- Labels.OptimizerIsLawful: with the hypothesis that node 0's dereference is harmless, which every collected program meets; without it the property is false.
- OfflineCycles.OfflineCycleDetector.Run: with the hypothesis that node 0's dereference is on no cycle, which is exactly when all its merges are between nodes.
- AndersenPass.OptimizeConstraints: at most one of HVN and HU, because the second would run on constraints whose nodes have been merged, which the source itself says it does not support.
- FieldSolver.Anders.Solve: two mapped pointers with different targets have to differ in some points-to graph that the state stays within; if they are equal in all, the nested merge of their targets (`cons_opt.cpp:213-227`) can be reached, which queues nothing, so that not even a solution is reached in general. Node 0 stands for no node, so no constraint names it, and a mapped pointer is a representative that some constraint loads or stores through or computes a field of.
- FieldSolver.Anders.MergeNodes: without the nested merge, as two different targets are never met; targets that were merged before count as one.
- FieldSolver.Anders.MoveInto: the same.
- FieldSolver.Anders.SolveInit: for the same constraints and targets as `FieldSolver.Anders.Solve`.
- FieldOffline.CyclesAreOk: pointers that are equal in every solution are assumed to have one target, for the same reason.
- FieldSolver.Anders.Solve: without function objects, indirect and external calls, and the time and memory limits that may abort a run.
- FieldSolver.Anders.FindCycles: the search of the source also replaces the copy edges of the nodes it visits by edges to their representatives, which changes no edge between representatives.
- Solving.Andersen.Propagate: which pairs become cycle candidates is said of one edge, in `CopyEdgeStep`; when two edges lead to one representative it depends on their order.
- FieldSolver.Anders.Pop: on the pair of maps that the class `Heaps.Worklist` is proved to refine.
- FactorLs.Factorer.FactorAll: one method for the two loops over loads and over stores, in any order of the pairs.
- Renumbering.NodeTable.PtsInit: requires, as the vectors it indexes do, that every offset in use is less than the size of some object.
- BddCache.Bdd2Vec.Get: a BDD is an id and its satisfying assignments, and an id stands for one set for good; time does not wrap around, and sorting is a function.
- Assignments.Sat2Vec: bits are sums of powers of two, so `|` of different masks is `+`, and the limit of 25 open bits is not imposed.
- Bitmap.SparseBitVector: the bits of an element are a set, so the words of an element and the shifts of its iterator are not modelled; elements are a sequence, so links and the free list are not either.
- Bitmap.SparseBitVector.IntersectWithComplement: not of a set with itself, which erases elements that the source still walks.
- ControlDependence.CDG.RunOnFunction: every block can reach the exit, since otherwise the tree has no node for it and the source follows a null pointer.
- BackSlices.BackSlice.MarkVertices: the forward slice is its mirror image and is not modelled.
- Collectors.Collector.CollectConstraintsForInstruction: without integer-to-pointer casts, indirect calls, the tables of external functions, and instructions the source does not support.
- HVN, HU and the searches for offline cycles of the field-sensitive analysis (`hvn_dfs`, `hvn_label`, `hu_label`, `merge_ptr_eq`, `hcd_dfs`, `hr`): variants of what is proved for the other analysis.
- Bitmap operations `>>=`, `set_range`, `clear_range` and the result of `&=`; BDDs themselves; reading of the slice file; rewriting of the module; dumping, statistics and alias queries.
- Indices are unbounded integers, except where overflow could matter: three times the number of nodes stays below 2^32, heaps hold less than 2^32 values, and ranks are proved not to wrap.
