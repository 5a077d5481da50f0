# Verification of FSRacer's analyses

FSRacer reads a trace of events and file operations, infers which events happen
before which, works out which event touches which path, and reports accesses that
conflict and are not ordered. This project models those analyses in Dafny and proves
what they promise. `dafny verify dfyconfig.toml` checks all of it.

Code that updates fields or fills buffers is modelled by classes with the same fields
and loops. Each method is proved against a function on values (`View`, `State`,
`Inodes`, `Fs`, texts and token lists), and what the source promises is proved about
those functions.

| file | what it holds |
|---|---|
| `Common`, `Trace` | identifiers, decimal texts, the syntax tree of traces |
| `Reachability`, `Graph` | walks and cycles; the mutable graph with its depth-first search |
| `DependencyModel`, `DependencyInferenceAnalyzer` | happens-before inference as a step machine, and the analyzer that performs it |
| `Pruning`, `LinkTargets` | exactly when pruning preserves meaning; edges to missing nodes |
| `HistoryGrowth`, `Cycles`, `Acyclicity` | what a step adds to the history; exactly when it closes a cycle; consistent traces |
| `EdgeRules`, `Reruns` | what each step adds, edge by edge; blocks that begin again, MAIN blocks, skipped blocks |
| `WaitingOrder` | everything the graph says about two waiting events |
| `Orderings`, `Scenarios` | the queue of waiting events, orderings that stay, the MAIN barrier; a cyclic trace, and one on which pruning loses an ordering |
| `InodeModel`, `InodeTable`, `InodeRuns`, `OpenNames`, `InodeRename` | the inode table; deferred unlinking; the reverse table; open names; renaming |
| `FileAccess`, `FsModel`, `FSAnalyzer` | paths and accesses; the effect of each operation; the analyzer that performs them |
| `Submissions`, `FsTables`, `Descriptors`, `NetEffects`, `FsNames` | properties of every run of that analyzer: which operations a trace runs, its table operations, conservation, net accesses, names and links |
| `RaceDetector`, `FaultReport`, `Fsracer`, `DanglingLink` | the detector with its memo; the exact report; the whole tool; a trace on which detection fails |
| `TraceLexer`, `TracePrinter`, `TraceParser`, `TraceDriver` | tokens, the dump, the grammar, and the driver of its actions |
| `DumpTokens`, `RoundTrip` | the tokens of a dump; parsing a dump gives the trace back |
| `TimersTest`, `TimersReport`, `TimersText` | a test of the repository: its edges, accesses, race and text |

## What is proved

* **Pruning preserves meaning, exactly when.** The pruned graph reaches just what the
  unpruned one reaches in every state of a run if and only if, at every pruning, each
  edge that goes has a way through the event along edges that stay; sinks and reports
  then agree too. That holds whenever no event lies on a cycle when its block begins,
  whatever cycles there are elsewhere; a trace on which pruning at events on a cycle
  loses an ordering shows that it does not always hold.
* **Acyclicity, exactly.** The history of a graph is the pairs in the `before` and
  `after` sets, which no operation removes. A run of any trace keeps it acyclic if and
  only if no step puts something after a node that already reaches something the step
  puts before it; `Cycles` says what that means for each kind of step, and
  `Scenarios` has a trace, shaped like one of the repository's tests, that closes a cycle.
* **Consistent traces are acyclic**, however often they run a block again, by an order
  on events: begun ones by when they began, waiting ones by priority, value and age.
  A trace is consistent if each event is created once, a MAIN block is new and begins
  while nothing is alive, no other alive event precedes an event whose block starts,
  and a link that takes effect leads from an older event to a waiting EXT event.
* **Waiting events are a priority queue**, read off the pruned graph in every state: one
  reaches another exactly when their types, values and ages say so, or through links
  (`WaitingOrder`). What a creation, a link, a re-execution or an observed W event
  orders stays ordered for good, and an event is pending exactly when a block begins
  again (`Reruns.PendingExactly`).
* **The report is exact**, from the trace to the list of pairs (`Fsracer.DetectRaces`),
  with memoised reachability and net accesses, and so is the case in which the
  assertion of the search fails and there is none.
* **The reverse table is exact** throughout the analysis of a trace if and only if each
  operation on the inode table is careful, a condition on the table before it.
* **The inode table**: a stable allocator, deferred unlinking, renaming that carries
  the subtree, and descriptors that are conserved.
* **Open names**: until the last close of an unlinked name, and for ever if it is not
  unlinked, opens and closes leave it bound.
* **The operations of a trace** are those of the groups it submits, in order, each with
  the event it acts for (`Submissions.TraceRunsItsSubmissions`).
* **Round trip**: lexing and parsing the dump of a trace.
* **A test of the repository**, tests/node_tests/timers.exp: for the trace in it the
  model has just the edges, accesses and the one race that the test expects, and its
  text reads back. What the test's harness adds is left out.

## Where the code decides

The model follows the code where comments or documents say otherwise, or little:

* `before` of a node holds the nodes ordered after it, and `after` those before it;
  the comments at lib/Graph.h:34-37 say the reverse.
* A trigger stores its event number in a string as one character
  (lib/DependencyInferenceAnalyzer.cpp:161). The model keeps that character
  (`EdgeRules.LinksAfterTrigger`).
* Equal W events are not ordered when created, whatever docs/design_doc.md says about
  their priority (`EdgeRules.CreationAdds`); they are ordered when one of them starts.
* An edge to a missing node becomes a dependent, but is not put in `before` and `after`
  (lib/Graph.h:210-214); a step makes such an edge exactly when it is a link from an
  existing event to a missing one (`LinkTargets.ClosedIfTargetExists`). The assertion at
  lib/Graph.h:269 fails exactly in a search from which a missing node can be reached
  (`DependencyGraph.Graph.DFS`); `DanglingLinks` has a trace on which it does. If the target is created after the link, all is well:
  the final graph has all its targets exactly when every link that took effect has got
  its target by then (`LinkTargets.AllTargetsExist`).
* A descriptor returned while still in use breaks the open counters: they stay right
  exactly when it was free (`Descriptors.NewDescriptorConserves`).
* Opening a name that is bound binds it to a fresh inode, and a link or a rename onto a
  bound name (lib/FSAnalyzer.cpp:249-250, lib/InodeTable.cpp:15-25) to another one: the
  inode bound before keeps the path in the reverse table. The table goes stale too when
  a name goes under a directory with several paths, when a directory with names in it
  gets another name or loses one, when a directory is linked into itself, and when the
  path of a new name is that of the root. These are all the ways
  (`InodeRuns.ApplyIsExact`, `InodeRuns.FreshIsExactIfUnbound`).
* A rename leaves the old name exactly when it is open or its parent has several
  recorded paths or none (`InodeRename.RenameCarriesSubtree`). The last close of an
  unlinked name leaves it bound for the same reason (`InodeRuns.LastCloseUnbinds`).
* The grammar has no trace with groups of operations and no blocks, or the other way
  round, though the printer writes them (`RoundTrip.ParseOfDump` says exactly when).

The round trip asks of a trace: numbers that `std::stoi` accepts, names and paths that
lex as one IDENTIFIER, operation identifiers `sync_` or `async_` and digits, an actual
name or a failure on every operation, a tag on every `submitOp`, descriptor -1 exactly
on a failed `newFd`, no operation named `failed`, no meta variable that starts with
`PID`, `rename` only as the first meta variable, no new event of type MAIN, and value 0
for EXT.

## Model

| member | source | states |
|---|---|---|
| `Fsracer.DetectRaces` | lib/Processor.cpp:130-180 | on every trace: there is no report, that is a failed assertion, just when deciding about some pair of events meets an edge to a missing node; otherwise a pair is reported with a path exactly when it is a race, with the two net accesses, never in both orders; and if no pruning loses an ordering, the same holds of the graph that pruning never touched |
| `Fsracer.CreatedTargetsAreReported` | lib/Graph.h:251-281 | there is a report whenever the target of every link that took effect was created, before the link or after it |
| `Fsracer.ConsistentTracesQualify` | lib/DependencyInferenceAnalyzer.cpp:39-153 | consistent traces meet the premises of both |
| `DependencyGraph.Graph.constructor` | lib/Graph.h:299-301 | an empty graph |
| `DependencyGraph.Graph.AddNode` | lib/Graph.h:156-161 | a node that exists is not replaced |
| `DependencyGraph.Graph.AddNodeAttr` | lib/Graph.h:163-169 | only an existing node gets the attribute |
| `DependencyGraph.Graph.GetNodeInfo` | lib/Graph.h:188-196 | the node with its event, the nodes directly after and before it, and its attributes |
| `DependencyGraph.Graph.AddEdge` | lib/Graph.h:198-218 | no self edge, none from a missing node; an edge to a missing node becomes a dependent but is not recorded in `before` and `after` |
| `DependencyGraph.Graph.RemoveEdge` | lib/Graph.h:220-226 | the dependent goes, `before` and `after` keep the pair |
| `DependencyGraph.Graph.DFS` | lib/Graph.h:251-281 | there is no result, and the assertion fails, exactly when something reachable is not a node; otherwise the result is exactly the set of reachable nodes; the search ends although the stack may hold duplicates |
| `DependencyGraph.Graph.HasPath` | lib/Graph.h:242-249 | true exactly when the target is reachable, if the search has a result |
| `DependencyGraph.TargetsMakeSearchable` | lib/Graph.h:266-270 | where all edges have existing targets the assertion holds in every search from a node |
| `DependencyGraph.Graph.GetSinks` | lib/Graph.h:287-295 | the nodes with no outgoing edge |
| `DependencyGraph.EdgeRepresented` | lib/Graph.h:204-218 | `before` and `after` stay mutual inverses when an edge is added, one node set at a time |
| `DependencyAnalyzers.DependencyInferenceAnalyzer.constructor` | lib/DependencyInferenceAnalyzer.h:138-144 | the initial state |
| `DependencyAnalyzers.DependencyInferenceAnalyzer.AnalyzeTrace` | lib/DependencyInferenceAnalyzer.cpp:27-36 | the fields after a trace are the state of the step machine after the steps of its blocks |
| `DependencyAnalyzers.DependencyInferenceAnalyzer.AnalyzeBlock` | lib/DependencyInferenceAnalyzer.cpp:39-95 | a block is its start, its expressions and its end, or is skipped as a whole |
| `DependencyAnalyzers.DependencyInferenceAnalyzer.EnterBlock` | lib/DependencyInferenceAnalyzer.cpp:44-89 | what is done before the expressions, and when the block is skipped: an empty MAIN block, or a block of an unknown event |
| `DependencyAnalyzers.DependencyInferenceAnalyzer.AnalyzeExpr` | lib/DependencyInferenceAnalyzer.cpp:98-102 | dispatch on the expression |
| `DependencyAnalyzers.DependencyInferenceAnalyzer.AnalyzeNewEvent` | lib/DependencyInferenceAnalyzer.cpp:105-136 | the node, the edge from a pending event, the edge from the creating block, the edges by priority, and the event is alive |
| `DependencyAnalyzers.DependencyInferenceAnalyzer.AddCreated` | lib/DependencyInferenceAnalyzer.cpp:111-129 | the node, the edge from the pending event, which is then cleared, and the edge from the current block |
| `DependencyAnalyzers.DependencyInferenceAnalyzer.AnalyzeLink` | lib/DependencyInferenceAnalyzer.cpp:139-153 | the edge of a link, unless its source is the current block or context |
| `DependencyAnalyzers.DependencyInferenceAnalyzer.AnalyzeTrigger` | lib/DependencyInferenceAnalyzer.cpp:156-162 | the context becomes a string of one character, the number modulo 256 |
| `DependencyAnalyzers.DependencyInferenceAnalyzer.RemoveAliveEvent` | lib/DependencyInferenceAnalyzer.cpp:170-175 | the event is not alive |
| `DependencyAnalyzers.DependencyInferenceAnalyzer.ProceedSEvent` | lib/DependencyInferenceAnalyzer.cpp:177-181 | an S or MAIN event comes before every new event |
| `DependencyAnalyzers.DependencyInferenceAnalyzer.ProceedMEvent` | lib/DependencyInferenceAnalyzer.cpp:184-210 | which way a pending M event and a new event are ordered, by the table of priorities |
| `DependencyAnalyzers.DependencyInferenceAnalyzer.ProceedWEvent` | lib/DependencyInferenceAnalyzer.cpp:213-235 | the same for a pending W event |
| `DependencyAnalyzers.DependencyInferenceAnalyzer.ProceedEXTEvent` | lib/DependencyInferenceAnalyzer.cpp:238-250 | the same for a pending EXT event |
| `DependencyAnalyzers.DependencyInferenceAnalyzer.AddDependencies` | lib/DependencyInferenceAnalyzer.cpp:253-282 | exactly the edges by priority with every alive event that is a node and not the current block |
| `DependencyAnalyzers.DependencyInferenceAnalyzer.ConnectWithWEvents` | lib/DependencyInferenceAnalyzer.cpp:285-323 | edges from a starting W event to every other alive W event of equal value, and no others |
| `DependencyAnalyzers.DependencyInferenceAnalyzer.PruneEdges` | lib/DependencyInferenceAnalyzer.cpp:326-350 | the two nested loops remove exactly the shortcuts past the event |
| `DependencyAnalyzers.DependencyInferenceAnalyzer.ConnectSinks` | lib/DependencyInferenceAnalyzer.cpp:78-85 | edges from the sinks to a later MAIN block |
| `Pruning.PruningKeepsReach` | lib/DependencyInferenceAnalyzer.cpp:326-350 | one pruning loses no path exactly when each edge it removes leads from something that reaches the event to something the event reaches, along edges it does not remove |
| `Pruning.PruningExactly` | lib/DependencyInferenceAnalyzer.cpp:326-350 | the pruned and the unpruned graph reach the same in every state of a run exactly when every pruning of the run meets that condition, which can be seen on the graph before it |
| `Pruning.OffCycleRunsAreSafe` | lib/DependencyInferenceAnalyzer.cpp:326-350 | they do in particular if no event lies on a cycle when its block begins |
| `Pruning.PruningPreservesMeaning` | lib/DependencyInferenceAnalyzer.cpp:326-350 | in every state of every run whose prunings meet the exact condition, the pruned and the unpruned graph reach the same, which includes every recorded pair, have the same sinks, and all else is equal |
| `Pruning.PruningIsThorough` | lib/DependencyInferenceAnalyzer.cpp:331-349 | a pruning removes every recorded happens-before edge past the event, and nothing else |
| `LinkTargets.AllTargetsExist` | lib/Graph.h:204-218 | the edges of the final graph all have existing targets exactly when the target of every link that took effect was created, before it or after |
| `LinkTargets.MissingStep` | lib/Graph.h:204-226 | which missing nodes there are edges to after a step: a new node is no longer missing, a link may lead to a missing one, pruning removes no edge to one |
| `LinkTargets.ClosedIfTargetExists` | lib/Graph.h:204-218 | of a graph whose edges are all in `before` and `after`, one step makes one with an edge that is not exactly when it is a link from an existing to a missing node |
| `LinkTargets.EdgesHaveNodes` | lib/Graph.h:204-218 | on every trace whose link targets exist when the links are made, all edges are in `before` and `after` and join distinct nodes |
| `LinkTargets.AcyclicRunsPruneSafely` | lib/DependencyInferenceAnalyzer.cpp:326-350 | if the history stays acyclic and link targets exist, no event lies on a cycle when its block begins, and every pruning meets the exact condition |
| `HistoryGrowth.HistoryGrows` | lib/DependencyInferenceAnalyzer.cpp:39-323 | exactly which pairs a step adds to `before` and `after`: some into and some out of one node |
| `Cycles.AcyclicExactly` | lib/DependencyInferenceAnalyzer.cpp:39-323 | a run of any trace is acyclic in every state exactly when no step puts something after a node that reaches something it puts before it |
| `Cycles.StepKeepsAcyclic` | lib/DependencyInferenceAnalyzer.cpp:39-323 | the same for one step, from the state before it |
| `Cycles.CreationClosesNoCycle` | lib/DependencyInferenceAnalyzer.cpp:105-136 | a creation closes no cycle exactly when nothing the new event overtakes reaches the running block, the pending event, or an event ahead of the new one |
| `Cycles.StartClosesNoCycle` | lib/DependencyInferenceAnalyzer.cpp:285-323 | the start of a block closes no cycle exactly when no alive W event of equal value reaches its W event |
| `Cycles.LinkClosesNoCycle` | lib/DependencyInferenceAnalyzer.cpp:139-153 | a link closes no cycle exactly when its target does not reach its source |
| `Cycles.MainClosesNoCycle` | lib/DependencyInferenceAnalyzer.cpp:73-87 | a MAIN block with a new identifier closes none |
| `Cycles.OtherStepsCloseNone` | lib/DependencyInferenceAnalyzer.cpp:93-94 | triggers, submitted operations, ends of blocks and skipped blocks close none |
| `Cycles.StrongEventClosesCycle` | lib/DependencyInferenceAnalyzer.cpp:177-250 | an S event closes a cycle exactly when something it overtakes reaches the running block, the pending event, or a waiting S or MAIN event |
| `Scenarios.TimersCloseCycle` | tests/node_tests/timers.exp:16-45 | a trace of this shape, with an S event created in the block that runs early, closes a cycle |
| `Scenarios.PruningLosesOrdering` | lib/DependencyInferenceAnalyzer.cpp:331-349 | a trace on which two prunings, at events on a cycle, cut a third event off from both, though the unpruned graph orders it before them; the second pruning does not meet the exact condition |
| `DanglingLinks.DanglingLinkFails` | lib/Graph.h:255-278 | a trace without file errors whose link leads to an event that is never created, and on which detection fails |
| `Pruning.RunsAgree` | lib/DependencyInferenceAnalyzer.cpp:39-153 | with and without pruning, if the prunings meet the exact condition, the analyzer makes the same decisions |
| `Pruning.SameSinks` | lib/Graph.h:287-295 | pruning changes no sink |
| `EdgeRules.CreationAdds` | lib/DependencyInferenceAnalyzer.cpp:105-282 | the edges a creation adds, by type, value and label: S and MAIN events come first, M events by value, a W event with a value before an EXT event; there is none between two W events or two EXT events, nor from a W event with value 0 |
| `EdgeRules.StartChanges` | lib/DependencyInferenceAnalyzer.cpp:285-350 | the start of a block adds edges only from a W event to alive W events of equal value, and removes just the recorded happens-before edges past the event |
| `EdgeRules.MainAdds` | lib/DependencyInferenceAnalyzer.cpp:73-87 | a MAIN block comes after the nodes without outgoing edges if an earlier MAIN block has run, else after nothing |
| `EdgeRules.LinkAdds` | lib/DependencyInferenceAnalyzer.cpp:139-153 | a link adds its edge unless its source is the running block, the context, unknown, or its own target |
| `EdgeRules.LinksAfterTrigger` | lib/DependencyInferenceAnalyzer.cpp:139-162 | after a trigger a link takes effect unless it is from the running block, or from a digit that is the character stored |
| `EdgeRules.OthersAddNone` | lib/DependencyInferenceAnalyzer.cpp:39-55 | triggers, submissions, ends and skipped blocks leave nodes and edges alone |
| `EdgeRules.RecordsWhatItAdds` | lib/Graph.h:204-226 | where all edges are recorded, a step records just the edges it adds |
| `EdgeRules.CreationStays` | lib/DependencyInferenceAnalyzer.cpp:126-136 | the edge from a block to an event it created is never pruned, and the event keeps its type and value |
| `Reruns.BeginPending` | lib/DependencyInferenceAnalyzer.cpp:63-71 | a block leaves the one before it pending exactly when it has ended before; a first beginning leaves the pending event as it was |
| `Reruns.PendingExactly` | lib/DependencyInferenceAnalyzer.cpp:63-71 | no event is ever pending exactly when no block begins again |
| `Reruns.CreatedAfterItsBlockOnly` | lib/DependencyInferenceAnalyzer.cpp:116-132 | while no block begins again, a created event comes directly after no begun event but the block that creates it |
| `Reruns.ExecutedExactly` | lib/DependencyInferenceAnalyzer.cpp:93-94 | an event is marked as executed exactly when its block has ended |
| `Reruns.PrevMainExactly` | lib/DependencyInferenceAnalyzer.cpp:78-86 | an earlier MAIN block is known exactly when one has begun |
| `Reruns.LaterMainIsBarrier` | lib/DependencyInferenceAnalyzer.cpp:73-87 | in a consistent trace, every node there is when a later MAIN block begins reaches it from then on |
| `Reruns.EmptyMainIsNothing` | lib/DependencyInferenceAnalyzer.cpp:46-48 | an empty MAIN block changes nothing |
| `Reruns.UnknownBlockIsSkipped` | lib/DependencyInferenceAnalyzer.cpp:49-54 | a block of an unknown event changes nothing but the context |
| `WaitingOrder.WaitingOrderIsExact` | lib/DependencyInferenceAnalyzer.cpp:177-282 | in every state of a consistent trace in which no link joins two waiting events, one waiting event reaches another exactly as type, value and age say, with no ordering among W events, among EXT events, or from a W event with value 0 to an EXT event |
| `WaitingOrder.WaitingEventsExactly` | lib/DependencyInferenceAnalyzer.cpp:139-282 | with links, exactly by steps of that order and links between waiting events |
| `Acyclicity.ConsistentTracesAreAcyclic` | lib/DependencyInferenceAnalyzer.cpp:39-153 | every consistent trace, with re-executions and later MAIN blocks, keeps the history acyclic in every state and has existing link targets |
| `Acyclicity.MainKeepsOrder` | lib/DependencyInferenceAnalyzer.cpp:73-87 | a new MAIN block that begins while nothing is alive keeps the order |
| `Acyclicity.NextKeepsOrder` | lib/DependencyInferenceAnalyzer.cpp:39-323 | every consistent step keeps the order: begun events by when they began, then waiting events by rank, value and age |
| `Acyclicity.PrioritiesOrder` | lib/DependencyInferenceAnalyzer.cpp:177-250 | the table of priorities agrees with the order of waiting events |
| `Acyclicity.NewEventHistory` | lib/DependencyInferenceAnalyzer.cpp:105-136 | the history after the creation of an event, edge by edge |
| `Acyclicity.RegularKeepsOrder` | lib/DependencyInferenceAnalyzer.cpp:50-72 | starting a block that no other alive event precedes keeps the order |
| `Acyclicity.LinkKeepsOrder` | lib/DependencyInferenceAnalyzer.cpp:139-153 | a consistent link keeps the order |
| `Orderings.OrderingStays` | lib/DependencyInferenceAnalyzer.cpp:326-350 | what the pruned graph orders in one state it orders in every later one |
| `Orderings.LinkOrderStays` | lib/DependencyInferenceAnalyzer.cpp:139-153 | a link that takes effect orders its source before its target from then on, even if the target is created later |
| `Orderings.MainIsBarrier` | lib/DependencyInferenceAnalyzer.cpp:73-87 | on an acyclic graph whose edges have existing targets, every node reaches a later new MAIN block when it starts, and the graph stays acyclic |
| `Orderings.MainBarrierStays` | lib/DependencyInferenceAnalyzer.cpp:73-87 | and those nodes reach it in every later state of the run |
| `Orderings.WaitingEventsQueue` | lib/DependencyInferenceAnalyzer.cpp:177-282 | in every state of a consistent trace the waiting S and M events are a priority queue, ordered among themselves and against W and EXT events exactly by rank, value and age; a W event with a value precedes later EXT events; no path leads backwards |
| `Orderings.ConsistentTraceTheorem` | lib/DependencyInferenceAnalyzer.cpp:39-95 | every consistent trace has an acyclic history, and the pruned and unpruned graphs reach the same |
| `Orderings.ObservedOrderStays` | lib/DependencyInferenceAnalyzer.cpp:51-61 | W events of equal value run in the order observed, from then on |
| `Orderings.CreationOrderStays` | lib/DependencyInferenceAnalyzer.cpp:111-129 | an event comes after the block that created it and after the pending event, from then on |
| `Orderings.RerunOrders` | lib/DependencyInferenceAnalyzer.cpp:63-71 | when a block that has ended begins again, the block that ran in between is ordered before the first event then created |
| `Orderings.CreationOrders` | lib/DependencyInferenceAnalyzer.cpp:111-129 | the creation of an event orders it after the creating block and after the pending event |
| `Reachability.SomeSink` | lib/Graph.h:287-295 | every node of a finite acyclic graph reaches a sink |
| `DependencyModel.SkippedExprs` | lib/DependencyInferenceAnalyzer.cpp:46-54 | the expressions of a skipped block change nothing |
| `RaceDetectors.Get2Combinations` | lib/Utils.h:23-32 | the two nested loops give every element with itself and each later one, in order |
| `RaceDetectors.InCombinations` | lib/Utils.h:23-32 | which pairs those are |
| `RaceDetectors.RaceDetector.constructor` | lib/RaceDetector.h:70-75 | an empty memo over a fixed graph, of any shape |
| `RaceDetectors.RaceDetector.QueryHappensBefore` | lib/RaceDetector.cpp:43-65 | the answer equals the definition without a memo, and fails exactly when the search does; every memo stays exactly what its key reaches |
| `RaceDetectors.RaceDetector.HasDependency` | lib/RaceDetector.cpp:92-97 | the second query is made only if the first says no: whether the accesses race, or a query fails |
| `RaceDetectors.RaceDetector.CompareTwo` | lib/RaceDetector.cpp:76-113 | one pair of accesses: skipped, ordered, or added to the faults |
| `RaceDetectors.RaceDetector.CompareAccesses` | lib/RaceDetector.cpp:73-114 | the inner loop finds exactly the racy pairs of one path |
| `RaceDetectors.RaceDetector.GetFaults` | lib/RaceDetector.cpp:68-117 | on every graph: fails exactly when some comparison does; otherwise the fault table holds exactly the racy pairs of the access table, each pair of events once for each path |
| `RaceDetectors.RaceDetector.HasConflict` | lib/RaceDetector.cpp:31-40 | two accesses conflict unless both consume |
| `RaceDetectors.FaultAdded` | lib/RaceDetector.cpp:99-113 | inserting into a set that compares paths only neither loses a path nor repeats one |
| `FaultReport.ReportIsExact` | lib/RaceDetector.cpp:68-117 | (a, b) is reported with p exactly when a < b, both have a net access to p, one is not a consume, and neither happens before the other; no pair is listed in both orders |
| `FaultReport.FailureIsExact` | lib/RaceDetector.cpp:68-117 | detection fails on the table exactly when it does on the net accesses |
| `FaultReport.PruningKeepsTheReport` | lib/RaceDetector.cpp:43-65 | the races are the same with pruning switched off, if the prunings meet the exact condition |
| `FaultReport.ConsistentReport` | lib/RaceDetector.cpp:43-65 | for consistent traces without further premise |
| `FileAccess.GroupByPath` | lib/FSAnalyzer.cpp:19-32 | every path gets all its accesses, in the order of their events |
| `FileAccess.LessIsLexicographic` | lib/FSAnalyzer.cpp:19-32 | the order of identifiers is the one of `std::string`: the first difference decides, or else the length |
| `InodeTables.InodeTable.constructor` | lib/InodeTable.h:30-33 | a table that binds the root |
| `InodeTables.InodeTable.AddNewEntry` | lib/InodeTable.cpp:9-12 | binds the name to the next inode |
| `InodeTables.InodeTable.AddEntry` | lib/InodeTable.cpp:15-25 | binds the name and records the path, keeping other paths of the inode |
| `InodeTables.InodeTable.PopEntry` | lib/Table.h:26-33 | returns and unbinds a key that is bound |
| `InodeTables.InodeTable.RemoveEntry` | lib/InodeTable.cpp:28-67 | nothing without one parent path; unlinked while open; otherwise unbound and its path forgotten |
| `InodeTables.InodeTable.OpenInode` | lib/InodeTable.cpp:76-87 | the counter goes up and the key is linked |
| `InodeTables.InodeTable.CloseInode` | lib/InodeTable.cpp:90-132 | the counter goes down; the last close of an unlinked key removes it |
| `InodeTables.InodeTable.ToInode` | lib/InodeTable.cpp:135-154 | the inode of an absolute path, with missing names bound to fresh inodes; it terminates |
| `InodeTables.InodeTable.ToPath` | lib/InodeTable.cpp:157-173 | the path of an inode that has exactly one |
| `InodeTables.InodeTable.ToPaths` | lib/InodeTable.cpp:176-183 | the recorded paths |
| `InodeModel.StableAllocator` | lib/InodeTable.cpp:135-154 | a second call returns the same and changes nothing, paths that resolved still do, and one inode is used for each component that did not resolve |
| `InodeModel.MissingAreTrailing` | lib/InodeTable.cpp:135-154 | components that do not resolve are the trailing ones |
| `InodeRuns.UnlinkIsDeferred` | lib/InodeTable.cpp:28-132 | a bound key unlinked while open n times resolves to its inode through the first n - 1 closes, whatever happens to other keys |
| `InodeRuns.LastCloseUnbinds` | lib/InodeTable.cpp:114-124 | the n-th close unbinds it exactly when its parent has one recorded path |
| `InodeRuns.ReverseIndexIsExact` | lib/InodeTable.cpp:9-183 | in every state of a run the recorded paths of an inode are exactly the paths that resolve to it, if and only if every operation of the run is careful |
| `InodeRuns.ApplyIsExact` | lib/InodeTable.cpp:9-183 | one operation keeps the reverse table exact exactly when it is careful, which can be seen on the table before it |
| `InodeRuns.AddIsExact` | lib/InodeTable.cpp:9-25 | an addition does exactly when its path is not the root, a bound name is bound to its own inode again, and a new one goes under an inode with one path, which is not the inode it names, and names one with nothing under it |
| `InodeRuns.RemoveIsExact` | lib/InodeTable.cpp:28-67 | a removal does exactly when the name is open or unbound, its parent has several recorded paths or none, or nothing is under it |
| `InodeRuns.CloseIsExact` | lib/InodeTable.cpp:90-132 | a close does exactly when it removes no name or one with nothing under it |
| `InodeRuns.ResolveIsExact` | lib/InodeTable.cpp:135-154 | resolving a path does exactly when the first missing name goes under an inode with one path |
| `InodeRuns.FreshIsExactIfUnbound` | lib/FSAnalyzer.cpp:149-151 | binding a name to a fresh inode keeps the reverse table exact exactly when the name was unbound |
| `InodeRuns.WalkAfterAdd` | lib/InodeTable.cpp:15-25 | what a new name makes resolve |
| `InodeRuns.WalkAfterRemove` | lib/InodeTable.cpp:28-67 | what a removed name makes vanish |
| `OpenNames.OpeningKeepsName` | lib/InodeTable.cpp:76-132 | as long as a bound name is not removed or bound again, opens and closes leave it bound to its inode, linked while it is open, with the exact count, whatever happens to other keys |
| `OpenNames.ReopeningCancelsUnlink` | lib/InodeTable.cpp:76-132 | opening a name again after it was unlinked while open takes the unlink back |
| `OpenNames.ClosingKeepsName` | lib/FSAnalyzer.cpp:140-168 | opening a file and closing its descriptor leaves names and recorded paths as they were while it was open |
| `InodeRename.RenameCarriesSubtree` | lib/FSAnalyzer.cpp:230-255 | every path below the new name resolves as it did below the old one; the old name is gone exactly when it was not open and its parent has one recorded path; nothing else moves |
| `InodeRename.SubtreeMoves` | lib/FSAnalyzer.cpp:241-254 | walks below the new name go as below the old one |
| `InodeRename.ResolutionIsLocal` | lib/InodeTable.cpp:135-154 | resolving a path changes only paths through the names it binds |
| `FsAnalyzers.FSAnalyzer.constructor` | lib/FSAnalyzer.h:59-63 | empty tables |
| `FsAnalyzers.FSAnalyzer.Analyze` | lib/FSAnalyzer.cpp:15-35 | the tables after a trace are those of the model, and the accesses are grouped by path |
| `FsAnalyzers.FSAnalyzer.AnalyzeTrace` | lib/FSAnalyzer.cpp:38-58 | the working directory, then groups of operations, then blocks |
| `FsAnalyzers.FSAnalyzer.AnalyzeExecOps` | lib/FSAnalyzer.cpp:48-51 | the table of operation groups |
| `FsAnalyzers.FSAnalyzer.AnalyzeBlocks` | lib/FSAnalyzer.cpp:53-56 | the blocks in order |
| `FsAnalyzers.FSAnalyzer.AnalyzeBlock` | lib/FSAnalyzer.cpp:69-78 | the expressions in order |
| `FsAnalyzers.FSAnalyzer.AnalyzeExpr` | lib/FSAnalyzer.cpp:81-93 | new events are remembered, submitted operations are run |
| `FsAnalyzers.FSAnalyzer.AnalyzeSubmitOp` | lib/FSAnalyzer.cpp:96-120 | on whose behalf operations run: the current block, or the event named by the identifier |
| `FsAnalyzers.FSAnalyzer.AnalyzeOperations` | lib/FSAnalyzer.cpp:114-117 | the operations in order |
| `FsAnalyzers.FSAnalyzer.AnalyzeOperation` | lib/FSAnalyzer.cpp:123-127 | dispatch on the operation |
| `FsAnalyzers.FSAnalyzer.AnalyzeNewFd` | lib/FSAnalyzer.cpp:130-155 | nothing on failure; otherwise the name is bound to a fresh inode, opened, and held by the descriptor |
| `FsAnalyzers.FSAnalyzer.AnalyzeDelFd` | lib/FSAnalyzer.cpp:158-168 | the descriptor goes and its key is closed |
| `FsAnalyzers.FSAnalyzer.AnalyzeHpath` | lib/FSAnalyzer.cpp:171-191 | the effect is recorded for the path, or for the target if it names a symbolic link |
| `FsAnalyzers.FSAnalyzer.AnalyzeHpathSym` | lib/FSAnalyzer.cpp:194-207 | the effect is recorded for the path itself |
| `FsAnalyzers.FSAnalyzer.AnalyzeLink` | lib/FSAnalyzer.cpp:210-227 | the new name is bound to the inode of the old one |
| `FsAnalyzers.FSAnalyzer.AnalyzeRename` | lib/FSAnalyzer.cpp:230-255 | the new name is bound, the old one removed, unless both name one inode already |
| `FsAnalyzers.FSAnalyzer.AnalyzeSymlink` | lib/FSAnalyzer.cpp:258-269 | the inode of the link remembers the target |
| `FsAnalyzers.FSAnalyzer.ProcessPathEffect` | lib/FSAnalyzer.cpp:272-295 | the access is recorded, and an expunged path is unlinked |
| `FsAnalyzers.FSAnalyzer.GetParentDir` | lib/FSAnalyzer.cpp:298-331 | the working directory, or the directory a descriptor holds, if it has one path |
| `FsAnalyzers.FSAnalyzer.GetAbsolutePath` | lib/FSAnalyzer.cpp:334-344 | an absolute path as it is, a relative one under its directory |
| `FsAnalyzers.FSAnalyzer.AddPathEffect` | lib/FSAnalyzer.cpp:406-450 | the net effect after one more access |
| `Descriptors.DescriptorsAreConserved` | lib/FSAnalyzer.cpp:130-168 | over every run with fresh new and known dropped descriptors, each open counter is the number of descriptors bound to its key, none is zero, and they add up to the number of descriptors, whatever unlinks and renames come between |
| `Descriptors.NewDescriptorConserves` | lib/FSAnalyzer.cpp:148-154 | a new descriptor keeps this exactly when it was not in use |
| `Descriptors.HandleConserves` | lib/FSAnalyzer.cpp:123-295 | every operation keeps it |
| `Descriptors.SumCountsHolders` | lib/InodeTable.cpp:76-132 | the counters of any keys add up to the descriptors that hold them |
| `NetEffects.NetEffectIsClosedForm` | lib/FSAnalyzer.cpp:406-450 | folding accesses gives produced, expunged, consumed or nothing by a closed form, and keeps the last access with that effect |
| `NetEffects.TableHoldsNetAccesses` | lib/FSAnalyzer.cpp:406-450 | however accesses are interleaved, the table holds for each event and path the net access |
| `NetEffects.RunHoldsNetAccesses` | lib/FSAnalyzer.cpp:272-295 | after every run, the table holds the net access of all that was recorded |
| `FsTables.TraceIsTableRun` | lib/FSAnalyzer.cpp:116-268 | what a trace does to the inode table is a run of table operations whose arguments match: each key belongs to a path whose parent resolves to its inode |
| `FsTables.TraceTableIsExact` | lib/FSAnalyzer.cpp:116-268 | while any trace is analysed, the reverse table is exact after every table operation exactly when each of them is careful |
| `FsTables.RunIsWellFormed` | lib/FSAnalyzer.cpp:38-58 | in every state of every run, no inode occurs before it is given out |
| `FsNames.HardLinkAliases` | lib/FSAnalyzer.cpp:210-227 | after a hard link both names resolve to one inode, which records the new path; nothing else moves |
| `FsNames.SymlinkIsFollowed` | lib/FSAnalyzer.cpp:181-190 | an access through a symbolic link is recorded for its target |
| `FsNames.SubmittedOnBehalf` | lib/FSAnalyzer.cpp:106-113 | operations of `async_n` act on behalf of event n, synchronous ones on behalf of the current block |
| `FsNames.RelativeToDescriptor` | lib/FSAnalyzer.cpp:298-344 | a path relative to a new descriptor lies in the directory it was opened on, unless the descriptor is 0, which means the working directory |
| `FsNames.PathReadsBack` | lib/FSAnalyzer.cpp:334-337 | the components of an absolute path come back from its text |
| `FsNames.StartsInWorkingDirectory` | lib/FSAnalyzer.cpp:42-46 | at the start a relative path lies in the working directory, for which descriptor 0 stands |
| `FsNames.RelativeReadsBack` | lib/FSAnalyzer.cpp:334-337 | the components of a relative path come back from its text |
| `Submissions.TraceRunsItsSubmissions` | lib/FSAnalyzer.cpp:62-117 | the operations of a trace are those of the groups it submits, in order, synchronous ones for their block and asynchronous ones for the event in their identifier, with the tags known by then |
| `Submissions.SubmissionRunsGroup` | lib/FSAnalyzer.cpp:96-117 | a submission of either kind runs every operation of the last group of that name, in place and for one event |
| `Submissions.AsyncActsFor` | lib/FSAnalyzer.cpp:106-113 | `async_n` acts for event n, `sync_n` for its block |
| `TimersTest.ExpectedEdges` | tests/node_tests/timers.exp:16-44 | the trace of this test of the repository gives exactly the dependency edges the test expects |
| `TimersReport.ExpectedAccesses` | tests/node_tests/timers.exp:2-49 | and the accesses to `tmp` it expects, with tags and operation names |
| `TimersReport.ExpectedRace` | tests/node_tests/timers.exp:51-57 | and exactly the one race it expects; detection does not fail |
| `TimersText.TimersDump` | tests/node_tests/timers.exp:2-38 | the text written for that trace, line by line |
| `TimersText.TimersParse` | tests/node_tests/timers.exp:2-38 | reading that text gives the trace |
| `TimersText.OtherOperations` | lib/Operation.h:64-394 | the text of the operations that test does not use |
| `TimersText.OtherWords` | lib/Trace.cpp:14-29 | the text of S and M events, and of a failure |
| `TraceLexer.ScanIsLongestMatch` | tools/fsracer/TraceLexer.l:36-82 | scanning by the first character applies the rule with the longest match, the earliest among equals |
| `TraceLexer.TextIsKeyword` | tools/fsracer/TraceLexer.l:46-71 | each keyword is recognised as itself |
| `TraceLexer.LexWord` | tools/fsracer/TraceLexer.l:36-75 | a word before a delimiter is one token |
| `TraceLexer.LexNumber` | tools/fsracer/TraceLexer.l:74-74 | a number before a non-digit is one token |
| `TraceLexer.BlanksAreSkipped` | tools/fsracer/TraceLexer.l:36-37 | spaces, tabs, carriage returns and line ends make no token |
| `TracePrinter.DumpTrace` | lib/Analyzer.cpp:13-142 | dumping a trace gives its text form |
| `TracePrinter.DumpAnalyzer.constructor` | lib/Analyzer.h:98-102 | an empty buffer |
| `TracePrinter.DumpAnalyzer.AnalyzeTrace` | lib/Analyzer.cpp:22-43 | the buffer grows by the header, the groups and the blocks, and the counters count them |
| `TracePrinter.DumpAnalyzer.AddHeader` | lib/Analyzer.cpp:26-32 | the header |
| `TracePrinter.DumpAnalyzer.AnalyzeBlock` | lib/Analyzer.cpp:46-65 | the text of a block; an empty MAIN block leaves no trace |
| `TracePrinter.DumpAnalyzer.AnalyzeExpr` | lib/Analyzer.cpp:68-120 | the line of an expression |
| `TracePrinter.DumpAnalyzer.AnalyzeExecOp` | lib/Analyzer.cpp:84-91 | the text of a group of operations |
| `TracePrinter.DebugInfoToString` | lib/Trace.cpp:95-101 | the meta variables, each after ` !` |
| `TracePrinter.ExprToString` | lib/Trace.cpp:14-46 | the line of an expression: its words and its meta variables |
| `TracePrinter.ExecOpToString` | lib/Trace.cpp:74-82 | the lines of a group of operations |
| `TraceDrivers.AddOperationDebugInfo` | tools/fsracer/TraceGeneratorDriver.cpp:12-24 | the last name wins and `failed` is a flag, wherever it stands |
| `TraceDrivers.TraceGeneratorDriver.constructor` | tools/fsracer/TraceGeneratorDriver.cpp:27-32 | an empty trace |
| `TraceDrivers.TraceGeneratorDriver.Operations` | tools/fsracer/TraceParser.y:123-170 | the operations of a group are pushed in order |
| `TraceDrivers.TraceGeneratorDriver.OpDef` | tools/fsracer/TraceParser.y:108-120 | a group is added and what was pushed is cleared |
| `TraceDrivers.TraceGeneratorDriver.OpDefs` | tools/fsracer/TraceParser.y:103-105 | the groups in order |
| `TraceDrivers.TraceGeneratorDriver.Exprs` | tools/fsracer/TraceParser.y:213-250 | the expressions of a block are pushed in order |
| `TraceDrivers.TraceGeneratorDriver.BlockDef` | tools/fsracer/TraceParser.y:189-210 | a block is added and what was pushed is cleared; a MAIN block has an expression |
| `TraceDrivers.TraceGeneratorDriver.BlockDefs` | tools/fsracer/TraceParser.y:184-186 | the blocks in order |
| `TraceDrivers.TraceGeneratorDriver.Program` | tools/fsracer/TraceParser.y:92-100 | a program is accepted exactly when the grammar has it, and gives its trace |
| `TraceDrivers.ParseText` | tools/fsracer/TraceGeneratorDriver.cpp:50-63 | the trace of a text, if it has one |
| `DumpTokens.LexDump` | lib/Analyzer.cpp:22-142 | the lexer makes of a dump exactly the tokens of its parts |
| `DumpTokens.LexLine` | tools/fsracer/TraceLexer.l:36-75 | the tokens of a printed line |
| `DumpTokens.LexOp` | lib/Operation.h:69-394 | the tokens of a printed operation |
| `DumpTokens.LexExpr` | lib/Trace.cpp:14-128 | the tokens of a printed expression |
| `DumpTokens.NameFacts` | tools/fsracer/TraceLexer.l:46-75 | what lexes as one IDENTIFIER is no keyword |
| `DumpTokens.NamesExactly` | tools/fsracer/TraceLexer.l:19-75 | exactly which words lex as a name, by their characters, the keywords and the identifiers of groups |
| `RoundTrip.DumpIsInjective` | lib/Analyzer.cpp:22-142 | printable traces with the same dump are equal up to empty MAIN blocks, whatever parts they lack |
| `RoundTrip.ParseOfDump` | tools/fsracer/TraceParser.y:92-270 | parsing the dump of a printable trace gives it back without its empty MAIN blocks, exactly when operations and dumped blocks are both there or both missing; otherwise it fails |
| `RoundTrip.OperParses` | tools/fsracer/TraceParser.y:128-170 | every printable operation comes back |
| `RoundTrip.ExprParses` | tools/fsracer/TraceParser.y:218-257 | every printable expression comes back |
| `RoundTrip.BlockParses` | tools/fsracer/TraceParser.y:189-210 | every dumped block comes back |
| `RoundTrip.MarksParse` | tools/fsracer/TraceParser.y:263-270 | meta variables come back, `rename` in the first place included |
| `RoundTrip.MarksGiveOperation` | tools/fsracer/TraceGeneratorDriver.cpp:12-24 | the actual name and the failure of an operation come back from its meta variables |
| `RoundTrip.LastMarkNames` | tools/fsracer/TraceGeneratorDriver.cpp:12-24 | of any meta variables the last that is not `failed` is the actual name, and `failed` among them marks the operation |

## Left out

- tools/drfsracer, lib/Debug, lib/OutWriter, timers, command-line options and the set-up in lib/Processor: plumbing, or code over raw memory.
- DOT, CSV and JSON output, and printing the report: they only format what is computed here.
- Operations dupFd, newProc, setCwd and nop: the grammar has no rule for them and no analyzer handles them.
- Null pointers: every analyzer ignores a null argument; the model has none.
- Paths: `fs::path` is modelled by the component names of a normalised path. Trailing slashes, `.` and `..` are not; identifiers and paths are sequences of characters, not bytes.
- Reading a symbolic link's target more than once, and targets that are relative: the source looks a link up once and records the target as it is written, and so does the model; expunging through a relative target, on which the source does not end, is excluded by `FsModel.Defined`.
- Undefined behaviour and exceptions: dropping a descriptor or removing a name that is not there, and accesses of an event that was never created, are excluded by `FsModel.Defined`. Dropping a descriptor that is not in use returns no value in the source (lib/Table.h:26-33).
- Acyclicity.ConsistentTracesAreAcyclic: consistency is sufficient, not necessary; the exact condition is that of `Cycles.AcyclicExactly`.
- What the reverse table holds once an operation that is not careful has made it stale: `InodeRuns.ApplyIsExact` says which operation is the first to do so.
- InodeRename.RenameCarriesSubtree: speaks of the table of names; the paths recorded for descendants of a renamed directory are not updated by the source.
- RaceDetectors.RaceDetector.GetFaults: paths are visited in any order; the source's order is that of `std::map`, on which the report does not depend.
- DependencyAnalyzers.DependencyInferenceAnalyzer.AddDependencies: alive events are visited in any order, and so are the neighbours in the other loops over sets.
- FileAccess.GroupByPath: keys are visited in any order that meets the events of each path in their order.
- TraceDrivers.TraceGeneratorDriver.Program: a syntax error or an overflow gives no trace; the partly filled trace and the error messages of the source are not modelled.
- TraceLexer.ScanIsLongestMatch: the location in the text, kept for error messages, is not modelled.
- Memory limits of `size_t` and `int` other than in `std::stoi`: counters and inodes are unbounded.
- The identifier stored inside a node and the timing of the analyses: no result depends on them.
