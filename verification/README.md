# Verified models of the orchestration, hash table and service discovery cores

This project models, in Dafny, the parts of the serving infrastructure in `orc/`, `qed/` and `leader/`
whose correctness is not visible from any single function, and proves what they promise for all inputs,
all runs and all interleavings.

- **Workflows** (`Workflow*.dfy`). The structured language is a datatype with a big-step semantics:
  given the results of the handlers it says which handlers are called, in which order. The compiler is
  modelled as it is written, with labels that collect unfinished edges and patch them later. It is proved
  to lay out exactly one graph, and walking that graph is proved to run the structured program, for every
  sequence of results and so also for every finite prefix of a run that never ends. `WorkflowLaws.dfy` gives the
  laws of the semantics itself. What `CheckValid` accepts is characterised on the syntax.
- **Execution** (`ExecutionGraph*.dfy`, `Context.dfy`, `AsyncRun.dfy`, `Orchestration.dfy`). The graph keyed
  by handler names, its clones, the stepping context, and the hand-over of an asynchronous step between
  threads as a state machine. The last file joins compiler, graph and interleaving into one statement.
- **QED** (`Qed*.dfy`). The hash table with chains through two arrays: one table as a value with its chain
  invariant, the builder as a class over arrays, relocation, and a machine whose steps are the single writes of
  an insertion, with readers and with several workers. `QedAlone.dfy` shows that an insertion left alone is the one
  on values, and `QedFirstKeys.dfy` which lookups are right while a home gets its first key. `QedPacked.dfy` says the
  same of buckets packed into a byte and a word, and `QedLimits.dfy` and `QedCapacity.dfy` show where the table stops
  being a map.
- **Trie** (`Trie*.dfy`). The linked trie, the flat buffer in both layouts, and lookup in it.
- **Cache, discovery, thread pool** (`RecencyList.dfy`, `LocalCache.dfy`, `NodeCollection.dfy`,
  `HeartbeatRemoval.dfy`, `TaskQueue.dfy`, `PoolShutdown.dfy`, `PoolLimits.dfy`). `Collections.dfy` and
  `Division.dfy` hold general facts.

`dafny verify dfyconfig.toml` checks everything.

## Where the code and its comments differ

- The grammar accepts `else if`, but `CompileBlock` demands a statement list, so a workflow that uses it is
  rejected (`SupportedStmt`).
- A bucket is documented to hold up to 127 keys, and a full one is said to be detected. The comparison is
  with a size byte whose flag is set; on the 128th key of a home whose flag is clear the byte runs over and
  the home reads as empty. `LimitIsExact` and `OverflowLosesHome` state exactly when, and `FullHomeIsLost`
  gives 128 insertions after which a whole home is lost.
- The comment of the execution graph's `BuildNode` speaks of a node that has been built already; it looks by
  handler name. `BuildIsFaithful` says exactly for which graphs that is right, and `CalledTwiceNeverEnds`
  gives a workflow of two calls that is accepted and goes on for ever.
- The graph check is to make sure that all added nodes have both edges, but of the nodes it met and the nodes
  added it only compares the numbers. `SizeTestIsExact` says when that is enough, and `ForeignNodePasses` gives a
  graph for which it is not.
- Concurrency is said to be safe if every key is inserted by its worker. The outcome is that of one thread as long
  as the free buckets cover all keys; `CoverageIsExact` states that bound, and `TwoHomesClash` gives two workers
  whose order shows when it is exceeded.
- The first key of a home is filled in last so that readers always see a valid payload, but the size is set before
  it. A lookup that meets the size and no key takes the bucket for that of the key without high bits.
  `LookupIsExact` says which lookups that concerns, and that all others are right.
- A server that a heartbeat lists twice for one path stays listed once when it is blacklisted (`UpdateBadNode`).
- The dense trie layout compares only one child offset per node with the limit of the offset type, and a
  gap between two children leads back to the root. `StrongFindsIffOffsetsFit` and `StrongRejectsIffNoGaps`
  state exactly when lookups are right all the same. `StrongBuildMayTruncate` gives maps whose buffer is cut off,
  and `GapFindsRoot` one where an absent text is found.

## Premises

- QED: one `Reserve` on a fresh table; at most 127 distinct keys per home bucket; insertions come before
  relocations. The first is how a `Start` table looks, the others are explicit in the statements.
- QED, for "nothing is refused" and "workers act like one": the free buckets cover the keys. Every key but the
  first of its home needs one, so the condition is that the keys do not outnumber the buckets and the homes in use
  together (`EnoughFree`). It is exact: `CapacityIsExact` for one thread, `CoverageIsExact` for any interleaving.
- Trie: keys of characters 1 to 127, in the order of `std::map`, and a platform that stores numbers with the
  low byte first.
- Cache: a capacity of at least one; retention also needs a clock that does not go backwards.
- Thread pool: no work is added after the shutdown begins, and there is room for the stop tasks: in every queue
  but the first for all of them, and in the first, if there are workers, for all but one. That is exactly what is
  needed whatever the workers are doing (`RoomIsExact`).
- RPC: a client group that is asked has clients. `EmptyGroupHangs` shows what happens without.
- Concurrency is modelled as interleavings of atomic steps on shared memory that all threads see alike.
  Parameters stand for handler results, RPC answers, clock readings and child lists from ZooKeeper.

## Model

| member | source | states |
|---|---|---|
| `WorkflowCompiler.Label.AddEdge` | orc/workflow/compiler.cc:30-32 | one more edge waits, behind those already waiting |
| `WorkflowCompiler.Label.Attach` | orc/workflow/compiler.cc:36-45 | exactly the waiting edges point at the target and none waits any more |
| `WorkflowCompiler.Label.Append` | orc/workflow/compiler.cc:47-52 | the edges of the other label wait here, behind the own ones, and no longer there |
| `WorkflowCompiler.CompileExp` | orc/workflow/compiler.cc:91-137 | one node; a plain name leaves its true edge in the label in front and its false edge in the other, and every `not` exchanges them |
| `WorkflowCompiler.CompileCallStmt` | orc/workflow/compiler.cc:139-150 | both edges of the call wait behind it, and what waited before it points at it |
| `WorkflowCompiler.CompileStmt` | orc/workflow/compiler.cc:283-304 | every statement appends its laid out fragment, attaches what waited and leaves its own exits waiting; it fails exactly on `else if` |
| `WorkflowCompiler.CompileIf` | orc/workflow/compiler.cc:158-205 | the fragment of a conditional with or without the other branch, both branches leaving to the same place |
| `WorkflowCompiler.CompileThen` | orc/workflow/compiler.cc:165-186 | condition and first branch, with only the failing edge of the condition still open |
| `WorkflowCompiler.CompileElse` | orc/workflow/compiler.cc:188-200 | the failing edge enters the other branch, or waits behind the statement if there is none |
| `WorkflowCompiler.CompileWhile` | orc/workflow/compiler.cc:207-242 | the body returns to the condition and only the failing edge leaves |
| `WorkflowCompiler.CompileDoWhile` | orc/workflow/compiler.cc:244-281 | the condition follows the body and goes back to its start or leaves |
| `WorkflowCompiler.CompileLoopEnd` | orc/workflow/compiler.cc:261-279 | the condition behind a body, with its edges patched |
| `WorkflowCompiler.CompileBlock` | orc/workflow/compiler.cc:306-338 | a whole block as one fragment: entry, nodes and exits, and failure exactly if some compiled statement is unsupported |
| `WorkflowCompiler.CompileStmts` | orc/workflow/compiler.cc:309-333 | the statements up to the first `return`, each entered from the exits of the one before |
| `WorkflowLayout.PatchBlock` | orc/workflow/compiler.cc:36-45 | pointing the exits of a compiled block at a target gives the block laid out for that target |
| `WorkflowLayout.BlockCut` | orc/workflow/compiler.cc:330-332 | nothing behind a `return` contributes nodes, exits or errors |
| `WorkflowLaws.CallRuns` | orc/workflow/compiler.cc:139-150 | a call runs the named handler, under any number of negations, and goes on whatever it returns |
| `WorkflowLaws.ConditionDecides` | orc/workflow/compiler.cc:91-104 | a true result of the condition runs the block, a false one the other block |
| `WorkflowLaws.NotExchanges` | orc/workflow/compiler.cc:106-121 | a negation exchanges the branches |
| `WorkflowLaws.OtherBranches` | orc/workflow/compiler.cc:188-200 | a missing branch is an empty one, and `else if` means a block of one statement |
| `WorkflowLaws.SequenceRuns` | orc/workflow/compiler.cc:306-338 | statements run one after another, and nothing runs behind a `return` |
| `WorkflowLaws.WhileUnrolls` | orc/workflow/compiler.cc:207-242 | a loop is its body and the loop again, under its condition |
| `WorkflowLaws.DoWhileUnrolls` | orc/workflow/compiler.cc:244-281 | a `do` loop is its body and then the loop with the test in front |
| `WorkflowLaws.CompiledCondition` | orc/workflow/compiler.cc:91-104 | in the graph, the true edge of a plain condition leads to the first node of its block and the false edge to the other block or behind the statement |
| `WorkflowLaws.CompiledNegation` | orc/workflow/compiler.cc:106-121 | and under a negation the other way round |
| `WorkflowLaws.ResultChoosesEdge` | orc/framework/context.cc:84-88 | walking takes the true edge for a true result |
| `WorkflowCorrectness.WalkIf` | orc/workflow/compiler.cc:158-205 | walking the fragment of a conditional follows its semantics, for finished, suspended and returned runs |
| `WorkflowCorrectness.WalkWhile` | orc/workflow/compiler.cc:207-242 | the same for `while`, however often it goes round |
| `WorkflowCorrectness.WalkDoWhile` | orc/workflow/compiler.cc:244-281 | the same for `do while` |
| `WorkflowCorrectness.WalkBlock` | orc/workflow/compiler.cc:306-338 | the same for blocks, including those cut off by `return` |
| `WorkflowCorrectness.CompiledRunsProgram` | orc/workflow/compiler.cc:91-378 | for all handler results the graph calls the handlers of the structured program in its order, and is at its end exactly when the program is over |
| `WorkflowProgram.CompileWorkflow` | orc/workflow/compiler.cc:340-378 | accepts exactly new names with acceptable blocks; the stored graph is sound and runs its workflow; a failure changes nothing |
| `WorkflowProgram.CompileInner` | orc/workflow/compiler.cc:380-393 | adds workflows to the table it is given until one fails; a file is accepted exactly if its names differ, are not taken and all its workflows are acceptable; every graph added runs its workflow, and the others stay |
| `WorkflowProgram.AcceptedRuns` | orc/workflow/compiler.cc:340-378 | the graph of every accepted workflow runs the workflow |
| `WorkflowGraphCheck.Graph.CheckNode` | orc/workflow/graph.cc:12-35 | the search ends on cyclic graphs, meets only reachable nodes, is closed under edges if it succeeds, and names a reachable broken node if it fails |
| `WorkflowGraphCheck.Graph.CheckEntry` | orc/workflow/graph.cc:37-44 | whether the entry is one of the graph's own nodes |
| `WorkflowGraphCheck.Graph.CheckValid` | orc/workflow/graph.cc:46-67 | accepts exactly if the entry is an own node, as many nodes are within reach of it as there are own nodes, and these have both edges; without an entry exactly the empty graph |
| `WorkflowGraphCheck.AllOwned` | orc/workflow/graph.cc:46-67 | for a graph whose edges lead to own nodes only, that means that every node is reachable and has both edges |
| `WorkflowGraphCheck.SizeTestIsExact` | orc/workflow/graph.cc:58-64 | of a graph that passes, the nodes within reach are its own ones if and only if its edges keep to them, because only sizes are compared |
| `WorkflowGraphCheck.ForeignNodePasses` | orc/workflow/graph.cc:58-64 | a graph with an edge to another graph's node and an own node nothing leads to passes |
| `WorkflowGraphCheck.ReachedAreChecked` | orc/workflow/graph.cc:22-32 | a closed search misses no reachable node |
| `WorkflowGraphCheck.SearchIsComplete` | orc/workflow/graph.cc:12-35 | a search that succeeds has met exactly the nodes within reach |
| `WorkflowAcceptance.AcceptanceIsExact` | orc/workflow/graph.cc:46-67 | a workflow with nodes passes the check if and only if no compiled block is empty or starts with `return` and every compiled handler is reached by falling through |
| `ExecutionGraphMgr.BuildNode` | orc/framework/execution_graph_mgr.cc:123-153 | ends on cyclic graphs; files one node per name met, with the edges of the first workflow node of that name in the order of the search; fails exactly if a name met is not registered |
| `ExecutionGraphMgr.BuildNew` | orc/framework/execution_graph_mgr.cc:130-153 | the same for a name that is not filed yet |
| `ExecutionGraphMgr.BuildGraph` | orc/framework/execution_graph_mgr.cc:155-165 | fails exactly if a name met is not registered; otherwise the table is that of the first workflow node met under each name, and every pointer stays in the graph |
| `ExecutionGraphMgr.TrueSideFirst` | orc/framework/execution_graph_mgr.cc:139-150 | the true side is searched before the false side, so of two nodes of one name the true side's gives the edges |
| `ExecutionGraphMgr.BuildIsFaithful` | orc/framework/execution_graph_mgr.cc:123-165 | the execution graph has the traces of the workflow graph if and only if nodes of one name lead to the same names |
| `ExecutionGraphMgr.DistinctNamesSuffice` | orc/framework/execution_graph_mgr.cc:123-165 | with distinct handler names it always has the same traces |
| `ExecutionGraphMgr.RepeatedHandlerLoops` | orc/framework/execution_graph_mgr.cc:126-128 | for two nodes of one name in a row, the table that is built loops for ever |
| `ExecutionGraphs.ExecutionGraph.Clone` | orc/framework/execution_graph.cc:8-39 | fresh nodes, the same table and entry, so the same traces; every next pointer stays in the copy; fails exactly if a handler is not registered |
| `ExecutionGraphs.ExecutionGraph.CloneNodes` | orc/framework/execution_graph.cc:10-17 | a fresh node for every name, still without edges |
| `ExecutionGraphs.ExecutionGraph.LinkNodes` | orc/framework/execution_graph.cc:19-34 | the edges of the copy lead where those of the original lead |
| `ExecutionGraphs.ResultChoosesHop` | orc/framework/context.cc:84-88 | the same in an execution graph |
| `Contexts.Context.IsAsync` | orc/framework/context.cc:51-53 | true for an asynchronous step whose counter is positive; counts down only in an asynchronous step |
| `Contexts.Context.IsDone` | orc/framework/context.cc:103-105 | whether the end node is reached |
| `Contexts.Context.SetAsync` | orc/framework/context.cc:55-61 | switching on resets counter and state, switching off leaves them |
| `Contexts.Context.NextStep` | orc/framework/context.cc:71-91 | the node joins the path, the chosen edge is taken and the step starts afresh |
| `Contexts.Context.StepReset` | orc/framework/context.cc:93-101 | the asynchronous part of the context is as at the start |
| `Contexts.EdgeIsExact` | orc/handler/rpc_handler.cc:68-127 | an RPC visit takes the true edge exactly if its requests were built and it has nothing to ask, or has clients and response slots for all of them and is content with the responses; it launches exactly if it was built and has something to ask, clients and slots |
| `Contexts.Invoke` | orc/handler/rpc_handler.cc:68-98 | every request goes to every client, unless there are no clients or a request lacks slots; the step becomes asynchronous exactly then |
| `Contexts.CallsAreAllPairs` | orc/handler/rpc_handler.cc:86-95 | that is each pair once, as many calls as the barrier waits for |
| `Contexts.BaseRun` | orc/handler/rpc_handler.cc:102-127 | the result, the calls and the context after each of the three phases of a visit |
| `Contexts.Context.Step` | orc/framework/context.cc:63-69 | one visit of the handler in any phase of a step, and the edge exactly if the step is over |
| `Contexts.Context.Visit` | orc/handler/rpc_handler.cc:102-127 | the visit as a function of the context, with the result as the chosen edge |
| `Contexts.TwoVisits` | orc/framework/context.cc:46-101 | a step that launches calls stays where it is, and the visit with the responses takes their edge, like a handler that answers at once |
| `Contexts.Context.RunInner` | orc/framework/workflow.cc:184-192 | the loop walks the table along the answers until the end, and leaves at the test behind the first handler that has launched calls |
| `AsyncRun.NextInv` | orc/framework/context.cc:46-101 | every step of every thread and every RPC completion keeps the hand-over invariant |
| `AsyncRun.AsyncIsTransparent` | orc/framework/context.cc:46-101 | in every interleaving the walked path is the sequential walk along the answers |
| `AsyncRun.HandoverIsExact` | orc/handler/rpc_handler.cc:48-127 | barrier call-back, true test, false test and response processing happen at most once per step, and once each before an asynchronous step takes its edge, with all other threads out of the loop |
| `AsyncRun.StepsEnd` | orc/framework/workflow.cc:184-187 | no step goes on for ever |
| `AsyncRun.NeverStuck` | orc/framework/workflow.cc:184-187 | until the end node is reached some thread or completion can go on |
| `AsyncRun.EmptyGroupHangs` | orc/handler/rpc_handler.cc:86-97 | a handler that asks a group without clients can be left for ever |
| `Orchestration.WorkflowRunsAsWritten` | orc/framework/workflow.cc:184-192 | from source text to interleaved execution: the path is the trace of the structured program, and is over exactly when the program is |
| `Orchestration.CalledTwiceNeverEnds` | orc/framework/execution_graph_mgr.cc:123-165 | a workflow that calls one handler twice is accepted and over after two calls, but its execution graph calls the handler for ever |
| `QedWord.UnpackPacked` | qed/bucket.h:117-135 | next id, high bits, size and flag read back from the shared word and byte |
| `QedWord.WriteWord` | qed/bucket.h:70-82 | setting the next id or the key in the shared word changes no other field |
| `QedWord.WriteByte` | qed/bucket.h:65-79 | setting the flag or the size and counting up change only that field of the byte, and counting beyond 127 runs over into the flag |
| `QedWord.StoredKeyIsKey` | qed/builder.cc:295-298 | a bucket written with the whole key as its word holds the key's high bits and its own id as the next one |
| `QedWord.PayloadIsKept` | qed/builder.h:83-84 | a payload of seven bytes is stored as it is and differs from the answer for absent keys |
| `QedWord.LeastType` | qed/builder.cc:26-29 | the least positive exponent whose power exceeds the count |
| `QedWord.GetBucketType` | qed/builder.cc:26-31 | the least exponent from 2 to 50 whose power exceeds the count, and 50 if none does |
| `QedTable.Stored` | qed/builder.h:83-84 | the payload reduced to its low 56 bits |
| `QedPacked.PackedFind` | qed/hashtable.h:65-122 | the lookup on packed buckets is the lookup of the table |
| `QedPacked.PackedInsert` | qed/builder.cc:208-391 | an insertion on packed buckets makes the packed table of the insertion, or is refused with it |
| `QedPacked.PackedTableIsMap` | qed/hashtable.h:65-122 | after any insertions, lookups on the packed buckets are those of the map |
| `QedBuilder.Builder.constructor` | qed/builder.cc:173-204 | after reserving, all buckets are empty and unowned |
| `QedBuilder.Builder.Find` | qed/hashtable.h:65-122 | the loop over the arrays computes the lookup of the table |
| `QedBuilder.Builder.TakeFreeBucketId` | qed/builder.h:146-158 | takes consecutive free ids, exactly if there are that many |
| `QedBuilder.Builder.Walk` | qed/builder.cc:307-338 | finds the bucket with the key's high bits or the last of the chain |
| `QedBuilder.Builder.Insert` | qed/builder.cc:208-391 | the array updates make exactly the table of a first, overwriting or appending insertion, or change nothing when refused |
| `QedBuilder.Builder.AppendTo` | qed/builder.cc:340-390 | fills a free slot, links the last bucket to it and counts it at the root |
| `QedBuilder.Builder.FindParent` | qed/builder.cc:449-480 | the bucket whose next one is the given, walking from its root; none without a root |
| `QedBuilder.Builder.UnusedSlot` | qed/builder.cc:496-513 | the first unused slot other than the root on the cache line of the root and the given number of lines behind it, if there is one |
| `QedBuilder.Builder.OptimizeFreeBucket` | qed/builder.cc:482-566 | the array updates of a relocation, into the first unused slot of the window |
| `QedBuilder.Builder.MoveInto` | qed/builder.cc:514-552 | claims the slot, copies the bucket, and turns its parent to it if the parent points to the bucket |
| `QedRefinement.FindIsSearch` | qed/hashtable.h:65-122 | a lookup is a search of the chain of its home |
| `QedRefinement.FirstKeeps` | qed/builder.cc:217-300 | the first key of a home: chains stay intact, only that key's answer changes |
| `QedRefinement.HitKeeps` | qed/builder.cc:311-333 | overwriting: chains stay intact, only that key's answer changes |
| `QedRefinement.AppendKeeps` | qed/builder.cc:340-390 | appending: chains stay intact and disjoint, only that key's answer changes |
| `QedRuns.StepKeepsInv` | qed/builder.cc:208-391 | every insertion keeps the invariant of runs, and is refused exactly for a new key of a non-empty home when the free buckets are gone |
| `QedRuns.RefusalIsExact` | qed/builder.cc:301-305 | an insertion is refused exactly if the size byte of its home is 255, or the key is new and no free bucket is left; the first key of a home never is |
| `QedRuns.TableIsMap` | qed/hashtable.h:65-122 | after any insertions every lookup is that of a map of the last stored payloads, and free buckets in use are distinct keys less homes in use |
| `QedRuns.RoomLeft` | qed/builder.h:146-158 | while the free buckets cover all keys but the first of each home, an insertion is never refused |
| `QedRuns.NeverRefused` | qed/builder.h:146-158 | after any insertions on a fresh table the next one finds a bucket, as long as the free buckets cover the keys |
| `QedRuns.CapacitySuffices` | qed/builder.cc:157-206 | then every lookup gives the payload inserted last |
| `QedRuns.SomeKeyLost` | qed/builder.h:146-158 | if the free buckets do not cover the keys, some key is lost in every order of insertion |
| `QedRuns.CapacityIsExact` | qed/builder.cc:157-206 | all lookups give the payloads inserted last if and only if the free buckets cover the keys |
| `QedRuns.ReserveSuffices` | qed/builder.cc:157-206 | a table reserved for n entries refuses no insertion while there are at most n distinct keys |
| `QedRuns.LimitIsExact` | qed/builder.cc:301-305 | an insertion leaves the table a map if and only if its home has room for the key or it is refused |
| `QedRuns.OverflowLosesHome` | qed/builder.cc:383-389 | the insertion over the limit makes all keys of its home unfindable |
| `QedLimits.FullHome` | qed/builder.cc:301-305 | 127 keys of one home are stored, and an unused bucket is left that the next key of that home does not fit in |
| `QedLimits.FullHomeIsLost` | qed/builder.cc:383-389 | after 128 insertions of keys of one home none of its keys is found |
| `QedRelocation.OptimizeKeeps` | qed/builder.cc:482-566 | a relocation moves one chained bucket into a slot no chain used, or changes nothing; it succeeds exactly if the bucket is chained and some slot on the cache lines from the root's on is unused, and takes the first such slot |
| `QedRelocation.ScanFindsFirst` | qed/builder.cc:496-513 | the scan covers exactly these cache lines |
| `QedRelocation.UnusedIsUnchained` | qed/builder.cc:506-513 | a slot counts as unused exactly if no chain has it |
| `QedRelocation.MoveInto` | qed/builder.cc:514-552 | in a table with intact chains this never fails, and every lookup stays as it was |
| `QedRelocation.IntoIsExact` | qed/builder.cc:521-552 | in any table the move succeeds exactly if some bucket of the chain points at the old place; otherwise the slot stays claimed |
| `QedRelocation.RelocationKeepsLookups` | qed/builder.cc:482-566 | no sequence of relocations, with any locations and levels, changes any lookup |
| `QedRelocation.InsertsThenMoves` | qed/builder.cc:482-566 | insertions and then relocations still give the lookups of the map |
| `QedConcurrent.NextInv` | qed/builder.cc:208-391 | every single write of every insertion keeps the published chains intact |
| `QedConcurrent.LookupsWhileWriting` | qed/builder.cc:340-390 | in every state between writes, a home that is not being set up gives the answers of the map |
| `QedAlone.AloneIsInsert` | qed/builder.cc:208-391 | the single writes of an insertion that is not interrupted make the table and the map of the insertion as one operation |
| `QedReader.LookupIsLinearizable` | qed/hashtable.h:65-122 | a lookup on a home that holds a key, interleaved with single writes, returns what the map answered at some moment between its start and its end, with and without rechecks |
| `QedFirstKeys.LookupIsExact` | qed/builder.cc:219-299 | a lookup gives, in every interleaving, an answer of the map at some moment in between if and only if its key is not below the number of buckets or its home shows a key when it starts |
| `QedFirstKeys.Misled` | qed/hashtable.h:65-122 | otherwise it takes the payload of a home that has a size and no key yet, rechecks or not |
| `QedReader.LookupReturns` | qed/hashtable.h:65-122 | whatever happened before, a lookup that is left alone returns within 388 reads |
| `QedReader.QuietLookup` | qed/hashtable.h:65-122 | a lookup that meets no write returns the answer of the map |
| `QedReader.RechecksAreExact` | qed/hashtable.h:84-104 | a careful lookup returns a payload exactly if the bucket still has its role and that payload, and otherwise starts over |
| `QedWorkers.SharedLineSharedWorker` | qed/builder.h:103-111 | keys whose homes share a cache line have the same worker |
| `QedWorkers.WorkerNeverBlocked` | qed/builder.h:103-111 | a worker between insertions finds the home of its next key free |
| `QedWorkers.QuiescentLookups` | qed/builder.cc:208-391 | when all interleaved insertions are through and the free buckets cover the keys, lookups give the payloads begun last |
| `QedWorkers.WorkersActLikeOne` | qed/builder.h:103-111 | if the free buckets cover the keys, any interleaving of the workers' writes gives the lookups of running the same insertions in one thread |
| `QedCapacity.EveryRunLoses` | qed/builder.h:146-158 | if they do not, every complete interleaved run loses some key |
| `QedCapacity.CoverageIsExact` | qed/builder.h:103-158 | a complete interleaved run gives the payloads begun last if and only if the free buckets cover the keys |
| `QedCapacity.OrderMatters` | qed/builder.h:103-158 | two workers whose keys are covered alone but not together: two runs with the same insertions per worker give different lookups |
| `QedCapacity.TwoHomesClash` | qed/builder.h:103-158 | that happens to any two homes of different workers whose keys together, but not alone, need more free buckets than there are |
| `QedCapacity.EightBucketsTwoWorkers` | qed/builder.h:103-158 | and so with eight buckets, two workers and six keys each |
| `TrieFat.FatTrie.Place` | qed/trie.cc:29-42 | the first child whose name is not less: all names before it are less |
| `TrieFat.LessIsLexicographic` | qed/trie.h:175-185 | the order of the keys is the lexicographic one |
| `TrieFat.FatTrie.Child` | qed/trie.cc:17-48 | one character down: the child of that name, or a new node filed so that the greatest name comes first |
| `TrieFat.FatTrie.Down` | qed/trie.cc:16-49 | the whole way down along a key, making nodes where there are none |
| `TrieFat.FatTrie.Insert` | qed/trie.cc:10-55 | a key greater than all others always gets in; exactly its prefixes get nodes, numbered in the order they are made, and the trie stands for the map with the key added |
| `TrieFat.DescendKeeps` | qed/trie.cc:16-49 | going down keeps the trie and the order of the names |
| `TrieFat.BuildFat` | qed/trie.h:175-185 | the linked trie stands for the whole map and has no nodes but those of its prefixes; its node list is determined by the map |
| `TrieFat.OutOfOrderBreaksOrder` | qed/trie.cc:29-47 | keys out of map order spoil the order of names |
| `TrieBytes.DecEnc` | qed/trie.h:227-247 | a number reads back as itself exactly if it fits its field |
| `TrieBytes.EncDigits` | qed/trie.h:227-247 | numbers are stored to base 256, the low digit first |
| `TrieBytes.RoomIsProduct` | qed/trie.h:38-49 | the space of a table is its length times the size of an offset |
| `TrieBuild.Measure` | qed/trie.h:186-195 | the size of the buffer |
| `TrieBuild.PlaceNodes` | qed/trie.h:204-215 | every node starts behind the ones before it |
| `TrieBuild.FillSlim` | qed/trie.h:232-248 | writes the children's offsets in their order and refuses exactly if one does not fit |
| `TrieBuild.FillStrong` | qed/trie.h:250-284 | writes every offset at its name's distance from the least name, leaves 0 in the gaps, and refuses exactly if the offset of the second child, or of an only child, does not fit |
| `TrieBuild.WriteNode` | qed/trie.h:216-288 | writes the record of one node and no other byte, and refuses exactly if its value or a compared offset does not fit |
| `TrieBuild.Flatten` | qed/trie.h:186-290 | filling the records in any order makes a buffer that holds every node |
| `TrieBuild.PassIsExact` | qed/trie.h:227-283 | what decides whether a build succeeds: in SLIM all values and offsets, in STRONG all values and of every node the offset of its second or only child |
| `TrieBuild.BuildTrie` | qed/trie.h:166-291 | fails exactly if one of these does not fit its field, and otherwise lookups in the buffer give what the map says, under the condition of each layout |
| `TrieBuild.BuiltAnswers` | qed/trie.h:166-291 | in a buffer that was built, every text finds what the map says in the SLIM layout, and every key does in the STRONG layout if the buffer is within reach of its offsets |
| `TrieBuild.PassedFits` | qed/trie.h:227-247 | what a successful build has made sure of |
| `TrieBuild.Next` | qed/trie.h:53-89 | the reading loop of both layouts |
| `TrieBuild.FindTrie` | qed/trie.h:111-126 | the walk along the characters of a text |
| `TrieFlat.ReadValue` | qed/trie.h:31-37 | value and count read back from the buffer |
| `TrieFlat.ReadKid` | qed/trie.h:91-108 | an offset reads back as itself exactly if it fits |
| `TrieFlat.SlimLayout` | qed/trie.h:31-44 | a stored SLIM node: value, count, one name per child, one offset per child |
| `TrieFlat.StrongLayout` | qed/trie.h:31-48 | a stored STRONG node: value, count, least name, and one offset per character up to the greatest name, 0 where there is no child |
| `TrieFlat.StrongLeafLayout` | qed/trie.h:31-48 | a stored STRONG node without children: value, count 0 and name 0 |
| `TrieSlim.NextSlimFinds` | qed/trie.h:59-76 | stopping early never misses a child |
| `TrieSlim.SlimIsExact` | qed/trie.h:53-126 | a text finds a node if and only if it is empty or a prefix of a key, and its value is the map's, 0 for what is no key |
| `TrieStrong.NextStrongFinds` | qed/trie.h:77-85 | where the dense table leads: nowhere outside its range, to the child, or to the root in a gap |
| `TrieStrong.StrongFindsKeys` | qed/trie.h:77-126 | every key and prefix of a key is found with its value |
| `TrieStrong.StrongFindsIffOffsetsFit` | qed/trie.h:276-283 | all prefixes lead to their own nodes if and only if all offsets fit |
| `TrieTruncation.FanIsBuilt` | qed/trie.cc:10-55 | the node list that is built for the one-character keys 1 to n |
| `TrieTruncation.StrongBuildMayTruncate` | qed/trie.h:276-283 | for 64 to 127 one-character keys and one-byte offsets the build passes every comparison although an offset does not fit, and the last key does not lead to its node |
| `TrieTruncation.LongKeyIsRefused` | qed/trie.h:264-275 | with one-byte fields a map of one key is refused exactly if the key has 64 characters or more or its value needs two bytes |
| `TrieStrong.StrongRejectsIffNoGaps` | qed/trie.h:77-85 | all other texts are rejected if and only if no table has a gap |
| `TrieTruncation.GapFindsRoot` | qed/trie.h:77-85 | for the keys 1 and 3 the absent text 2 finds the root |
| `RecencyList.ApplyKeeps` | orc/util/local_cache.h:80-139 | the recency list keeps distinct keys and its capacity |
| `RecencyList.AnswerIsExact` | orc/util/local_cache.h:80-100 | a lookup finds a key exactly if an entry for it is younger than the expiry time; otherwise no entry for it stays |
| `RecencyList.EntriesAreLastPuts` | orc/util/local_cache.h:102-139 | every entry holds what was last stored for its key |
| `RecencyList.FoundIsInTime` | orc/util/local_cache.h:80-139 | what a lookup finds after any operations is the last value stored, less than the expiry time ago |
| `RecencyList.ExpiredIsGone` | orc/util/local_cache.h:80-100 | a key never stored, or stored as long ago as the expiry time, is not found and leaves no entry |
| `RecencyList.Retention` | orc/util/local_cache.h:80-139 | a key that fewer than capacity other keys were used after, and that has not expired, is found with its last value |
| `LocalCaches.SameKeys` | orc/util/local_cache.h:53-61 | index and recency list hold the same distinct keys |
| `LocalCaches.LocalCache.constructor` | orc/util/local_cache.h:42-43 | an empty cache |
| `LocalCaches.LocalCache.Get` | orc/util/local_cache.h:80-100 | a hit exactly if the key has an entry in time, with its value; otherwise no entry for the key stays; new contents are those of the recency list, and index, lists and size stay consistent |
| `LocalCaches.LocalCache.Touch` | orc/util/local_cache.h:87-89 | the entry that is found comes first |
| `LocalCaches.LocalCache.Expire` | orc/util/local_cache.h:91-95 | the expired entry goes and its node is free |
| `LocalCaches.LocalCache.Evict` | orc/util/local_cache.h:107-109 | the least recently used entry goes and its node is free |
| `LocalCaches.LocalCache.MakeRoom` | orc/util/local_cache.h:106-110 | the most recent entries stay, one fewer than the capacity |
| `LocalCaches.LocalCache.Add` | orc/util/local_cache.h:115-128 | the new entry comes first, in a free node if there is one, and nodes stay within capacity |
| `LocalCaches.LocalCache.Refresh` | orc/util/local_cache.h:130-133 | the entry gets value and time and comes first |
| `LocalCaches.LocalCache.Put` | orc/util/local_cache.h:102-139 | new contents are those of the recency list |
| `NodeCollections.BelowIsSubtree` | leader/node_collection_impl.cc:61-63 | a path is affected exactly if it is the given one or continues it with a slash |
| `NodeCollections.ErasedOneMore` | leader/node_collection_impl.cc:179-185 | erasing one server after another gives the same list in any order |
| `NodeCollections.ErasedIffOnce` | leader/node_collection_impl.cc:179-185 | all blacklisted servers are gone from a list if and only if none was listed twice |
| `NodeCollections.IndexIsItsPairs` | leader/node_collection_impl.h:59-60 | which paths are listed for which servers determines the index, because it keeps no empty sets |
| `NodeCollections.NodeCollection.constructor` | leader/node_collection_impl.h:22-22 | no paths and an empty blacklist |
| `NodeCollections.NodeCollection.Filter` | leader/node_collection_impl.cc:29-33 | the servers that are not blacklisted, in order |
| `NodeCollections.NodeCollection.List` | leader/node_collection_impl.cc:34-47 | the first locked part: list and index, with the invariant readers need |
| `NodeCollections.NodeCollection.UpdateHeartbeat` | leader/node_collection_impl.cc:25-55 | exactly the healthy servers are listed for the path, in order and as often as given, and indexed; all invariants hold |
| `NodeCollections.NodeCollection.Doomed` | leader/node_collection_impl.cc:60-66 | exactly the known paths at or below a given one |
| `NodeCollections.NodeCollection.Unlist` | leader/node_collection_impl.cc:89-101 | the path and exactly its index entries go, and no empty set stays |
| `NodeCollections.NodeCollection.Drop` | leader/node_collection_impl.cc:82-105 | all doomed paths go; the blacklist is in fact unchanged |
| `NodeCollections.NodeCollection.RemovePaths` | leader/node_collection_impl.cc:108-159 | exactly the paths at or below the given ones go; the others keep lists and positions |
| `NodeCollections.NodeCollection.RemovePath` | leader/node_collection_impl.cc:57-106 | the same for one path, and exactly its index entries go |
| `NodeCollections.NodeCollection.EraseServer` | leader/node_collection_impl.cc:167-187 | every list loses the first entry of the server, because the index names all of them |
| `NodeCollections.NodeCollection.UpdateBadNode` | leader/node_collection_impl.cc:161-189 | every list loses the first entry of each blacklisted server; the invariants hold afterwards if and only if none of them was listed twice for a path, and then every list loses exactly the blacklisted servers |
| `NodeCollections.NodeCollection.PickOneNode` | leader/node_collection_impl.cc:208-224 | picks the next server in turn, never a blacklisted one, also between the two locked parts of an update; fails exactly if the path is unknown or has no server |
| `NodeCollections.NextIndex` | leader/node_collection_impl.cc:202-206 | the next position, wrapping at the end |
| `NodeCollections.EachOnce` | leader/node_collection_impl.cc:202-224 | as many positions in turn as servers name every server once, from any position |
| `NodeCollections.NodeCollection.PickRound` | leader/node_collection_impl.cc:202-224 | as many calls as the path has servers pick every server once |
| `HeartbeatRemoval.StepKeeps` | leader/heartbeat_receiver.cc:129-155 | every step of the loop and of its callers keeps the invariant of removals |
| `HeartbeatRemoval.CallersAreFree` | leader/heartbeat_receiver.cc:106-132 | adding and removing paths can begin at any time; adding registers exactly the given paths |
| `HeartbeatRemoval.RemovalTakesEffect` | leader/server_subscriber.cc:76-84 | in every interleaving, once a removal has returned, the collection knows nothing at or below its paths unless such a path was added since the call began |
| `HeartbeatRemoval.RemovalCanReturn` | leader/heartbeat_receiver.cc:129-155 | from every reachable state a removal that has begun can still return |
| `HeartbeatRemoval.OthersStay` | leader/heartbeat_receiver.cc:129-155 | in every interleaving, a path no removal names, itself or above it, stays registered once added and known once listed |
| `TaskQueues.PushedRing` | orc/util/thread_pool.cc:48-50 | writing behind the last element appends to the ring |
| `TaskQueues.TaskQueue.constructor` | orc/util/thread_pool.cc:24-35 | an empty queue of the given capacity |
| `TaskQueues.TaskQueue.Push` | orc/util/thread_pool.cc:44-53 | first in, first out: appends, around the end of the buffer; waits exactly while the queue is full |
| `TaskQueues.TaskQueue.Pop` | orc/util/thread_pool.cc:55-65 | takes the oldest; waits exactly while the queue is empty |
| `TaskQueues.TaskQueue.TryPush` | orc/util/thread_pool.cc:67-81 | appends, or returns its argument exactly if the queue is full |
| `TaskQueues.TaskQueue.TryPop` | orc/util/thread_pool.cc:83-97 | takes the oldest, or nothing exactly if the queue is empty |
| `PoolShutdown.StopsCoverMembers` | orc/util/thread_pool.cc:126-130 | no queue has more workers than it gets stop tasks |
| `PoolShutdown.StopsAreExact` | orc/util/thread_pool.cc:126-130 | every queue gets as many stop tasks as it takes for all queues together to get more than there are workers |
| `PoolShutdown.StepConserves` | orc/util/thread_pool.cc:125-156 | no stop task is lost: to come, queued and taken add up |
| `PoolShutdown.WaitersAreServed` | orc/util/thread_pool.cc:151-155 | a waiting worker always has something to take |
| `PoolShutdown.NeverStuck` | orc/util/thread_pool.cc:125-156 | as long as somebody is in the loop, something can happen |
| `PoolShutdown.StepWorks` | orc/util/thread_pool.cc:125-156 | every step lowers the remaining work by one |
| `PoolShutdown.EveryWorkerLeaves` | orc/util/thread_pool.cc:125-156 | with room for the stop tasks every interleaving ends, and ends with all stop tasks pushed and all workers out of their loops |
| `PoolLimits.NoRoomMayBlock` | orc/util/thread_pool.cc:125-156 | without the room and with all workers busy, some interleaving leaves the destructor waiting for ever |
| `PoolLimits.RoomIsExact` | orc/util/thread_pool.cc:125-156 | every interleaving ends with all workers gone, whatever they were doing, if and only if there is that room |

## Left out

- The parser: workflows are given as syntax trees.
- Workflows without handlers: they compile to a graph without entry, which is accepted and never executed.
- The second reading of `IsDone` after the stepping loop, the release of sessions and graphs, and failed scheduling of a context.
- The pools of execution graphs and their replacement at run time.
- The displacement of a foreign bucket by an insertion after relocations (`qed/builder.cc:226-293`): its last comparison expects a size the same call has replaced.
- `RearrangeBuckets` moves nothing, `Erase` is not implemented, and `BatchFind` and the converter use vector instructions.
- A second `Reserve`, and everything about files and memory mapping.
- Lookups during the very first publication of a home bucket: its size is set before its key and payload.
- `BlockDataBuilder::alloc`: the same counter protocol as for free buckets.
- QedBuilder.Builder.FindParent: the restart on an inconsistent chain is shown to be dead, not modelled.
- QedBuilder.Builder.Insert: insertions that come after a relocation, and a free slot handed in by the caller, are not modelled.
- QedPacked.PackedInsert: the payload stays a field of its own; only the size byte and the key word are packed.
- Contexts.Context.RunInner: what other threads do after a launch is in the machine of `AsyncRun`, not in this loop.
- WorkflowGraphCheck.Graph.CheckValid: an entry is unset or an existing node; the end node as an entry is not modelled.
- QedBuilder.Builder.TakeFreeBucketId: one successful exchange of the counter; retries after a lost race are steps of other workers in the machine of `QedConcurrent`.
- Failing allocators of the trie, and the memory layout that makes the name array of a linked node follow its header.
- TrieFat.FatTrie.Child: child arrays are sequences; the shifting of elements by block moves is one assignment.
- Strings with a zero character in path comparisons.
- NodeCollections.NodeCollection.RemovePath: written with the list form; the two functions of the source do the same work twice.
- `FindNodesBySpec` and node counts, which read single entries.
- The reconnection logic, scan times and ZooKeeper calls of the heartbeat receiver: scanning a path updates the collection or does not.
- TaskQueues.TaskQueue.Push: one pass through the waiting loop; who is woken when is modelled in `PoolShutdown`.
- TaskQueues.TaskQueue.Pop: likewise.
- PoolShutdown.EveryWorkerLeaves: work that is added during the shutdown is not modelled.
- Monitoring, logging, configuration, RPC clients and servers, process supervision and plugins.
