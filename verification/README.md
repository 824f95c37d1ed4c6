# Rnix: schedulers, context reclamation, step logs, coroutines

A Dafny 4.11 model of the parts of Rnix, an operating system for language-model agents, that hold the most
state: the intent reconciler and its dependency graphs, the compose engine, the reclamation of context, the
step-index cache of the observing server, and two small protocols of the kernel. `dafny verify dfyconfig.toml`
checks everything. File and line references below are to the Rnix repository.

## How it is built

Code that changes state in place is modelled in place: classes, arrays, maps and lists in fields, loops with
invariants. Each such method is proved against functions or relations on values, and the theorems are about
those, for every input, every run, or every order in which maps are iterated and goroutines are scheduled.

`Sets` and `Sums` hold facts about finite sets and sums over maps; `Names` is the order on identifiers.

**Graphs.** `Graph` defines walks, cycles, longest chains and transitive dependence without any algorithm.
`Dag` holds the three-colour search and the in-degree layering, shared by `intent/dag.go` and `compose/dag.go`
(the two differ only in how the edge lists are built, which is `DagBuild`); dependency lists may repeat names.

**Intent trees and the reconciler.** `IntentTypes` is the tree of heap nodes; `IntentTree` says on values what
failing a node strikes. `Reconciler` is the execution of a tree as a transition system: a worker posts one
event, the loop handles one, a process id is stored, the context is cancelled. `ReconcilerRuntime` is the
imperative reconciler, whose loop body is proved to be one such step and whose `Execute` ends under every
schedule, merges included. `Merge` and `IntentMerge` are the merging of new nodes with its rollback;
`ReconcilerMerges` adds merges of any batch at any time to the runs, and says what the report is then worth.

**Compose engine.** `Compose` gives the result of a run as a function of what each agent would do when
attempted; `ComposeEngine` runs the layers with their concurrent nodes and the token pool of `BudgetPool`, and
equals that function whatever the order in which nodes finish.

**Context reclamation.** `Tokens` (estimates), `Truncate`, `Prune` and `Rounds` (what the two mechanical
primitives do, on values), `Context` (the message store and both primitives in place), `Compaction` (the request
with its retries, what is restored, the accounting) and `Landing` (the kernel's fallback and latch). Texts are
sequences of characters with UTF-8 widths.

**Step logs.** `StepLog` splits text into lines and folds them; `StepIndex` reads and rebuilds the sidecar index;
`Listing` says, of lines and parser alone, what a list of steps is; `Codec` shows that formats as assumed exist;
`StepCache` is the server's cache; `StepCacheRuns` runs it against processes that start, open their step writer,
write, die, come back and have their indexes rebuilt.

**Kernel protocols.** `Coroutine` is the rendezvous as a two-party transition system over every interleaving;
`SubAgent` and `SyntheticChild` are the sub-agent's step accumulator, on values and with the objects that a map,
a list and a cursor share, and `SubAgentCalls` says what is recorded of one call.

## Where the code falls short of a plain reading

These are properties one would expect, that the code has only under a condition. The condition is proved, and so
is an input for which the property fails.

- The steps the server lists should be those of the log. `NewStepWriter` (`kernel/step_writer.go:58-81`, reached on
  resume through `kernel/reason.go:53`) starts a missing index beside whatever the log already holds, with a header
  that claims the log's full size and no entries. Over whole runs an answer agrees with a full reading of the log
  exactly if the index was not begun when the log held a record, or has been rebuilt since, or is neither followed
  nor fit to stand for the log when the request comes (`StepCacheRuns.AnswersAgree`). While the process is alive
  the last never helps; once it is dead it does exactly if the index was not being followed and something has been
  written since it was begun (`StepCacheRuns.DeadAnswersAgree`). A resumed process with a log and no index shows no
  steps at all (`StepCacheRuns.ResumedWithoutIndex`, `StepIndex.FreshShowsNothing`).
- An index rebuild that was started for a dead process and finishes after the process has been resumed replaces
  the file under its writer; the index that stands is usable and lacks every record written from then on
  (`StepIndex.LateRebuildFallsBehind`). The runs therefore let a process come back only when no rebuild of its
  index is still to be done or skipped.
- Undoing a refused merge dereferences a node it has just deleted exactly if the batch gives two different intents
  for an id the tree does not have (`MergeRules.RollbackCrash`, `IntentMerge.MergeIncremental`;
  `MergeRules.RollbackCanCrash` is such a batch). Batches come from the model's JSON without a check for repeated ids
  (`intent/decomposer.go:110-129`).
- Where it does not crash, it restores the tree exactly if, for every node, what the batch says before the last
  change of the node's intent (everything, if there is none) ends with the intent and dependencies the node had,
  without a change on the way unless the node had no progress to lose (`MergeRules.RollbackExact`). One entry that
  repeats a node's intent with other dependencies is enough to miss (`MergeRules.RollbackCanMiss`).
- A run that reports completed after merges has completed every node exactly if the nodes it left unfinished would
  form a DAG of known nodes (`ReconcilerMerges.CompletedReportExact`), and so whenever every refused merge left a
  DAG of known nodes (`ReconcilerMerges.CompletedReportIsTrue`). A refused merge that does not restore can leave a
  node waiting for an unknown one: then the run ends, reports completed, and the node is pending
  (`ReconcilerMerges.UnrestoredRefusal`).
- `Manager.ApplyIncremental` (`intent/manager.go:150-178`) fetches the reconciler, asks the model, and then merges;
  `MergeAndInject` looks only at the stored context, which a loop that ends by itself leaves behind
  (`intent/reconciler.go:119-217`, `intent/reconciler.go:369-372`). After such an end with every node completed, all
  nodes are still completed exactly if each entry of an accepted batch repeats the intent of a node there is
  (`ReconcilerMerges.LateMerge`), and after a refused one exactly if no node's intent was changed before its last
  change (`ReconcilerMerges.LateRefusal`). The report stays completed, and nothing that was launched is listened to
  (`ReconcilerMerges.NothingMovesAfterEnd`).
- A tree in which nothing is runnable is reported completed at once; that is so exactly if no node had failed and
  none was left executing or undecided (`ReconcilerProtocol.ImmediateReport`). A tree with a failed node, and one
  that a cancelled execution left with an executing node, are reported completed falsely
  (`ReconcilerProtocol.FalseReports`).
- Executing a DAG in which every worker succeeds finishes every node exactly if no node was left executing or
  undecided and no unfinished node depends on a failed one (`ReconcilerProtocol.SuccessesFinishStartable`).
- An agent is held to its share of the token budget exactly if that share does not round down to zero
  (`ComposeEngine.LimitedAgents`); with a budget of one token, two agents without limits of their own both run
  without any (`ComposeEngine.TinyBudget`). The limits of the agents that earn a token fit the budget together
  (`ComposeEngine.LimitsFitTheBudget`).
- Clearing tool results lowers the total by exactly what is reported if and only if the placeholder weighs no more
  than each content the call clears, which at most 167 tokens guarantee (`Pruning.PruneIsExact`). A placeholder of
  1,101 characters over a result of 1,001 makes the history heavier while nothing is reported freed
  (`Pruning.HeavyPlaceholder`).
- A sub-agent's tool call keeps waiting for its result, over frames that do not name it, exactly unless it was
  opened last and a completion that names no waiting call arrives before another call is opened
  (`SubAgentSteps.AwaitedOrTaken`): such a completion falls back to the cursor (`kernel/cli_subagent.go:295-305`),
  closes the waiting call with its own result, and the real result is dropped (`SubAgentSteps.StrayCompletion`).
- The comment at `ipc/server_observe.go:605-611` says that a partial last line is left for the next read. The
  scanner hands the final fragment out (`internal/jsonl/jsonl.go`), so for any parser a log read in the middle of a
  line and then read on counts one line too many, exactly if both parts are more than blank
  (`StepLog.TornLineIsLost`). A blank line, on the other hand, is not counted as read (`StepLog.ConsumedAll`: the
  watermark reaches the end exactly if there is none). The runs of `StepCacheRuns` append whole records, which is
  what the step writer does.
- What is appended while a compaction waits for the model is replaced (`Compaction.Compact`). A compacted history
  with whatever is appended later is paired exactly if what is appended is paired by itself
  (`Compaction.PairedAfterCompaction`); so the result of a tool call made meanwhile breaks the pairing, whatever
  follows it (`Compaction.LateResultIsOrphaned`).
- The mechanical fallback computes its floor from the usage before the model was asked
  (`kernel/compact.go:700-715`). If others have appended meanwhile, usage still lands exactly if clearing everything
  lands it (`Landing.StaleFloorLands`), but the promise to land or leave everything alone is broken exactly if the
  old usage would have landed and the new one does not (`Landing.StaleFloorMisses`).
- A coroutine function that never yields loses its result: its coroutine is done before any call is accepted
  (`CoroutineProtocol.ResultNeedsAYield`).
- Registering a process id again in the token pool forgets what it had consumed; the pool's total stays the sum
  of its agents' exactly if the id is new or had consumed nothing (`Budgets.BudgetPool.AllocateQuota`).
- A rebuilt index forgets malformed lines: it gives the log's view exactly if there were none
  (`StepIndex.RebuiltIsFaithful`).
- A full read of the log keeps tool durations to the microsecond, an incremental one to the nanosecond; served
  views agree with a full read after rounding (`StepLog.Coarse`).
- Flushing all calls of a sub-agent that has no step writer does not end unless nothing is open
  (`SyntheticChildren.SyntheticChild.FlushAll` reports that case instead of looping).

## Model

| member | source | states |
|---|---|---|
| DependencyDag.DetectCycle | compose/dag.go:49-96 | Reports a cycle exactly when some closed walk along dependency edges exists, and the path returned is one: first equals last and each consecutive pair is an edge. The search ends on every graph. |
| DependencyDag.CycleSearch.Dfs | intent/dag.go:59-104 | One activation of the colouring search: it either reports a closed walk or blackens its node, leaves the grey path as it found it and loses no colour already given. |
| DependencyDag.ReconstructCycle | compose/dag.go:99-109 | Following parents back ends, and yields the part of the grey path from the re-entered node on, closed by that node. |
| DependencyDag.FinishedIsAcyclic | intent/dag.go:59-104 | When every node has turned black in finishing order there is no closed walk. |
| DependencyDag.TopologicalSort | compose/dag.go:113-154 | Succeeds exactly on acyclic graphs (so it agrees with cycle detection); the layers partition the nodes, are sorted, and a node is in layer k exactly when its longest dependency chain has k+1 nodes. |
| DependencyDag.LevelsAreDepths | intent/dag.go:119-158 | Levels that sit just above a dependency are lengths of longest chains. |
| DependencyDag.StuckIsCyclic | compose/dag.go:113-154 | If layering stops before placing every node, the rest holds a closed walk. |
| DependencyDag.ReleaseLayer | intent/dag.go:119-158 | Subtracting a finished layer leaves in-degrees that count, with repetition, the dependencies still open, and yields exactly the nodes whose count reached zero. |
| DagBuilding.BuildIntentDag | intent/dag.go:23-56 | Accepts exactly the trees whose dependencies are all nodes and whose graph is acyclic; a rejection names a real unknown dependency or a real closed walk. The lists built record each edge as often as it is listed. |
| DagBuilding.BuildComposeDag | compose/dag.go:10-45 | Builds a graph whose nodes are the agents, each with exactly the dependencies its specification lists, in whatever order its map yields them, and rejects exactly the cyclic ones with a real closed walk. |
| DagBuilding.EnterNodeEdges | intent/dag.go:23-56 | Entering one node's dependencies stops at the first unknown name, and otherwise records upstream and downstream entries with the same multiplicity. |
| Names.TextLeqIs | intent/merge.go:102-104 | The order in which names are sorted: a prefix first, else the smaller character at the first difference. |
| Graph.AcyclicHasSource | compose/dag.go:113-154 | In an acyclic graph every nonempty set of nodes has a member with no dependency in the set. |
| Graph.WalkBackUntilRepeat | compose/dag.go:113-154 | A finite set in which every node has a dependency in the set contains a closed walk. |
| Graph.RankedIsAcyclic | compose/dag.go:49-96 | Numbers that grow along every edge exclude closed walks. |
| IntentTypes.IntentTree.RunnableNodes | intent/types.go:132-154 | Exactly the nodes that are pending or retrying with every dependency present and completed, in the order of their ids. |
| IntentTypes.IntentTree.IsRunnable | intent/types.go:132-154 | True exactly when the node is pending or retrying and every dependency, repeated or unknown ones included, is a node and completed. |
| IntentTypes.IntentTree.IsTerminal | intent/types.go:193-200 | True exactly when every node is completed or failed. |
| IntentTypes.IntentTree.MarkCompleted | intent/types.go:157-164 | Completes one node with its result; an unknown id changes nothing. |
| IntentTypes.IntentTree.MarkFailed | intent/types.go:167-177 | Fails a node and cascades; the outcome is the value-level relation, in whatever order the map is iterated. |
| IntentTypes.IntentTree.CascadeFailure | intent/types.go:179-190 | The recursive cascade over shared heap nodes ends on every graph and fails what the relation says. |
| IntentTrees.MarkFailedExact | intent/types.go:167-190 | Failing a node fails exactly it and the nodes reachable from it through dependents that were all neither failed nor completed beforehand, each with an error that names a failed dependency; nothing else changes in any field, whatever the iteration order. |
| IntentTrees.CascadeOnward | intent/types.go:179-190 | Striking one dependent and cascading from it, then going on, amounts to cascading from the tree before. |
| IntentTypes.IntentTree.ResetNode | intent/types.go:203-214 | A reset node is pending with no error, process, result or counted failure; its description, dependencies, configuration and retry limit stay, and so do all other nodes. |
| ReconcilerProtocol.StepPreserves | intent/reconciler.go:95-217 | Every step of a run (a worker posts, the loop handles an event, a process id is stored, cancellation) keeps the run invariant. |
| ReconcilerProtocol.NoStuckRun | intent/reconciler.go:95-217 | From a DAG of known nodes, whatever their retry counts, in which no node was left executing or undecided and nothing unfinished depends on a failed node: whenever nothing is in flight every node is completed or failed. |
| ReconcilerProtocol.SuccessesFinishStartable | intent/reconciler.go:95-217 | That condition is exact: on a DAG of known nodes, a run whose workers all succeed has every node finished when nothing is in flight if and only if it held at the start. |
| ReconcilerProtocol.NothingRunsMeansTerminal | intent/types.go:132-200 | Acyclicity, saturation (nothing runnable is unlaunched) and failure closure together exclude a stuck tree. |
| ReconcilerProtocol.NormalEnd | intent/reconciler.go:333-348 | A loop that ends uncancelled reports failed exactly if some node is; from a startable tree it leaves no worker and no event, every node terminal, and reports completed exactly when every node completed. |
| ReconcilerProtocol.ExecutingIsInFlight | intent/reconciler.go:220-236 | Whatever the tree, nodes in flight are executing, one worker each, and `active` is their number; from a startable tree no other node is executing. |
| ReconcilerProtocol.LaunchedAfterDependencies | intent/reconciler.go:220-236 | Whatever the tree, a node launched in the run has all its dependencies completed, then and at every later point; a node that came to be executing or completed was launched. |
| ReconcilerProtocol.LaunchesAreBounded | intent/types.go:48-57 | Whatever the tree, no node is launched more often than max(1, limit - failures counted) says when the run begins, the limit being the default one if the node has none, and a finished node never; the loop handles at most as many events as those add up to. |
| ReconcilerProtocol.StepMeasure | intent/reconciler.go:146-214 | The attempts left over all unfinished nodes strictly drop with each handled event and never rise otherwise. |
| ReconcilerProtocol.FailedMeansExhausted | intent/reconciler.go:179-193 | In any tree, of a node that had not failed, had attempts left and was not at odds with its dependencies, at every point of a run: it is failed if and only if the failures counted before and those handled in the run reach its retry limit (the default one if it has none, and at least one), or one of its dependencies failed. |
| ReconcilerProtocol.DefaultLimit | intent/reconciler.go:102-106 | A pending node without a limit of its own and without failures, in any tree, is failed, as long as no dependency failed, exactly when max(1, default) failures of it have been handled. |
| ReconcilerProtocol.FailuresAreCounted | intent/types.go:48-57 | Along any run a node's count is its count at the start plus the failures and timeouts of it that were handled; its limit is its own or else the default one; description, dependencies and configuration never change. |
| ReconcilerProtocol.HandledTree | intent/reconciler.go:131-193 | What one handled event does to every field of every node: completed with its result; or retried, one failure more, error, process and result cleared, and launched if its dependencies are completed; or failed with the event's text; any other node is unchanged, launched once all it depends on is completed, or failed with an error naming a failed dependency. |
| ReconcilerProtocol.CompletedIsForever | intent/types.go:157-190 | Once completed a node stays completed, in every later state of a run. |
| ReconcilerProtocol.FailureEnablesNothing | intent/types.go:167-190 | Marking a node failed makes nothing runnable, so not relaunching after a failure loses nothing. |
| ReconcilerProtocol.SendNeverBlocks | intent/reconciler.go:76-89 | Whatever the tree, the channel of three events per node always has room for the worker that posts. |
| ReconcilerProtocol.RunningCanMove | intent/reconciler.go:119-217 | While the loop runs, some step other than cancellation can be taken. |
| ReconcilerProtocol.LoopGoesOn | intent/reconciler.go:195-217 | A loop that goes on after an event still waits for some worker. |
| ReconcilerProtocol.ImmediateEndIsTerminal | intent/reconciler.go:109-115 | A run on a startable tree ends before its loop exactly if every node is finished already. |
| ReconcilerProtocol.ImmediateReport | intent/reconciler.go:109-115 | A DAG of known nodes with nothing to launch is reported completed; all its nodes are completed if and only if none was failed, executing or undecided. |
| ReconcilerProtocol.FalseReports | intent/reconciler.go:109-115 | A tree of one node left executing, or failed, is reported completed. |
| ReconcilerProtocol.SpawnRestores | intent/reconciler.go:220-236 | Launching everything runnable restores the invariant after an event's effect. |
| ReconcilerRuntime.Reconciler.Execute | intent/reconciler.go:95-217 | On any tree the imperative reconciler ends under every schedule of posts, stored process ids, handled events, merges of any batches and cancellation. With nothing to launch the tree is reported completed at once; else an uncancelled end reports failed exactly if some node is; a report of completed from a tree at rest is true exactly if the unfinished nodes form a DAG of known nodes; without merges from a startable tree all nodes are terminal and nothing is in flight. However it ends, unless it panics, every node it began with is there with its agent, model, provider, timeout and retry limit, the default one if it had none, and without merges with its intent and dependencies. Only a batch that gives two intents for one id can make it panic. |
| ReconcilerRuntime.Reconciler.Prepare | intent/reconciler.go:95-107 | Before the first launch every node is as it was, but that a node without a retry limit has the default one; the tree is executing, every node desired completed, nothing active. |
| ReconcilerMerges.HandleEffort | intent/reconciler.go:127-217 | On any tree and after any merges, each handled event lessens a number that cannot be negative. |
| ReconcilerRuntime.Reconciler.HandleEvent | intent/reconciler.go:127-217 | The loop body on heap nodes is one step of the protocol. |
| ReconcilerRuntime.Reconciler.SpawnRunnable | intent/reconciler.go:220-236 | Sets every runnable node executing and changes nothing else of any node, each with one worker, and returns how many there were. |
| ReconcilerRuntime.Reconciler.CountRetry | intent/types.go:48-57 | Counts the failure, then compares: the node may be retried while its count is below its limit. |
| ReconcilerRuntime.Reconciler.StoreNodePid | intent/reconciler.go:266-330 | A worker storing a process id touches that field alone. |
| ReconcilerRuntime.Reconciler.FinalizeTreeState | intent/reconciler.go:333-348 | The tree is failed if some node is, else completed. |
| ReconcilerRuntime.Reconciler.MergeAndInject | intent/reconciler.go:354-376 | Before, during and after a run: after a successful merge an added node has the agent and model of its first entry, intent and dependencies of its last, no failures and the default limit; the nodes there were keep their agent, model, provider, timeout and limit; what became runnable is launched if a context is stored. A refused merge launches nothing; it panics exactly if the batch is refused and gives two intents for a new id. |
| ReconcilerMerges.StepKeepsMergeInv | intent/reconciler.go:354-376 | With any batch merged at any step, executing nodes keep a worker, `active` counts the workers, the tree is a DAG of known nodes and nothing runnable waits, unless a batch is refused and its rollback does not restore. |
| ReconcilerMerges.CompletedReportIsTrue | intent/reconciler.go:333-376 | From a DAG of known nodes at rest, with any batches merged at any time: if each refusal left a DAG of known nodes, the loop reports completed exactly if every node, merged ones included, has completed, and else some node has failed. |
| ReconcilerMerges.CompletedReportExact | intent/reconciler.go:333-376 | From any tree at rest and with any merges, refused ones included: failed is reported exactly if some node is; when completed is, all nodes have completed if and only if the unfinished ones form a DAG of known nodes. |
| ReconcilerMerges.UnrestoredRefusal | intent/merge.go:107-120 | A run with one refused merge that reports completed and leaves a node pending. |
| ReconcilerMerges.LateMerge | intent/reconciler.go:369-372 | A batch accepted after an end with every node completed: the report stays, and every node is still completed exactly if each entry repeats the intent of a known node. |
| ReconcilerMerges.LateRefusal | intent/merge.go:107-120 | A batch refused after such an end: every node is still completed exactly if none had its intent changed before the last change of it. |
| ReconcilerMerges.NothingMovesAfterEnd | intent/reconciler.go:119-217 | After the loop has ended, no post and no stored process id ever changes a node's state or the report. |
| IntentMerge.MergeIncremental | intent/merge.go:37-148 | The in-place merge with its snapshots: accepted exactly when the merged tree is closed and acyclic; otherwise rolled back, and panicking exactly if two entries give different intents for an id the tree does not have. |
| MergeRules.RollbackExact | intent/merge.go:91-148 | For any batch: undoing it restores every field of every node if and only if it does not crash and, for each node, the entries before the last change of its intent are harmless (none, or ending with its own intent and dependencies, with no change on the way unless it had no progress). |
| MergeRules.RollbackCrash | intent/merge.go:107-120 | For any batch: undoing it dereferences a deleted node exactly if two entries give different intents for an id the tree does not have. |
| MergeRules.RolledNode | intent/merge.go:107-120 | After undoing, a node is as it was before the last entry that changed its intent. |
| MergeRules.RollbackCanCrash | intent/merge.go:107-120 | A batch of two entries for one new id whose undoing crashes. |
| MergeRules.RollbackCanMiss | intent/merge.go:91-99 | An input whose rollback does not restore. |
| MergeRules.MergeKeepsTheRest | intent/merge.go:37-115 | For any batch: unnamed nodes are untouched; a named one takes intent and dependencies from its last entry, keeps its progress exactly if every entry gives the intent it had, and a new one is as its first entry describes it. |
| MergeRules.NamedNode | intent/merge.go:64-99 | Every field of a node of the tree that the batch names: intent and dependencies of the last entry; state, process, result, error and failures kept if every entry gives the intent it had, else pending and cleared; agent, model, provider, limit and timeout kept. |
| MergeRules.NewOrUnnamedNode | intent/merge.go:46-63 | Every field of a node the tree did not have: agent and model of the first entry, intent and dependencies of the last, pending and untried; a node no entry names stays as it was. |
| MergeRules.ListsAre | intent/merge.go:46-104 | Every entry is listed once: as added if it is the first for a new id, as modified if it gives another intent than the entry before it for that id or else the tree, and as unchanged if the same. |
| MergeRules.LastChangeIs | intent/merge.go:64-99 | The entry the rollback goes back to is the last that gives the node another intent than it had by then. |
| MergeRules.MergedStates | intent/merge.go:59-99 | Whatever the batch, duplicates included, each node ends pending or as it was but for its dependencies. |
| IntentMerge.UndoBatch | intent/merge.go:107-120 | Deletes the added nodes and writes the snapshots back in order; it panics exactly when a snapshot's node is gone. |
| ComposeRules.AttemptedExactly | compose/engine.go:448-568 | In the list returned, a node's result is that of an attempt if and only if the tokens reported by all nodes of earlier layers that have no failure upstream, whatever their own failure, sum to less than the budget, and nothing it transitively depends on fails when attempted. |
| ComposeRules.RunReports | compose/engine.go:448-568 | The list returned holds one result per node, each in its place layer by layer, and each true of the outcomes alone: exhausted, failed upstream, or its own outcome. |
| ComposeRules.StopsWhenSpent | compose/engine.go:485-509 | A layer is skipped exactly if there is a budget and the tokens of the nodes of earlier layers without a failure upstream, failed ones included, sum to at least that. |
| ComposeRules.ConsumedIs | compose/engine.go:547-558 | What a run consumes is the sum of the positive token counts of the nodes attempted, whatever their failure: those without a failure upstream in the layers reached before the budget was used up. |
| ComposeRules.FlattenAt | compose/engine.go:448-568 | A node's place in the list: after all nodes of the layers before, in the order of its layer. |
| ComposeRules.OneResultEach | compose/engine.go:448-568 | Every run yields exactly one result per node, in layer order, budget exhaustion included. |
| ComposeRules.StopsForGood | compose/engine.go:494-509 | Once the budget is used up at a layer it is for every later one. |
| ComposeRules.DependencyLayer | compose/engine.go:448-568 | A node's dependencies lie in earlier layers, so their results are in when it is looked at. |
| ComposeEngine.Engine.Execute | compose/engine.go:64-82 | The engine reports a cycle exactly on cyclic graphs, and otherwise returns the true list of results that the outcomes determine, whatever the order in which goroutines finish; it ends as out of budget exactly if the tokens of the layers before the last, summed over the nodes without a failure upstream, use up the budget, and what the pool has recorded is the sum over the nodes attempted and over its agents. |
| ComposeEngine.Engine.RunLayer | compose/engine.go:510-545 | The goroutines of a layer finish in any order; the results are those of the layer in its order, and every process of the layer is registered. |
| ComposeEngine.Engine.CollectLayer | compose/engine.go:547-558 | Results join the run's own, and the positive token counts of all processes that got an id, failed ones included, are recorded once each. |
| ComposeEngine.Engine.FillLayer | compose/engine.go:494-509 | Every node without a result gets the exhaustion error, in order. |
| ComposeEngine.Engine.ExecuteNode | compose/engine.go:177-226 | A node runs with the smaller of its quota and its own limit, and a process that exists is registered with the pool. |
| ComposeEngine.Engine.DependenciesOk | compose/engine.go:522-533 | False exactly when some dependency has a result with an error. |
| ComposeEngine.Engine.ComputeAgentQuotas | compose/engine.go:87-105 | Every agent's quota is its floored share of the budget by weight; without a budget there are none. |
| ComposeEngine.LimitsFitTheBudget | compose/engine.go:177-187 | The limits of the agents that earn a token sum to at most the budget; so do all limits if every agent earns one. |
| ComposeEngine.LimitedAgents | compose/engine.go:177-187 | An agent's limit is positive and within its quota if and only if its part of the budget is at least one token; then it is the quota, or its own setting if that is smaller; otherwise it keeps its own setting, or none. |
| ComposeEngine.TinyBudget | compose/engine.go:177-187 | Two agents, a budget of one token: neither has any limit. |
| ComposeEngine.TransitiveUpstream | compose/engine.go:417-435 | The recursive walk ends on every graph and returns exactly what the target depends on through one or more edges. |
| ComposeEngine.UpstreamWalk.Walk | compose/engine.go:417-435 | Each activation adds only names its node depends on, with their own dependencies. |
| Budgets.SharesFillTheBudget | compose/engine.go:87-105 | Floored proportional quotas of n agents sum to at most the budget and to more than the budget minus n. |
| Budgets.OneOfEach | kernel/budget_pool.go:13-19 | Of one agent of each priority, low, normal and high get one, five and ten sixteenths of the budget, rounded down. |
| Budgets.PoolAgreesWithEngine | kernel/budget_pool.go:77-106 | Once all agents are registered, in any order and under any distinct ids, the pool's quotas equal the engine's. |
| Budgets.BudgetPool.AllocateQuota | kernel/budget_pool.go:77-89 | Registers, gives every agent the largest whole number of tokens within its part of the budget by weight, changes nothing else of them, and keeps the pool balanced exactly if the id is new or had consumed nothing. |
| Budgets.BudgetPool.Recalc | kernel/budget_pool.go:92-106 | Every quota becomes the largest whole number within the agent's part of the budget by weight; nothing else changes. |
| Budgets.BudgetPool.RecordUsage | kernel/budget_pool.go:121-132 | Adds to the agent and to the total alike, so the total stays the sum over agents; an unknown id is an error and changes nothing. |
| Budgets.BudgetPool.Remaining | kernel/budget_pool.go:146-154 | What consumption leaves of the budget, but never negative; for a nonnegative budget zero exactly when the pool is exhausted. |
| Tokens.EstimateTokens | context/tokenizer.go:24-40 | The counting loop returns the least number of tokens not below (characters below 128) / 3.5 + (other characters) / 1.5. |
| Tokens.EstimateMessageTokens | context/tokenizer.go:85-108 | The sum of the estimates of every text of a message that is sent: content, reasoning and call id, over its calls id, name and serialised input, and over its reasoning blocks kind, thinking and data. |
| Tokens.BytesAreCounted | context/prune.go:66-68 | The bytes of a text: one a character, and one more each from U+0080, U+0800 and U+10000 on. |
| Tokens.TotalIsSum | context/compact.go:311-317 | The size of a history is the sum over its messages. |
| Tokens.Subadditive | context/tokenizer.go:24-40 | Splitting a text never lowers the estimate and raises it by at most one. |
| Tokens.PrefixMonotone | context/tokenizer.go:24-40 | A longer prefix weighs no less. |
| Tokens.OversizedWeighs | context/prune.go:66-68 | A content above a thousand bytes weighs at least 167 tokens. |
| Truncation.TruncateToTokens | context/compact.go:523-545 | Binary search returns the longest prefix within the budget. |
| Truncation.TruncateResult | context/truncate.go:14-42 | Truncates exactly when over budget; from any initial guess the shrinking loop ends with a fitting prefix no longer than the longest one, which is the guessed one unless the prefix it was cut from, a tenth or at least one character longer, does not fit. |
| Contexts.Context.PruneToolResults | context/prune.go:205-289 | Clears the first candidates of the cold zone in place: none if the batch is declined, all without a target, else as few as reach it; what that is in terms of the messages says `Pruning.PruneLaw`. |
| Pruning.PruneLaw | context/prune.go:205-289 | A call in terms of the messages: the cold tool results above 1,000 bytes that are not the placeholder, below some index, have their content replaced and nothing else changes; none if their summed weight or what clearing frees misses a threshold, all without a target, else as few as free the target or the floor if larger. All four figures are sums over them. |
| Contexts.Context.Scan | context/prune.go:224-246 | The first pass finds exactly the cold oversized results and predicts what clearing them frees. |
| Contexts.Context.Rewrite | context/prune.go:268-284 | The second pass clears candidates until the target is met and counts what each freed. |
| Pruning.OnlyColdResultsChange | context/prune.go:205-289 | Only tool results above 1,000 bytes in the cold zone change, and only their content, which becomes the placeholder, the default one if none is given. |
| Pruning.PruneKeepsItsWord | context/prune.go:248-266 | Freed is at most releasable is at most candidate; a declined batch changes nothing; an admitted one with a floor frees at least the floor, even when the target is smaller. |
| Pruning.PruneIsExact | context/prune.go:268-284 | The total falls by exactly the tokens reported if and only if the placeholder weighs no more than the content of each message the options choose; with the default placeholder always. |
| Pruning.UntargetedChosen | context/prune.go:224-246 | Without a target an admitted call chooses all oversized results of the cold zone that are not the placeholder. |
| Pruning.ChosenAreCleared | context/prune.go:268-284 | What a call clears is determined by the history and the options. |
| Pruning.HeavyPlaceholder | context/prune.go:268-284 | A call that makes the history heavier and reports nothing freed. |
| Pruning.SecondPruneIsNoOp | context/prune.go:205-289 | Without a target a second call finds nothing to do. |
| Pruning.SmallPlaceholderNeverGrows | context/prune.go:205-289 | A placeholder of at most 167 tokens never weighs more than what it replaces. |
| Pruning.DefaultPlaceholderWeight | context/prune.go:82 | The default placeholder weighs 11 tokens. |
| Pruning.ColdZone | context/prune.go:35-60 | The cold zone is what precedes the newest max(4, n/5) + max(6, 3n/10) of n messages: empty exactly up to ten, later about half, its end moving back by at most one when a message is added. |
| Rounds.GroupsRoundTrip | context/compact.go:360-394 | Flattening the rounds gives the history back; every round but the first is headed by its one assistant message. |
| Rounds.GroupsUnique | context/compact.go:360-394 | Grouping a sequence of rounds gives those rounds: there is no other way to cut. |
| Rounds.GroupMessagesByApiRound | context/compact.go:360-385 | The accumulating loop computes the rounds. |
| Rounds.FlattenGroups | context/compact.go:388-394 | The appending loop concatenates them. |
| Contexts.Context.DropOldestRounds | context/prune.go:353-430 | Drops as few leading rounds as give the slots asked for, stopping at the rounds to keep and at two messages; the marker is put in front when the head would not be the user's; the reports are signed differences. |
| Contexts.Context.CountDroppable | context/prune.go:374-397 | How many rounds go, and the messages and tokens they hold. |
| Rounds.DropIsLawful | context/prune.go:353-430 | A tool-call-paired history stays paired; if anything was dropped, the marker as a user message is followed by the history from the assistant message on at which the dropped rounds, and no others, end; the slots and signed tokens reported equal the true differences, marker included. |
| Rounds.CutKeepsPaired | context/prune.go:328-336 | Cutting a paired history at an assistant message leaves every result with its call and every call with its result. |
| Contexts.Context.AppendAssistantWithToolCalls | context/context.go:493-528 | Admitted exactly if the message and all results of its calls fit. |
| Contexts.Context.AppendToolResult | context/context.go:459-483 | Appends a tool result with that call id and content unless a ceiling is set and reached. |
| Contexts.Context.RecordTurn | context/context.go:493-528 | Once a turn is admitted its message and then, in order, one result per call with that call's id are appended, and none is refused; otherwise nothing is; a paired history stays paired. |
| Contexts.Context.TokenUsage | context/context.go:611-665 | Usage is the estimate of the system prompt plus the sum over the messages, against the context's limit or, without a positive one, 200,000. |
| Compaction.CompactWithPtlRetry | context/compact.go:320-356 | At most three calls; the k-th request is the conversation without its first k rounds plus the prompt; it stops at a summary, at any other error, or when one round is left. |
| Compaction.RetriesShrink | context/compact.go:320-356 | Each retry is strictly shorter, is a suffix of the conversation plus the prompt, and keeps calls and results paired. |
| Compaction.ShrinkToolResults | context/compact.go:147-165 | Every tool result over 600 tokens that is not the placeholder becomes a fitting prefix and the notice of its size; every other message stays as it is. |
| Compaction.ShrunkKeepsPaired | context/compact.go:147-165 | Trimming contents breaks no pair of call and result. |
| Compaction.RestoreFiles | context/compact.go:441-487 | Restores exactly the five most recent files (or all, if fewer), the i-th message naming the i-th file before its longest prefix of at most 5,000 tokens; the bodies total at most 25,000. |
| Compaction.SortByRecency | context/compact.go:441-453 | Lists every file once, by descending time, in some order of equal times. |
| Compaction.OneListing | context/compact.go:441-453 | With distinct times there is only one such list. |
| Compaction.RestoreSkills | context/compact.go:491-519 | Restores the skills up to the first that would exceed 25,000 tokens, each named before its content or, above 5,000 tokens, its longest fitting prefix and a notice. |
| Compaction.OneMoreSkill | context/compact.go:491-519 | A skill is charged its tokens, or 5,000 if it has more. |
| Compaction.BroughtOnce | context/compact.go:258-280 | The order of the files and the number of skills decide every message that is put back. |
| Compaction.EstimateRestoreTokens | context/compact.go:95-107 | The estimate is the sum of the sizes of what a compaction would put back: up to five files, the skills that fit and the plan if there is one, each with its text. |
| Compaction.Compact | context/compact.go:171-305 | The history is read, the model is asked without the lock, and whatever others have made of the history meanwhile is replaced by a boundary, the stripped answer to the last request, the most recent files, the skills that fit, and last the plan exactly if there is one, each a user message with its text, with the sizes before and after reported truly; without an answer it is left as others have made it. |
| Compaction.PairedAfterCompaction | context/compact.go:171-305 | A compacted history with whatever is appended to it is paired if and only if what is appended is paired by itself. |
| Compaction.LateResultIsOrphaned | context/compact.go:171-305 | A tool result that arrives first after a compaction breaks the pairing, whatever follows. |
| Rounds.UsersInFront | context/prune.go:353-430 | Messages of the user's in front neither pair nor part anything. |
| Compaction.PostTokensAccounted | context/compact.go:278-297 | With distinct file times the size afterwards is boundary plus summary plus the restore estimate. |
| Compaction.CompactedIsOneRound | context/prune.go:337-345 | Right after a compaction the whole history is one round, which cannot be dropped. |
| Landing.FloorLands | kernel/compact.go:169-179 | With the landing floor from the usage there is, pruning leaves the messages untouched or brings usage to at most the target, and reaches the target exactly when clearing everything clearable would. |
| Landing.FloorClears | kernel/compact.go:169-179 | With a floor from any usage, everything clearable goes if that would land this usage, and otherwise nothing. |
| Landing.StaleFloorLands | kernel/compact.go:700-715 | With a usage read before others appended, usage lands exactly if clearing everything lands it. |
| Landing.StaleFloorMisses | kernel/compact.go:700-715 | Exactly when such a floor clears without landing. |
| Landing.RunMechanicalFallback | kernel/compact.go:226-249 | Tokens and slots reported are the true differences, and pairing is kept. |
| Landing.FallBackAfterFailure | kernel/compact.go:700-715 | The failure branch for any usage read before: where usage ends, and when nothing is touched; pairing is kept and what it reports freed is the difference. |
| Landing.LandedMeansReported | kernel/compact.go:751-755 | The reported flag is true exactly when usage is at most the landing tokens. |
| Landing.LittleToGainMeans | kernel/compact.go:637-653 | A compaction is declined exactly if something besides the prompt is in use and the restores would bring back more than nineteen twentieths of it. |
| Landing.ReleasableIsSum | kernel/compact.go:169-179 | What the fallback can release is the sum of what clearing the cold oversized results frees. |
| Landing.AutoCompactor.AutoCompactIfNeeded | kernel/compact.go:543-823 | Acts exactly if enabled, unlatched and over the threshold percentage of the limit; declines, changing nothing, exactly when less than a twentieth of what is reclaimable would be gone after the restores; rewrites with the model's own answer and the restores; falls back and latches only when there is too little to compact or no answer, and then says where usage ends for whatever others made of the history meanwhile. |
| Landing.AutoCompactor.CompactByHand | ipc/server_observe.go:953-1003 | A manual compaction clears the latch exactly by succeeding; a failed one neither latches nor prunes. |
| Landing.AutoCompactor.Steps | kernel/compact.go:547-561 | Over any number of turns, manual compactions among them: automatic compactions fail as often as the latch was cleared by hand, and once more if it is set at the end but was not at the start. |
| StepLog.FileViewAppend | ipc/server_observe.go:613-700 | Folding appended lines onto the old view gives the view of the whole file, if the old file ended with a whole line. |
| StepLog.LinesAppend | internal/jsonl/jsonl.go:51-124 | The lines of a whole-line file followed by more are its lines followed by the others. |
| StepLog.LinesMakeUp | internal/jsonl/jsonl.go:51-124 | The lines of a text joined give it back, and a newline ends every line but perhaps the last and occurs nowhere else. |
| StepLog.MicrosAreWhole | ipc/server_observe.go:436 | Durations are cut toward zero to whole microseconds. |
| Listing.FoldIsLawful | kernel/step_writer.go:355-393 | For any lines and parser: the fold keeps of every step the last record, lists the steps in the order of their first records, and counts the nonblank lines that can be read and those that cannot. |
| Listing.FoldKeepsLaw | ipc/server_observe.go:613-700 | The same for lines read on top of a view of earlier ones. |
| Listing.ListsAreOne | kernel/step_writer.go:355-393 | Any lines have exactly one list of last records in first-seen order. |
| StepLog.ConsumedAll | ipc/server_observe.go:625-660 | The bytes counted as read reach the end of what was appended exactly if it holds no blank line. |
| StepLog.TornLineIsLost | ipc/server_observe.go:605-612 | For any parser and any log: reading on after an unfinished line counts one record or malformed line too many exactly if both parts of the line are more than blank, else none; a record neither part of which can be read is lost. |
| StepLog.CoarseFold | ipc/server_observe.go:666-700 | Reading lines lightly or in full gives the same view once durations are cut to microseconds. |
| StepIndex.ReadStepsFromIdx | kernel/step_idx.go:58-133 | Available exactly if both files exist and the first nonblank line is a header of version 1 with the log's size, or less while a writer is alive; then the last record of every step in the lines after it, in first-seen order, with the numbers of readable and unreadable lines. |
| StepIndex.IndexTells | kernel/step_idx.go:58-133 | What an index lists is what the lines after its first nonblank line hold. |
| StepIndex.RebuildIdx | kernel/step_idx.go:280-378 | Writes a header with the log's size and one line per readable line. |
| StepIndex.RebuiltIsFaithful | kernel/step_idx.go:280-378 | A rebuilt index is available for its log and gives its entries and total; its view is the log's exactly if no line was malformed. |
| StepIndex.MirrorKept | kernel/step_writer.go:122-175 | When the writer appends a record and its summary, the index goes on lacking exactly as many records as before, and if none it has the log's. |
| StepIndex.FreshShowsNothing | kernel/step_writer.go:58-81 | An index just begun may stand for its log, alive or dead, and shows nothing, whatever the log holds. |
| StepIndex.RebuiltMirrors | kernel/step_idx.go:280-378 | A rebuilt index lacks no record of its log. |
| StepIndex.LateRebuildFallsBehind | kernel/step_idx.go:268-279 | A rebuild finished under a live writer leaves a usable index that lacks every record written from then on, however many. |
| Codecs.SoundCodecExists | kernel/step_idx.go:280-378 | There are formats in which index lines and headers read back as written. |
| StepCache.CacheState.MergeAppend | ipc/server_observe.go:613-661 | Merging what was appended folds it onto the cached view in place: after it the view holds of every step the last record of the lines read before and now, in first-seen order, with their counts; it counts the bytes of the lines handed out. |
| StepCache.CacheState.CatchUpIdx | ipc/server_observe.go:519-530 | After an index grew, the cached view is that of the whole index and the watermark its size. |
| StepCache.CacheState.CatchUpLog | ipc/server_observe.go:551-559 | After the log grew, the cached view is that of the whole log, up to durations below a microsecond. |
| StepCache.Server.EvictIdxCache | ipc/server_observe.go:764-779 | Leaves room for one path; a path dropped was last accessed before all that stay. |
| StepCache.Server.Insert | ipc/server_observe.go:588-590 | At most eight paths are cached, and a path is dropped only after eight other distinct paths were accessed since its own last access. |
| StepCache.Server.ListStepsViaCache | ipc/server_observe.go:498-594 | Every branch of hit and miss: what is served is the last record of every step in the whole file followed, in first-seen order, with the counts; other paths are unaffected, and a miss leaves the path uncached and means the index is not usable. |
| StepCache.Server.BackfillIdxCache | ipc/server_observe.go:716-747 | Caches the view of a full read and follows the log from its end. |
| StepCache.Server.ListSteps | ipc/server_observe.go:379-446 | Serves from the cache or from a full read, which is then cached: the last record of every step in the index's lines after its header, or else in the log with durations to the microsecond, in first-seen order, with the numbers of readable and unreadable lines; fails only when the log it would have to read is not there. |
| StepCache.ReadAllSteps | kernel/step_writer.go:355-393 | A full read gives the last record of each step, in the order of the first ones, and the numbers of readable and unreadable nonblank lines. |
| StepCacheRuns.Serve | ipc/server_observe.go:379-594 | Over any interleaving of starts, opened writers, records, deaths, returns, index rebuilds done or skipped, and requests, chosen adversarially: an answer comes from the index exactly if that was followed before or may stand for the log, and it is the last record of every step of the log in first-seen order with the number of records, durations to the microsecond, if and only if it does not or the index lacks no record; malformed lines are counted exactly unless it does. |
| StepCacheRuns.AnswersAgree | ipc/server_observe.go:379-594 | In terms of the events: an answer agrees exactly if the index was not begun when the log held a record, or has been rebuilt since, or is neither followed nor usable when the request comes; while the process is alive, exactly if one of the first two. |
| StepCacheRuns.DeadAnswersAgree | ipc/server_observe.go:379-594 | For a dead process: an index begun late shows exactly if it was followed before the request or nothing has been written since it was begun. |
| StepCacheRuns.HeaderIsCurrent | kernel/step_idx.go:58-95 | At every point of a run the index may stand for the log of a dead process exactly if nothing was written since it was begun or rebuilt. |
| StepCacheRuns.MissingMeansLate | kernel/step_writer.go:58-81 | At every point of a run the index lacks records exactly if it was begun late and not rebuilt. |
| StepCacheRuns.ResumedWithoutIndex | kernel/reason.go:34-60 | A process resumed with a log and no index is answered with an empty list. |
| StepCacheRuns.EventKeepsInv | kernel/step_idx.go:280-378 | Whatever a process or a rebuild does between requests leaves every cached view a fold of a prefix of the file it follows, and every index short of its log by exactly the records it was never given. |
| CoroutineProtocol.CallsReturnTheScript | kernel/coroutine.go:141-240 | In every interleaving, successful calls return in order what the function yields and then what it returns, and the coroutine is removed exactly when all has been returned. |
| CoroutineProtocol.NoDeadlock | kernel/coroutine.go:60-87 | No reachable state blocks both sides: somebody can move, or the goroutine waits and a call would be accepted, or all is done. |
| CoroutineProtocol.NoRejectionOnceStarted | kernel/coroutine.go:141-240 | From the first value to the result no call is rejected. |
| CoroutineProtocol.RejectionIsHarmless | kernel/coroutine.go:141-180 | A rejected call changes nothing, and rejection happens only before the first value or after the end. |
| CoroutineProtocol.InnerStepsRunOut | kernel/coroutine.go:60-87 | Between two calls only finitely many steps are possible. |
| CoroutineProtocol.ResultNeedsAYield | kernel/coroutine.go:60-87 | Without a yield no call is ever accepted and the result is lost. |
| SubAgentSteps.StreamConserves | kernel/cli_subagent.go:247-350 | Over any stream of frames the steps written and the calls open are disjoint and together exactly 1 to the last number handed out. |
| SubAgentSteps.DrainWritesAll | kernel/cli_subagent.go:237-242 | Flushing what is open writes every number exactly once in all. |
| SubAgentSteps.DrainOldestFirst | kernel/cli_subagent.go:237-242 | What flushing writes are the open calls with their names and results, in the order of their steps. |
| SubAgentSteps.CallIsRecorded | kernel/cli_subagent.go:197-234 | A call whose input the assistant stated, over frames that do not name it: its result is recorded once with exactly that input and result, unless the call was opened last and a completion naming no waiting call came before another was opened; then the call is closed already and its result dropped. |
| SubAgentSteps.AwaitedOrTaken | kernel/cli_subagent.go:295-305 | Exactly which frames close a waiting call they do not name, decided from the frames and the ids waiting at the start. |
| SubAgentSteps.StrayCompletion | kernel/cli_subagent.go:295-305 | A completion for an unknown call closes the call just opened with its own result. |
| SubAgentCalls.UseStatesInput | kernel/cli_subagent.go:309-339 | From any state a recording reaches, a block of an assistant frame leaves its call awaited with the input it states, whether the call was waiting before or is opened by it; the name is taken only if the call had none, and all else of the call stays. |
| SubAgentCalls.FrameStatesInput | kernel/cli_subagent.go:309-339 | The same for a whole assistant frame that names calls in any number and order: the last readable input stated for a call is the one it is awaited with. |
| SubAgentCalls.CompletionRecords | kernel/cli_subagent.go:295-305 | A completion writes exactly one record, of the waiting call it names or else the current one, with the stated input or else the streamed one, and its own result or else the one known before; without such a call nothing happens. |
| SubAgentCalls.ResultRecords | kernel/cli_subagent.go:340-350 | A result writes exactly one record of the waiting call it names, with the stated or else the streamed input, and otherwise changes nothing. |
| SubAgentCalls.StreamedCall | kernel/cli_subagent.go:264-294 | The streamed input of a call is its command, or its path without one, followed by the deltas in order. |
| SubAgentCalls.CallWithoutStatedInput | kernel/cli_subagent.go:264-350 | A start, any deltas and the result write exactly one record: the next step number, the tool, its path, the streamed input and the result. |
| SubAgentCalls.CallCompleted | kernel/cli_subagent.go:264-305 | The same for a call ended by a completion. |
| SubAgentCalls.StartedCallIsRecorded | kernel/cli_subagent.go:197-350 | A start, any deltas, an assistant frame that states the input, any frames that do not name the call, and the result: one record with the stated input, unless a stray completion took the call. |
| SubAgentCalls.OrdinaryCall | kernel/cli_subagent.go:197-350 | Without frames in between exactly that record is written. |
| SyntheticChildren.SyntheticChild.Feed | kernel/cli_subagent.go:247-350 | On the shared objects, one frame does what the value-level function says. |
| SyntheticChildren.SyntheticChild.Flush | kernel/cli_subagent.go:197-234 | Writes one record and takes the call out of the map, the list and the cursor; nothing happens for a call already flushed or without a writer. |
| SyntheticChildren.SyntheticChild.FlushAll | kernel/cli_subagent.go:237-242 | Ends exactly if there is a writer or nothing is open; then every open call has been flushed, oldest first. |
| SyntheticChildren.SyntheticChild.Finalize | kernel/cli_subagent.go:511-523 | Flushes and closes once; a second call does nothing. |
| SyntheticChildren.Observe | kernel/cli_subagent.go:247-350 | A sub-agent from first frame to end: its log holds each step number exactly once. |

## Left out

- Language-model calls, process spawning and waiting, file reads, clocks and the network are arbitrary results passed in; I/O errors other than missing files are not modelled.
- Callbacks, drift records, progress reports, events, log lines and the injection of upstream results into a node's context (`intent/reconciler.go:241-263`) do not influence scheduling and are not modelled.
- Node ids are wrapped in a `Name`; their order is the lexicographic one on characters.
- A node's context, children and time of last failure, which scheduling does not read.
- One worker per node does not survive a merge that resets an executing node; with merges the weaker invariants of `ReconcilerMerges` are what holds.
- ReconcilerProtocol.NoStuckRun: is stated without merges; with them `ReconcilerMerges.CompletedReportExact` is what remains true.
- The channel of a reconciler made for an empty tree, which has no buffer, once nodes have been merged into it before the run.
- The unknown-dependency check that the reconciler makes before building the graph is part of `DagBuilding.BuildIntentDag`.
- Resuming a workflow from a node (`compose/engine.go:319-410`) and cancellation in the compose engine.
- SLA evaluation, reputation, synergy records, prompt building and agent selection in the compose engine.
- Priorities are the three the parser yields; quota records are values in the pool's map rather than objects.
- Floating-point rounding of estimates and percentages; quotients are exact reals, and the truncation loop is proved for every rounding of its first guess.
- Texts are valid UTF-8; the bytes of invalid sequences are not modelled.
- Summary extraction from a reply, the truncation notice, and the wording of prompts are parameters; section registries and their caches are not modelled.
- Contexts.Context.DropOldestRounds: does not promise the slots asked for, because the marker can cost one and the floor can stop it; how many rounds go is stated exactly.
- The resume paths of the kernel's reclamation and its proactive pruning gate, which call the same two primitives.
- StepCacheRuns.Serve: treats a request as one step with respect to writers, because the code documents a window during a full scan of a live log (`ipc/server_observe.go:705-715`).
- In `StepCacheRuns` a process comes back only when no rebuild of its index is still to be done or skipped (`StepIndex.LateRebuildFallsBehind` says what happens otherwise), a rebuild reads and renames in one step, failed index writes of a step writer are not modelled, file sizes are counted in characters, and step lines are malformed for the full reader exactly if they are for the light one.
- Byte offsets of cached entries, step filters and pagination, and step detail by offset.
- `kernel.Yield` and several callers of one coroutine, which are outside the protocol that works.
- Sub-agent trackers, process records and event files; frames fed after a sub-agent has ended.
- `intent/engine.go`, whose place the reconciler has taken.
