# A verified model of fluxq

fluxq is a scheduler over a fleet of clusters. A submitted job is evaluated against every registered
cluster, placed on the best one that has room, dispatched, repaired if its rendered form is rejected,
monitored, and finally its nodes are freed. This project models that logic in Dafny and proves what it
keeps. `dafny verify dfyconfig.toml` checks everything.

## How it is organised

| file | what it models |
|---|---|
| `Jobspec.dfy`, `Sections.dfy` | request trees, counting, canonical rendering (the resources part of Flux RFC 25, Job Specification Version 1), `anyof` expansion |
| `Graphs.dfy`, `GraphWalks.dfy`, `Builder.dfy`, `Discovery.dfy` | resource graphs, the recursive walks, the imperative builder, grouping of discovered nodes |
| `Satisfaction.dfy` | matching a request tree against a subsystem graph |
| `Matcher.dfy`, `SimMatcher.dfy` | the allocation ledger as functions with its invariant, and the matcher object that updates it in place |
| `Reconcile.dfy` | node shapes, the exact-divisor search, repack proposals |
| `Score.dfy` | the default score, shuffle, stable sort, ranking trace |
| `Scheduling.dfy`, `Placement.dfy` | one schedule pass as a sequence of turns: who fails, waits or is placed, where, and in what order |
| `Inline.dfy` | the sequential inline manager object: submit, schedule pass, monitor pass, cancel, register, unregister, and whole runs of it |
| `CriticalSections.dfy` | what the staged pipeline does under the manager's lock |
| `Pipeline.dfy`, `PipelineSafety.dfy`, `PipelineTheorems.dfy`, `PipelineTerminal.dfy`, `PipelineProgress.dfy`, `PipelineLimits.dfy` | the staged pipeline as a concurrent protocol, its invariant, what the invariant means, when terminal states are final, which jobs can still complete, and where the guarantees end |
| `Memory.dfy`, `MemoryLabels.dfy` | memory buckets from discovery to requirement; their bounds parsed back out of the label texts |
| `JobIds.dfy`, `Registry.dfy` | job ids; the fleet's and the matcher's copies of all registered clusters |

Code that updates state in place is modelled by classes and methods with loops; each is proved equal to a
function of the old state, and the properties are proved about those functions.

## The pipeline protocol and its hypotheses

Each section of code that holds the manager's lock is one atomic step. The slow calls between two such
sections are gaps in which any step of any other actor may fall. The outcome of an attempt, the polled
status and the scheduler's choice of cluster are arbitrary. The hypotheses are written into `Pipeline.dfy`
as the enabling condition of each step:

- One scheduler loop. Its read, its allocation, its unlocked Update and its stage insert are four steps.
- The scheduler's Update does not fall inside another actor's locked section.
  `PipelineLimits.UpdateInsideSectionLeaks` shows what happens otherwise.
- Stage inserts succeed, and each stage entry is delivered at most once per attempt. A retried dispatch
  entry may be discarded by the queue when its attempts run out.
- A driver reports Running, Completed or Failed, or no status at all.
- Ids of new submissions are fresh. `JobIds.QueueIntactIff` says this holds for exactly the first 10000.

The inline model (`Scheduling.dfy`, `Inline.dfy`) numbers jobs by submission, where the code uses job ids. Its
conservation and order results therefore hold for at most 10000 submissions, the ones whose ids are all
different (`JobIds.QueueIntactIff`). Submit times increase with each submission.

## Where the code does less than its comments say

- A terminal state can be rewritten: `pkg/manager/pipeline.go:179`, `:286` and `:335` write the state
  without looking at it. `PipelineTerminal.TerminalRewrittenIffGap` gives the exact condition, and
  `PipelineLimits.CancelInGapIsUndone` a run that loses a cancellation and runs on without nodes.
- The scheduler's note is written back without the lock (`pkg/manager/manager.go:111-120`), so it can undo a
  cancellation: `PipelineLimits.NoteRevives`.
- A job that reaches the monitor without a handle is passed round for ever, and nothing but a cancellation ends
  it: `PipelineProgress.LiveCompletableIff`.
- The allocation is said to be owned by whatever stage holds the job and freed on every way out
  (`pkg/manager/pipeline.go:13-18`). When the queue stops retrying a dispatch entry no stage holds the job,
  and it stays Matched or Dispatching with its nodes until somebody cancels it:
  `PipelineLimits.DiscardStrands`, `PipelineLimits.DiscardHoldsNodes`.
- The repacker is described as work-preserving (`pkg/reconcile/reconcile.go:128-132`). Total cores are
  kept; total gpus, the task total and exclusivity are kept only under the conditions in
  `Reconcile.GpuTotalKept`, `Reconcile.TaskTotalKept` and `Reconcile.ExclusiveKept`, which
  never hold for gpus or an unwritten task total where capacity is what the job lacks
  (`Reconcile.ImpossibleJobLoses`).
- The free-now bonus is meant to make a runnable cluster beat a full one (`pkg/score/score.go:48`). It
  does so only when the runnable one has at most one spare node: `Score.FullOutranksFree`.
- `memory_at_least` promises the named bucket or any larger one. The vocabulary is sorted as text, which
  puts 192GB+ before 64-192GB: `Memory.LexicographicBreaksTwo`.
- A transient outcome of a repair attempt is a hard failure (`pkg/manager/pipeline.go:256`), unlike one of
  a dispatch attempt.
- After a subsystem is unregistered, the fleet's copy of the cluster can keep its descriptive flag while
  the matcher's does not: `Registry.FlagsAgreeIff`, `Registry.StaleFlag`.
- Job ids repeat every 10000 submissions, and a repeated id replaces the older record:
  `JobIds.LatestWins`.

## Model

| member | source | states |
|---|---|---|
| `PipelineTheorems.NoDoubleFreeNoLeak` | pkg/manager/pipeline.go:136-157 | In every state of every interleaved run, each minted allocation id has been freed at most once; it is unfreed exactly while one job record, or the scheduler iteration in progress, names it; nobody else names it; and only unfreed ids hold nodes. |
| `PipelineTheorems.LiveNodesHaveActiveJobs` | pkg/manager/pipeline.go:162-339 | A node that is handed out belongs to a job in Matched, Dispatching or Running, unless the scheduler is placing it at that moment. |
| `PipelineTheorems.StageRules` | pkg/manager/pipeline.go:162-339 | In every reachable state a job has at most one stage entry; Submitted means no entry and no allocation, cluster or handle; terminal means no allocation; Running means an entry in or on its way to the monitor queue; Matched and Dispatching hold an allocation and an entry unless the queue discarded it. |
| `PipelineTheorems.BoundedWork` | pkg/manager/pipeline.go:45-48 | No job is rescheduled more than 3 times or placed more than 4, and, transient retries aside, it runs at most 4 dispatch and 12 repair attempts. |
| `PipelineTheorems.ProductiveBounded` | pkg/manager/pipeline.go:303-339 | In every run at most 20 steps in all place a job, end one of its dispatch attempts other than by a transient retry, or start one of its repairs. |
| `PipelineTheorems.AllTerminalAllFree` | pkg/manager/pipeline.go:264-297 | Once every job is terminal and the scheduler holds nothing, every cluster has every node free and evaluation reports its idle capacity. |
| `PipelineTheorems.SectionsFindConsistent` | pkg/manager/pipeline.go:9-17 | Whatever ran in the gap before it, every locked section finds records that name distinct minted unfreed ids, terminal records that name none, no id freed twice, and no node held by a freed id. |
| `PipelineProgress.LiveCompletableIff` | pkg/manager/pipeline.go:162-339 | In every reachable state, some continuation of the run completes a live job, with the allocation it names now freed once, if and only if its entry was not discarded, it is not bound for the monitor or there without a handle, and it is not being rescheduled beyond the limit. |
| `PipelineProgress.AllocationNeverMoves` | pkg/manager/pipeline.go:136-157 | Over every run an allocation that a job names stays named by this job and unfreed until it is freed, exactly once; it never passes to another job. |
| `PipelineProgress.RunningJobCompletes` | pkg/manager/pipeline.go:264-297 | Over the steps alone: a live job with a handle whose monitor entry waits can be polled next, and a poll that reports it completed leaves it Completed, naming no allocation, with no entry. |
| `PipelineProgress.MonitorPolls` | pkg/manager/pipeline.go:271-286 | Serving the monitor entry of a live job starts a poll exactly when the job has a handle, and then any status a driver may report, or none, can be the answer. |
| `PipelineProgress.PollCompletes` | pkg/manager/pipeline.go:286-295 | The answer Completed ends the entry and the claim on nodes. |
| `PipelineProgress.EntryServed` | pkg/manager/river.go:73-98 | In a reachable state no stage entry is stuck: a worker step is enabled on each. |
| `PipelineProgress.AttemptsOpen` | pkg/manager/pipeline.go:162-240 | A dispatch or repair entry of a live job starts an attempt that may end in every way; an entry of a job that is over is dropped. |
| `PipelineProgress.WaitingServed` | pkg/manager/manager.go:219-270 | An idle scheduler can take up any waiting job, and then note it unchanged, fail it, or try any cluster. |
| `PipelineTerminal.TerminalRewrittenIffGap` | pkg/manager/pipeline.go:174-186 | A terminal state of a reachable state is rewritten in some continuation of the run if and only if an unlocked gap is open on that job now: a worker in its slow call or about to reschedule, a copy held by the scheduler, or a canceller that read a job since completed. |
| `PipelineTerminal.ShutStaysShut` | pkg/manager/pipeline.go:284-295 | In every run, with no assumption on any cancellation: a terminal job with no gap open keeps its state for ever, and no gap opens on it again. |
| `PipelineTerminal.NextRewriteIffGap` | pkg/manager/pipeline.go:318-337 | The very next step can rewrite a terminal state if and only if such a gap is open. |
| `PipelineTerminal.QuietTerminalAbsorbing` | pkg/manager/manager.go:620-647 | If the cancellations of one job fall outside its gaps, its terminal states never change again, whatever happens to other jobs. |
| `PipelineTerminal.QuietRunningHoldsAllocation` | pkg/manager/pipeline.go:177-188 | Under the same condition on that job alone, while it is Matched, Dispatching or Running it holds an allocation that has not been freed. |
| `PipelineSafety.RunInv` | pkg/manager/pipeline.go:9-17 | Every state of every run keeps the per-job protocol invariant, the one-entry rule, the ownership of every outstanding allocation and the matcher invariant. |
| `PipelineSafety.LocalStep` | pkg/manager/pipeline.go:162-339 | Every step, by whichever actor, keeps the per-job invariant of every job. |
| `PipelineSafety.OwnedStep` | pkg/manager/pipeline.go:136-157 | Every step keeps each outstanding allocation owned by exactly one record or by the scheduler. |
| `PipelineLimits.CancelInGapIsUndone` | pkg/manager/pipeline.go:176-188 | A cancellation during a dispatch attempt leaves the job Failed and naming no allocation, and the attempt's success then makes it Running, still without one. |
| `PipelineLimits.CancelInGapFrees` | pkg/manager/pipeline.go:136-157 | In a reachable state that cancellation hands back exactly the allocation the job held: freed once, its nodes free, everybody else's as before. So the job that runs on afterwards holds no node. |
| `PipelineLimits.NoteRevives` | pkg/manager/manager.go:111-120 | A job cancelled between the scheduler's snapshot and its unlocked note is written back as it was, and waits again. |
| `PipelineLimits.GapIsReachable` | pkg/manager/pipeline.go:162-174 | The situation of the previous row is reachable from the initial state with one job and one satisfy-only cluster. |
| `PipelineLimits.UpdateInsideSectionLeaks` | pkg/manager/manager.go:280-290 | If the scheduler's unlocked Update lands between a locked section's read and write, the fresh allocation is outstanding and nobody names it. |
| `PipelineLimits.DiscardStrands` | pkg/manager/pipeline.go:14-18 | Over every run: a live job whose dispatch entry the queue discarded keeps its record, Matched or Dispatching with an unfreed allocation, until a cancellation of that very job, whatever all other actors do. |
| `PipelineLimits.DiscardHoldsNodes` | pkg/manager/pipeline.go:136-143 | As long as the fleet does not change either, it keeps the very same nodes. |
| `PipelineLimits.StrandedStep` | pkg/manager/pipeline.go:162-339 | One step of that: every enabled step but its own cancellation leaves a stranded job's record as it is. |
| `PipelineLimits.DiscardDrops` | pkg/manager/river.go:73-79 | How a job comes to that: a transient failure after which the entry is not tried again leaves the live record behind with no entry. |
| `CriticalSections.Manager.FreeLocked` | pkg/manager/pipeline.go:136-143 | What the record names is handed back, for the first time and nothing else with it: its nodes are free and all others held as before; and storing the record without it, whatever else is written, leaves the state consistent. |
| `CriticalSections.Manager.FailByID` | pkg/manager/pipeline.go:145-157 | The record ends Failed and names nothing, what it named is handed back once, every other record and allocation is untouched, and the state stays consistent. |
| `CriticalSections.Manager.DispatchEnter` | pkg/manager/pipeline.go:162-172 | Exactly a live job goes on, keeping its allocation; a missing or terminal one changes nothing. |
| `CriticalSections.Manager.MarkRunning` | pkg/manager/pipeline.go:177-186 | Running with the handle even over a terminal state; only this record changes, and no allocation moves. |
| `CriticalSections.Manager.DispatchLeave` | pkg/manager/pipeline.go:176-211 | The next stage follows exactly from success and repairable, a retry exactly from transient; only a hard failure hands the allocation back in this section, every other outcome keeps it; no other record changes. |
| `CriticalSections.Manager.RepairLeave` | pkg/manager/pipeline.go:227-260 | A retry happens exactly on a repairable outcome with attempts left; a job that stops is Failed with its allocation handed back once; every other route keeps it; a transient outcome stops the job. |
| `CriticalSections.Manager.MonitorRecord` | pkg/manager/pipeline.go:284-297 | The polled state is recorded over any other, and the allocation is handed back exactly when that state is terminal. |
| `CriticalSections.Manager.RescheduleFinish` | pkg/manager/pipeline.go:318-339 | The allocation is handed back and the handle forgotten; the job waits again, counted once more, exactly if it has been rescheduled fewer than three times, and is Failed otherwise. |
| `CriticalSections.Manager.HandleDispatch` | pkg/manager/pipeline.go:162-211 | A whole dispatch, whatever consistent state the others leave in its two gaps: a job that is not live is left alone; otherwise next stage and retry follow exactly from the outcome, and compared with the state found at that moment the record is Running with the handle, Failed with what it named handed back once, moved on, or untouched. |
| `CriticalSections.Manager.HandleRepair` | pkg/manager/pipeline.go:215-260 | A whole repair, with arbitrary interference in both gaps: monitored exactly on success, retried exactly on a repairable outcome while attempts are left with nothing written, moved on after a wrong target, and otherwise Failed with what the record named by then handed back once. |
| `CriticalSections.Manager.HandleMonitor` | pkg/manager/pipeline.go:264-297 | A whole poll, with arbitrary interference in its gap: done exactly when the job was not live or is reported terminal; a missing handle or a failed poll writes nothing; a status is recorded over whatever was found, a terminal one handing back what the record names by then. |
| `CriticalSections.ReleaseKeeps` | pkg/manager/pipeline.go:136-143 | Releasing what a record of a consistent state names, and storing the record without it, gives a consistent state again. |
| `Matcher.RunInv` | pkg/matcher/sim.go:40-94 | After any sequence of cluster, subsystem, allocate and free operations, the busy set of each cluster is exactly the disjoint union of the nodes of its live allocations, and the order list has no duplicates and lists exactly the registered clusters. |
| `Matcher.ApplyInv` | pkg/matcher/sim.go:244-288 | Each single operation keeps that invariant. |
| `Matcher.AddClusterInv` | pkg/matcher/sim.go:40-49 | Registering, or replacing under running allocations, keeps the index exact. |
| `Matcher.RemoveClusterInv` | pkg/matcher/sim.go:51-68 | Removing a cluster drops its live records together with its busy set. |
| `Matcher.AllocateInv` | pkg/matcher/sim.go:244-269 | A granted allocation takes only nodes nobody holds. |
| `Matcher.FreeInv` | pkg/matcher/sim.go:271-283 | A free gives back exactly the nodes of that allocation. |
| `Matcher.DeadStaysDead` | pkg/matcher/sim.go:271-288 | An id that is no longer live never becomes live again. |
| `Matcher.StaleFree` | pkg/matcher/sim.go:51-68 | Freeing an allocation of a cluster that was removed changes nothing, whatever happened since, re-registration and new allocations included. |
| `Matcher.FreeUndoesAllocate` | pkg/matcher/sim.go:244-283 | Allocate then Free restores the whole ledger except the id counter. |
| `Matcher.NothingHeldNothingTaken` | pkg/matcher/sim.go:213-240 | With no live allocation every node is free and FreeNodes is the idle capacity. |
| `Matcher.GrantMeaning` | pkg/matcher/sim.go:244-269 | A reserving cluster grants exactly the asked number of nodes, each free before, big enough, distinct when node ids are, and held afterwards, with other clusters untouched; a feasible cluster grants exactly when evaluation called it free now. |
| `Matcher.GrantIsEarliest` | pkg/matcher/sim.go:258-265 | A grant takes the earliest fitting nodes in vertex order: a free fitting node that is left out stands after every granted one. |
| `Matcher.AllocateOutcomes` | pkg/matcher/sim.go:244-269 | Unregistered clusters are refused, satisfy-only ones grant the next id and hold nothing, and a reserving one is full exactly when fewer fitting nodes are free than asked for; a refusal changes nothing. |
| `Matcher.CandidateMeaning` | pkg/matcher/sim.go:213-240 | Matched are exactly the requirements whose section the subsystem meets; missing are exactly the others, and containment when the idle cluster is too small; feasible means nothing missing, and free now means feasible with enough free nodes. |
| `Matcher.GrantHostsRequest` | pkg/matcher/sim.go:244-269 | The granted nodes host the whole request, mixed node entries included, one instance per node. |
| `Matcher.FittingDistinct` | pkg/matcher/sim.go:193-210 | Distinct node ids give distinct fitting nodes. |
| `Matcher.FittingMembers` | pkg/matcher/sim.go:193-210 | The fitting nodes are exactly the node vertices that are not busy and whose capacity covers the need. |
| `SimMatching.SimMatcher.constructor` | pkg/matcher/sim.go:30-38 | A new matcher holds exactly the given fleet, registered in order, and satisfies the invariant. |
| `SimMatching.SimMatcher.AddCluster` | pkg/matcher/sim.go:40-49 | The in-place update is the ledger's AddCluster and keeps the invariant. |
| `SimMatching.SimMatcher.RemoveCluster` | pkg/matcher/sim.go:51-68 | The loops over order and live records are the ledger's RemoveCluster. |
| `SimMatching.SimMatcher.AddSubsystem` | pkg/matcher/sim.go:70-80 | The subsystem and its descriptive flag are attached, or the unknown-cluster error leaves everything as it was. |
| `SimMatching.SimMatcher.RemoveSubsystem` | pkg/matcher/sim.go:82-94 | The subsystem and its flag are removed; containment, unknown clusters and absent names are refused with nothing changed. |
| `SimMatching.SimMatcher.FittingNodes` | pkg/matcher/sim.go:193-210 | The loop returns the fitting vertices in vertex order. |
| `SimMatching.SimMatcher.SplitRequirements` | pkg/matcher/sim.go:213-240 | The loop over required subsystems splits them into satisfied and missing. |
| `SimMatching.SimMatcher.Evaluate` | pkg/matcher/sim.go:213-240 | One candidate per registered cluster, in order, as the ledger evaluates it. |
| `SimMatching.SimMatcher.Allocate` | pkg/matcher/sim.go:244-269 | The three outcomes and the new state are the ledger's Allocate. |
| `SimMatching.SimMatcher.Free` | pkg/matcher/sim.go:271-283 | The new state is the ledger's Free; unknown ids change nothing. |
| `Satisfaction.SatisfiesIffHom` | pkg/matcher/sim.go:130-165 | A request is satisfied if and only if the whole request tree maps into the graph, matching names at every position and sending every parent-child step to an edge (positions may share a vertex); cyclic graphs included. |
| `Satisfaction.AddingNeverLoses` | pkg/matcher/sim.go:141-165 | Vertices with fresh ids and any edges never lose a match. |
| `Satisfaction.AskingLessNeverLoses` | pkg/matcher/sim.go:141-165 | Dropping, repeating or reordering `with` children never loses a match. |
| `Satisfaction.SubsystemMeaning` | pkg/matcher/sim.go:172-191 | A registered subsystem satisfies a section if and only if every plain entry is satisfied and every anyof entry has a satisfied child. |
| `Satisfaction.VertexAnswers` | pkg/matcher/sim.go:126-137 | A vertex answers a request exactly for its type, its basename and its name. |
| `Sections.ExpandMeaning` | pkg/jobspec/flux.go:67-86 | For every predicate on entries, some expanded row is wholly satisfied if and only if the section is met directly. |
| `Sections.ExpandShape` | pkg/jobspec/flux.go:67-86 | The number of rows is the product of the anyof arities and every row has one entry per section entry. |
| `Sections.EmptyAnyOf` | pkg/jobspec/flux.go:67-86 | A section with an empty anyof can never be satisfied. |
| `Sections.ExpandSection` | pkg/jobspec/flux.go:67-86 | The nested loops compute the expansion, in order. |
| `Jobspec.CountTree` | pkg/jobspec/jobspec.go:105-164 | The accumulator walk computes the counts whose meaning the next rows give. |
| `Jobspec.CountsWrittenOut` | pkg/jobspec/jobspec.go:105-164 | Write every entry of count n as n entries of count one, at every level: the node count is the number of places where an outermost node entry then stands, or one if there is none, and in that case the one node asks for all cores, gpus and memory entries there are. |
| `Jobspec.NodesAreSpots` | pkg/jobspec/jobspec.go:125-135 | The sum of products over outermost node entries is the number of such places in the request written out. |
| `Jobspec.AskedIsEntries` | pkg/jobspec/jobspec.go:106-124 | What a subtree asks of a node is the number of entries of the type in it, written out, nested counts multiplied. |
| `Jobspec.ChainAsks` | pkg/jobspec/jobspec.go:134-149 | One outermost node entry asks of its node the entries of each type below it, written out. |
| `Jobspec.LargestAttained` | pkg/jobspec/jobspec.go:134-149 | The per-node needs are the maxima over the outermost node entries: none exceeds them and each that is not zero is attained. |
| `Jobspec.ChainsBySpot` | pkg/jobspec/jobspec.go:125-153 | The chains summed over correspond one to one, in order, to the places where an outermost node entry stands, equal siblings included, each with its path. |
| `Jobspec.EverySpot` | pkg/jobspec/jobspec.go:125-153 | No such place is missing. |
| `Jobspec.ChainsAreOutermost` | pkg/jobspec/jobspec.go:125-153 | As entries, the chains are exactly the paths from a top-level entry through non-node entries to a node entry. |
| `Jobspec.Walk` | pkg/jobspec/jobspec.go:125-153 | The recursive closure adds exactly what the remaining entries contribute, at every multiplier. |
| `Jobspec.PerNode` | pkg/jobspec/jobspec.go:106-124 | The per-node closure adds exactly the units under a node, at every multiplier. |
| `Jobspec.MixedRequestHosted` | pkg/jobspec/jobspec.go:105-164 | Any Nodes() nodes that each meet the per-node maxima host the node instances of a mixed request one to one. |
| `Jobspec.ContainmentCounts` | pkg/jobspec/jobspec.go:254-266 | Counting inverts Containment, with each argument clamped to what a request can mean. |
| `Jobspec.FluxTreeCounts` | pkg/jobspec/flux.go:16-33 | The rendered tree keeps nodes, gpus and memory, and asks for max(1, cores). |
| `Jobspec.ExclusiveIff` | pkg/jobspec/jobspec.go:194-216 | A job wants whole nodes if and only if its nodes are asked for no core, or at some place of the request, at any depth, stands a node entry marked exclusive. |
| `Jobspec.FluxTreeExclusive` | pkg/jobspec/flux.go:16-33 | The rendered node entry is marked exclusive if and only if the request asks for no core per node or marks a node entry at some place; rendering keeps exclusivity both ways. |
| `Jobspec.FluxTreeLevels` | pkg/jobspec/flux.go:24-33 | The rendered tree is node, slot, socket, core, the slot labelled as the task expects, with at most gpus and memory in GB beside the socket. |
| `Jobspec.FluxTreeIdempotent` | pkg/jobspec/flux.go:16-33 | Rendering a rendered tree changes nothing. |
| `Graphs.Index` | pkg/graph/jgf.go:58-69 | The two maps agree with a scan of the lists: the latest vertex of each id, and the children of each id in edge order. |
| `Graphs.NodeCapacity` | pkg/matcher/sim.go:98-124 | The recursion returns the units of each type strictly below the node. |
| `Graphs.WalkUnder` | pkg/matcher/sim.go:101-121 | The accumulating closure adds exactly the units below its vertex. |
| `Graphs.UnderStable` | pkg/matcher/sim.go:98-124 | What lies below a vertex depends only on what it can reach: growing the graph elsewhere changes nothing. |
| `GraphWalks.UnderIsWalkSum` | pkg/matcher/sim.go:98-124 | On every graph where the walk ends, what it sums is the sizes at the ends of all walks that leave the vertex, each walk once: sizes of zero or less count one, a target that is no vertex nothing, and a vertex reached twice counts twice. |
| `GraphWalks.WalksComplete` | pkg/matcher/sim.go:101-121 | The listed walks are exactly the walks. |
| `Graphs.IdsOfKindMembers` | pkg/graph/jgf.go:71-79 | The ids listed for a type are those of exactly the vertices of that type. |
| `Builder.BuiltCapacities` | pkg/graph/build.go:51-105 | Round trip: the capacities read back from a built graph are exactly the list of node descriptions put in, in order. |
| `Builder.BuiltNumbered` | pkg/graph/build.go:30-42 | Vertex ids are 0, 1, 2, ... without repetition and every edge goes from a smaller id to a larger. |
| `Builder.BuiltAcyclic` | pkg/graph/build.go:51-105 | Hence every walk over a built graph ends. |
| `Builder.BuiltTree` | pkg/graph/build.go:51-105 | Every built graph is one tree below the cluster vertex: each other vertex has exactly one parent, earlier and of the level above, cluster, rack, node, socket, core, with gpus and memory under the node. |
| `Builder.BuiltNames` | pkg/graph/build.go:64-68 | Node vertices are numbered through: the k-th is named node k. |
| `Builder.NodeNamesDiffer` | pkg/graph/build.go:64-68 | No two nodes of a built cluster share a name. |
| `Builder.BuildContainment` | pkg/graph/build.go:51-105 | The nested builder loops produce exactly the graph of the flattened groups; negative counts count as zero. |
| `Builder.AddGroup` | pkg/graph/build.go:64-103 | One group appends one block per node, each with its clamped description. |
| `Builder.JgfBuilder.Add` | pkg/graph/build.go:30-37 | The vertex is stored under the next id and nothing else changes. |
| `Builder.JgfBuilder.Link` | pkg/graph/build.go:39-41 | One edge is appended and nothing else changes. |
| `Builder.JgfBuilder.AddUnits` | pkg/graph/build.go:84-93 | A run of unit vertices and the fan of edges to them. |
| `Builder.JgfBuilder.AddNode` | pkg/graph/build.go:66-101 | One node block: socket, cores, gpus and, if any, one memory vertex. |
| `Discovery.FactsRoundTrip` | pkg/cluster/discover.go:81-102 | From facts to graph and back: with multiplicity, the nodes of the built graph offer exactly the cores, gpus and memory the facts reported, a negative reading counting as none. |
| `Discovery.ContainmentFromFacts` | pkg/cluster/discover.go:81-102 | The grouping loop yields one group per distinct description, in first-seen order, with its multiplicity, and the graph built offers what each fact reported. |
| `Discovery.DistinctOrder` | pkg/cluster/discover.go:83-92 | The keys stand in the order in which they first appear. |
| `Discovery.Tally` | pkg/cluster/discover.go:83-92 | The counting pass returns the distinct keys in first-seen order and how often each occurs. |
| `Discovery.DistinctMembers` | pkg/cluster/discover.go:83-92 | The order list has every key exactly once. |
| `Discovery.OccursIsMultiplicity` | pkg/cluster/discover.go:85-92 | The counts are the multiplicities of the keys. |
| `Reconcile.ShapesOf` | pkg/reconcile/reconcile.go:70-114 | The walk over node vertices returns each distinct capacity once, with how many nodes have it. |
| `Reconcile.ShapesOfFacts` | pkg/reconcile/reconcile.go:70-114 | For a graph built from discovered facts, each shape counts exactly the nodes whose facts offer it. |
| `Reconcile.RepackOntoShape` | pkg/reconcile/reconcile.go:169-186 | The search, bounded by min(count, cores), finds the least node count that divides the cores and fits, for every shape. |
| `Reconcile.LeastSplitExact` | pkg/reconcile/reconcile.go:169-186 | The result is the least splitting node count, and there is none exactly when no node count splits. |
| `Reconcile.ProposeShape` | pkg/reconcile/reconcile.go:144-161 | The first usable shape of a cluster is proposed, and there is a proposal exactly when some shape hosts the job at some node count. |
| `Reconcile.RepackPropose` | pkg/reconcile/reconcile.go:135-164 | The first screened cluster with a usable shape is proposed, and there is a proposal exactly when some screened cluster has a shape that hosts the job at some node count. |
| `Reconcile.ProposalIff` | pkg/reconcile/reconcile.go:135-186 | There is a proposal if and only if some shape of a screened cluster has n nodes, for some n, among which the job's total cores divide exactly, each with at least that share and the job's gpus and memory per node. |
| `Reconcile.ProposalHosts` | pkg/reconcile/reconcile.go:166-186 | What is proposed is such a node count, the least on its shape, and the proposed spec counts to exactly that many nodes and that share. |
| `Reconcile.FleetProposalIff` | pkg/reconcile/reconcile.go:47-68 | Over a fleet: there is a proposal if and only if some screened cluster has that many nodes of one same capacity. |
| `Reconcile.UsableIff` | pkg/reconcile/reconcile.go:144-161 | A shape is usable exactly when it hosts the job at some node count. |
| `Reconcile.ShapesExact` | pkg/reconcile/reconcile.go:70-114 | The shapes are the distinct capacities, each with its multiplicity. |
| `Reconcile.ProposeExact` | pkg/reconcile/reconcile.go:135-164 | A proposal names a screened cluster and a usable shape of it at its least node count; there is no proposal if and only if no screened cluster has a usable shape. |
| `Reconcile.ProposalAccepted` | pkg/reconcile/reconcile.go:144-161 | The proposal keeps total cores, per-node gpus and memory, requirements and tasks, and the matcher finds at least the proposed number of fitting nodes on the proposed cluster; it is feasible there exactly when the subsystems match. |
| `Reconcile.FleetProposalAccepted` | pkg/reconcile/reconcile.go:47-68 | Over a whole fleet, whatever is proposed comes from a screened cluster of the named id that has enough fitting nodes. |
| `Reconcile.ProposeFirst` | pkg/reconcile/reconcile.go:140-151 | The proposal uses the first usable shape of the screened clusters in order, and there is none exactly when there is no such shape. |
| `Reconcile.ProposedNodes` | pkg/reconcile/reconcile.go:151-153 | The proposal keeps the job's node count if and only if that count fits the first usable shape and no smaller count splits the cores onto it. |
| `Reconcile.GpuTotalKept` | pkg/reconcile/reconcile.go:151-154 | The total of gpus survives a proposal if and only if no gpu is asked for or that condition on the job and the first usable shape holds. |
| `Reconcile.TaskTotalKept` | pkg/jobspec/jobspec.go:222-234 | The task total survives a proposal if and only if it is written out or that same condition holds. |
| `Reconcile.TasksByNode` | pkg/jobspec/jobspec.go:218-234 | A written-out total is taken; otherwise one node has as many ranks as its slots ask for, and without such a count there is one rank a node. |
| `Reconcile.TasksProportional` | pkg/jobspec/jobspec.go:218-234 | Unless it is written out, the task total is proportional to the node count, for every other layout of the job. |
| `Reconcile.ImpossibleJobLoses` | pkg/manager/manager.go:577-592 | Where no cluster has the nodes a job asks for, the capacity case in which the manager asks for a proposal, every proposal changes the node count; so the gpu total survives only if no gpu is asked for, and the task total only if written out. |
| `Reconcile.ExclusiveKept` | pkg/reconcile/reconcile.go:153 | A proposal asks for cores and marks no node, so exclusivity survives if and only if the job asked for some core per node and marked no node entry anywhere. |
| `Reconcile.RepackLosesGpus` | pkg/reconcile/reconcile.go:128-132 | A concrete loss: four one-gpu nodes are proposed as one node with one gpu. |
| `Score.RankWithTrace` | pkg/score/score.go:80-140 | For every scorer and shuffle the loops return the ranking, the rejected candidates, the winner and its ties. |
| `Score.RankingFacts` | pkg/score/score.go:104-117 | The ranking is in descending score order and, together with the rejected candidates, accounts for every candidate considered. |
| `Score.RankingMembers` | pkg/score/score.go:89-101 | Exactly the feasible candidates are ranked. |
| `Score.TiedAreTheBest` | pkg/score/score.go:127-138 | The candidates sharing the first score are exactly the best ones. |
| `Score.SortPermutes` | pkg/score/score.go:115-117 | The sort is a descending permutation. |
| `Score.SortStable` | pkg/score/score.go:115-117 | The sort keeps equal scores in order. |
| `Score.SortUnique` | pkg/score/score.go:115-117 | Only one arrangement is descending and stable. |
| `Score.StableSort` | pkg/score/score.go:115-117 | The in-place insertion computes that arrangement. |
| `Score.Shuffle` | pkg/score/score.go:106-110 | Any sequence of swaps, as the library may choose. |
| `Score.AnyOrder` | pkg/score/score.go:106-110 | Every order of the feasible candidates can come out of such a sequence. |
| `Score.SwapExchanges` | pkg/score/score.go:108-110 | Each swap exchanges two places and nothing else. |
| `Score.TopTies` | pkg/score/score.go:127-138 | The loop reports the ties whose meaning the next row gives. |
| `Score.TiedMeaning` | pkg/score/score.go:127-138 | No ties when one candidate alone has the top score; otherwise the names of all candidates with the top score, in rank order, winner first. |
| `Score.ScoreOrder` | pkg/score/score.go:37-54 | Feasible candidates come before infeasible ones, more matched subsystems before fewer, and between two that are both free or both full the one with less surplus, for all inputs. |
| `Score.DefaultScoreBand` | pkg/score/score.go:37-54 | Ten points for each matched subsystem, more than zero and at most one for the fit, half for being free now; minus one for what is not feasible. |
| `Score.FullOutranksFree` | pkg/score/score.go:37-54 | On the matcher's own candidates a full cluster outranks a free one if and only if the free one has at least two spare nodes. |
| `Scheduling.FeasibleIsFreeWhenIdle` | pkg/matcher/sim.go:213-240 | Feasible means free now on an empty ledger: current load plays no part. |
| `Inline.InlineManager.VisitJob` | pkg/manager/manager.go:219-301 | The loops over ranked targets do what the turn function says: fail, place on the first target with room, or leave everything as it is. |
| `Scheduling.ChoiceMeaning` | pkg/manager/manager.go:219-301 | For every scorer and shuffle, a visited job fails if and only if no cluster could ever hold it, is placed if and only if some feasible dispatch target has room, on one that has, and otherwise waits. |
| `Placement.PlacedOnBest` | pkg/manager/manager.go:240-290 | With a ranking scorer, whatever the shuffle, no cluster with room scores higher than the one the job is placed on. |
| `Placement.PlacedOnFirst` | pkg/manager/manager.go:235-290 | With a scorer that does not rank, the job is placed on the first registered cluster that has room. |
| `Scheduling.TurnFacts` | pkg/manager/manager.go:219-301 | A turn keeps the books, gives nothing back, touches one record, and mints an id exactly when it places. |
| `Inline.InlineManager.ScheduleOnce` | pkg/manager/manager.go:207-302 | The loop ends exactly in the state the turns lead to, one after the other, oldest first, up to the first that blocks. So each waiting job waits on, fails because it is impossible, or is granted a new id and is Running under its dispatch's handle, or Failed with a failed dispatch; whoever the policy let it reach and still waits is stuck; and the ids granted rise with the job number. |
| `Scheduling.PassFair` | pkg/policy/policy.go:22-39 | At every turn of a pass, on the queue and ledger of that moment, each earlier job still waiting is stuck, and under blocking there is none. |
| `Scheduling.PassTreats` | pkg/manager/manager.go:219-301 | A pass leaves a waiting job as it was, fails it because no cluster could ever hold it, or grants it a fresh id on a cluster that could; then it is Running under the handle its dispatch returned, with as many nodes as it asked for still held, or Failed if the dispatch failed, and the rest of its record is unchanged. |
| `Scheduling.PassFails` | pkg/manager/manager.go:226-229 | A waiting job fails in a pass if and only if no cluster could ever hold it and, under blocking, no earlier job is left waiting. |
| `Scheduling.PassLeavesStuck` | pkg/manager/manager.go:294-301 | A job still waiting after the pass, and not behind another under blocking, is possible but full with everything the pass placed in place. |
| `Scheduling.PassBlocks` | pkg/policy/policy.go:17-27 | Under blocking nothing behind a job that still waits has changed. |
| `Scheduling.PassIds` | pkg/manager/manager.go:203-207 | Of two jobs granted in one pass the earlier has the smaller id, and every id granted is new. |
| `Scheduling.PassKeeps` | pkg/manager/manager.go:207-302 | A pass keeps the books, gives no node back, leaves every job that was not waiting as it was, and does nothing without a cluster. |
| `Inline.InlineManager.Place` | pkg/manager/manager.go:271-293 | An attempt succeeds exactly when there is room, and then the job names the next id and the cluster and is Running under the handle, or Failed; without room nothing changes. |
| `Inline.InlineManager.DispatchNow` | pkg/manager/manager.go:462-495 | Running with the handle, or Failed with the allocation handed back. |
| `Inline.InlineManager.MonitorOnce` | pkg/manager/manager.go:531-562 | Exactly the active jobs with a handle, a registered cluster and an answer take the polled state, and every node held for a job that is still active stays held. |
| `Inline.PollFacts` | pkg/manager/manager.go:531-562 | Polling job by job keeps the books and the fleet, and takes nodes from finished jobs only. |
| `Inline.InlineManager.FailJob` | pkg/manager/manager.go:564-572 | The allocation is released and the record Failed. |
| `Inline.InlineManager.Cancel` | pkg/manager/manager.go:621-647 | A job that is not terminal ends Failed, cleared and released; a terminal or unknown one is untouched. |
| `Inline.InlineManager.Submit` | pkg/manager/manager.go:75-86 | One waiting record without allocation, cluster or handle is appended. |
| `Inline.InlineManager.Register` | pkg/manager/manager.go:127-142 | The matcher gains the cluster and the books still balance. |
| `Inline.InlineManager.Unregister` | pkg/manager/manager.go:146-153 | The matcher loses the cluster and its allocations and the books still balance. |
| `Inline.InlineManager.Provisional` | pkg/queue/queue.go:111-126 | Exactly the waiting jobs, oldest first. |
| `Scheduling.Rank` | pkg/manager/manager.go:240-255 | Ranked or not, the list holds exactly the feasible clusters. |
| `Scheduling.Dispatchable` | pkg/manager/manager.go:307-315 | Exactly the ranked clusters that are registered and not emulated. |
| `Inline.RunInline` | pkg/manager/manager.go:181-196 | Driven by any sequence of events the object goes through exactly the states they lead to, from an empty queue on, and the books balance in each. |
| `Inline.InlineManager.Handle` | pkg/manager/manager.go:181-196 | Each single event moves the object as its function says. |
| `Inline.RunBooks` | pkg/manager/manager.go:531-572 | After every sequence of submissions, passes, polls, cancellations and fleet changes the ledger is exact, records name distinct minted ids, and every live allocation belongs to an active job. |
| `Inline.RunAllFree` | pkg/manager/manager.go:531-572 | In every run, once all jobs are terminal no node is taken and evaluation reports the idle capacity. |
| `Inline.SubmittedRuns` | pkg/manager/manager.go:219-301 | A job submitted when nobody waits and some cluster has room is Running under its handle after the next pass, whatever the policy, scorer and shuffle. |
| `Inline.RunningCompletes` | pkg/manager/manager.go:531-562 | A running job with a handle that is reported completed is Completed after the next poll, and its nodes are free. |
| `Inline.CancelMeaning` | pkg/manager/manager.go:621-647 | Cancelling touches no job that is over; any other ends Failed, naming nothing, with exactly its own allocation handed back. |
| `Inline.RunFair` | pkg/policy/policy.go:22-39 | In every run under either policy: in each turn of the next pass every earlier job still waiting is stuck at that moment. |
| `Inline.RunFirstCome` | pkg/policy/policy.go:22-27 | Over every run whose passes block, mixed with all other events: allocation ids rise with the job number, and no record behind a waiting job names one. |
| `Scheduling.AllTerminalAllFree` | pkg/manager/manager.go:531-572 | When every job is terminal every node is free again. |
| `Scheduling.StuckStays` | pkg/manager/manager.go:294-301 | A feasible job without room stays so while the pass only takes nodes, so skipping it loses nothing. |
| `Memory.StandardPartition` | pkg/vocabulary/memory.go:14-39 | The standard buckets partition all sizes from zero up, and RangeFor finds the one that contains the size. |
| `MemoryLabels.RangeLabelParses` | pkg/vocabulary/memory.go:27 | Round trip: for all lo and hi the label lo-hiGB reads as these two bounds. |
| `MemoryLabels.OpenLabelParses` | pkg/vocabulary/memory.go:33 | Round trip: for all lo the label loGB+ is no range and reads as the lower bound alone. |
| `MemoryLabels.StandardParses` | pkg/vocabulary/memory.go:16 | Each standard label reads as the bounds it stands for. |
| `MemoryLabels.LabelForIsRangeFor` | pkg/vocabulary/memory.go:23-39 | Searching the texts, parsing each, finds the label of the bucket that searching the parsed buckets finds. |
| `MemoryLabels.StandardLabelFor` | pkg/vocabulary/memory.go:19 | Every size from zero up has one standard label, and it is b exactly when b's bounds contain the size; below zero there is none. |
| `Memory.SmallestMemory` | pkg/cluster/discover.go:57-64 | The running minimum is the smallest positive reading, or zero when there is none. |
| `Memory.SingletonSubsystem` | pkg/graph/jgf.go:131-147 | A root with one typed leaf below it. |
| `Memory.SectionMeets` | client/py/fluxq/requires.py:55-61 | A section over several buckets is satisfied exactly by the clusters that advertise one of them. |
| `Memory.MeetsIffLater` | client/py/fluxq/requires.py:64-76 | For any vocabulary of standard buckets a cluster satisfies memory_at_least(b) if and only if its bucket stands at or after b. |
| `Memory.StandardIsLowerBound` | client/py/fluxq/requires.py:64-76 | With the vocabulary in standard order, a size satisfies the requirement if and only if it is at least b's lower edge. |
| `Memory.EveryNodeHasAtLeast` | pkg/cluster/discover.go:57-73 | End to end: the cluster satisfies the requirement if and only if every node that reports memory has at least b's lower edge. |
| `Memory.LowerBoundIffOrdered` | pkg/vocabulary/derive.go:52-65 | For any vocabulary order, the requirement is a true lower bound if and only if "at or after b" and "no smaller than b" agree on the vocabulary. |
| `Memory.TextOrder` | pkg/vocabulary/derive.go:63 | Sorted as text the standard labels stand in the order 0-16GB, 16-64GB, 192GB+, 64-192GB. |
| `Memory.LexicographicBreaksTwo` | pkg/vocabulary/derive.go:52-65 | In every derived vocabulary, some standard buckets sorted as text, the requirement is a true lower bound for the two small buckets, and for a large one if and only if the other large bucket is absent. |
| `Memory.LexicographicMisjudges` | pkg/vocabulary/derive.go:63 | In every derived vocabulary with both large buckets, 256 GB is refused for 64 GB or more, and 64 GB accepted for 192 GB or more. |
| `JobIds.Pad` | pkg/manager/manager.go:609-618 | The buffer ends up with the four low decimal digits. |
| `JobIds.SameIdIff` | pkg/manager/manager.go:607-618 | Two submissions get the same id if and only if their numbers agree modulo 10000. |
| `JobIds.LatestWins` | pkg/queue/queue.go:88-94 | A submission is still stored under its id if and only if fewer than 10000 more were made by then, so none has reused the id. |
| `JobIds.QueueIntactIff` | pkg/manager/manager.go:75-86 | No record was ever overwritten by a submission if and only if at most 10000 were made. |
| `Registry.Run` | pkg/manager/manager.go:127-153 | After any sequence of the four operations on any number of clusters with maps of their own, fleet and matcher hold the same clusters in the same order, each with the same subsystems, and each pair of flag maps agrees exactly under the condition of the next row. |
| `Registry.FlagsAgreeIff` | pkg/manager/manager.go:414-439 | The flags of a cluster agree always, unless it registered with subsystems and without a flag map; then exactly while every name the fleet has a flag for is still attached. |
| `Registry.LedgerFollows` | pkg/matcher/sim.go:40-94 | The allocation ledger under the same operations holds the clusters, order, subsystems and flags that the matcher's side shows. |
| `Registry.StaleFlag` | pkg/manager/manager.go:429-439 | The ordinary path diverges: after registering and unregistering a subsystem the fleet keeps its flag and the matcher does not. |
| `Registry.Registrar.RegisterCluster` | pkg/manager/manager.go:127-142 | Both sides replace or append the cluster, in place and in step, and other clusters are untouched. |
| `Registry.Registrar.UnregisterCluster` | pkg/manager/manager.go:144-153 | Both sides lose the cluster, order kept, whether or not it was there. |
| `Registry.Registrar.RegisterSubsystem` | pkg/manager/manager.go:414-426 | Both copies of that cluster show the subsystem and flag, and no other cluster changes; an unknown cluster is refused. |
| `Registry.Registrar.UnregisterSubsystem` | pkg/manager/manager.go:428-439 | Both copies lose the subsystem, each its flag where the code reaches it; containment, absent names and unknown clusters are refused. |
| `Registry.Registrar.Find` | pkg/graph/graph.go:199-209 | The position of the cluster with this id, if registered. |
| `Registry.Attach` | pkg/graph/graph.go:354-364 | Missing maps are made for this copy only; shared ones are updated in place. |
| `Registry.Detach` | pkg/graph/graph.go:366-376 | Containment and absent names are refused with nothing touched. |
| `Registry.AttachBoth` | pkg/manager/manager.go:419-423 | The matcher's copy and then the fleet's: both show the subsystem and the flag, whichever maps they share. |
| `Registry.DetachBoth` | pkg/manager/manager.go:430-436 | The matcher's copy and then the fleet's: where they share the subsystem map alone, the fleet's flag stays behind. |

## Left out

- The HTTP API, the command line client, tables and the benchmark formatter: presentation.
- The Fluxion matcher, the flux and Kubernetes drivers: foreign calls; their handles and statuses are parameters.
- The Postgres and SQLite queues and the inside of river: only "store a record, fetch by id, list the waiting in submit order" and entry insertion are kept.
- The agent transform, prompts and templates: transform and validate are an oracle with five outcomes.
- Emulator timing and wall-clock time: submit times are the submission order.
- JSON, file loading, secrets and authentication.
- Machine integer overflow and floating-point rounding: integers are unbounded and scores are exact rationals.
- Vertex paths, ranks and properties, and the cluster's manager and handle attributes: matching and counting never read them. Vertex ids and allocation ids are natural numbers, as the code only compares them.
- Walks over a containment graph with a cycle: the code does not return from them, so a registered containment graph is taken to be acyclic; built graphs are proved acyclic.
- CoresPerNode and GPUsPerNode minima over a graph, SubsystemFluxSpec and atLeastOne, Explain: they would only add easy members.
- RequiredTypes and the reconciler's capability screening: an arbitrary yes or no per cluster.
- The reconciler's suggestion and AutoResubmit inside the inline manager: a job that is impossible simply fails there.
- Notes, artifacts and decision records on a job: no decision reads them, except that a note may be written back with a stale record, which the protocol models.
- The refusal of a cluster whose manager has no real driver, before it reaches fleet or matcher.
- The order in which Go ranges over a map: the loops over maps pick any key.
- A concurrent scheduler and register call on the fleet's own list: fleet changes are single steps of the protocol.
- Registry.Run: takes each registration to bring maps of its own; two clusters registered with the same map would see each other's subsystems.
- Registry.Registrar.RegisterCluster: takes the record's maps to belong to no other registered cluster; whether this cluster had them before does not matter.
- MemoryLabels.ScanInt: skips blanks before a number where the library also skips tabs; no label has either.
- Inline.InlineManager.Submit: does not reuse a job id, so it describes at most 10000 submissions; JobIds says what happens after that.
- PipelineTheorems.BoundedWork: does not bound transient dispatch retries or monitor polls, because the code does not; the queue's own attempt limit for dispatch entries is modelled as an arbitrary discard.
- Liveness (a job eventually ends) is not stated: it would need fairness of the queue and the drivers. Which jobs can still complete is stated exactly.
