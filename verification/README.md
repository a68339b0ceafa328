# Verified models of DPsim

DPsim is a power system simulator. This project models the parts of it whose correctness depends on
several functions at once, and proves what they promise. Numbers are exact reals; a direct linear
solver is any function that returns a solution of a regular system (`LinearAlgebra.Solves`).

| part | modules |
|---|---|
| Tasks: the dependency graph from attribute accesses, the pruned and sorted task list, its levels, their distribution over threads, and the protocol by which the threads run it every time step | `DependencyGraph`, `TaskGraph`, `Scheduler`, `TaskLevels`, `LoadBalance`, `ThreadLevelScheduler`, `ThreadListScheduler`, `ThreadPlacement`, `ThreadProtocol`, `ThreadCalls`, `TaskEffects`, `ThreadRuns`, `TaskConflicts`, `TwoWriters`, `AccessEdges`, `LoadMeasures` |
| The in-place FFT | `BitReversal`, `ComplexNumbers`, `FFT`, `FourierSums` |
| Complex nodal matrices packed into real ones, and the stamps | `SparseMatrices`, `Packing`, `PackedNetworks` |
| Network tearing | `LinearAlgebra`, `SubnetLayout`, `Diakoptics`, `DiakopticsSums` |
| Extraction of the closed-loop state matrix | `StateSpace`, `StateSpaceContributors`, `StateSpaceSources`, `HistoryUpdates` |
| Power flow: reactive limits, voltage zones, the Jacobian | `ReactiveLimits`, `Chains`, `VoltageZones`, `ZoneReferences`, `Jacobian`, `JacobianLayout`, `ComplexPower` |
| Subnets of a network; load profiles | `Topology`, `SubnetChains`, `PartsInOrder`, `LoadProfile` |

How the main results fit together:

- **Threads.** `DependencyGraph.ResolveDeps` yields a graph on which `Scheduler.TopologicalSort` fails
  exactly when there is a cycle. Its list feeds either thread scheduler, whose placement order respects
  the edges, so that `ThreadScheduler.FinishSchedule` yields a well-formed schedule. For every such
  schedule, `ThreadProtocol` proves an invariant of all interleavings of the threads' atomic
  operations. `ScheduledRunIsSequential` draws the conclusion: any number of calls of `step` leaves the
  attributes as the sequential scheduler does, under a condition that `TaskConflicts` shows to be exact
  for the orders that respect the edges.
- **Measures.** The functions that methods are proved equal to are tied to what they stand for by lemmas
  that do not mention how they compute: sums by what each term adds (`DiakopticsSums`, `LoadMeasures`,
  `FourierSums`), packed forms by their places and by the currents a stamp draws (`PackedNetworks`),
  powers by complex arithmetic (`ComplexPower`), zones, subnets and edges by chains of lines, components
  and accesses (`ZoneReferences`, `SubnetChains`, `AccessEdges`).
- **FFT.** The in-place stages refine a recursive transform on blocks, which holds the Fourier sums in
  bit-reversed order; the masks reverse the binary digits, and the exchanges undo that order.
- **Tearing and extraction.** Two caches with validity flags. Class invariants say that the cached
  matrices belong to the current ones whenever the flags allow their use; lemmas on the matrices say
  that what is computed from them solves the whole network.
- **Power flow.** The switching loop keeps a split of the buses and an odd-count invariant, from which
  the bound on the number of rounds follows. The dense and the sparse Jacobian are both proved equal to
  one block-wise description, hence to each other; its entries are proved to be the derivatives of the
  powers.

## Where the code differs from what one might expect

- `stop` can wait for ever if a worker has no task: such a worker may read the joining flag in the
  last call, return, and never arrive at the barrier (`NoDeadlockIff` gives the exact condition).
  `Counter` waits for equality, which is right because no counter gets ahead of a waiting reader.
- Write-to-read edges do not order two writers of an attribute, nor a reader of the previous value and
  the writer. All orders have one effect exactly if these conflicts are joined by other paths
  (`ResolvedOneEffectIff`); otherwise the threads may leave different values (`TwoResults`).
- `levelSchedule` takes the number of levels from the last task of its list, so at least one task must
  be needed. The list scheduler has no such condition.
- `appendDependencies` is documented as a depth-first search with a set of visited attributes, but it
  does not consult the set. It returns on every attribute only if no attribute refers back to itself
  (`RankIffAcyclic`); then the result is the same.
- Filling by type truncates the average cost. If it is 0, every task goes to the last thread
  (`AllToTheLast`).
- The original bus classification is restored only when reactive limits are enforced.
- The interface mapping of a component with both terminals at the same unknown is not the voltage
  between its terminals (`MappingIsVoltage`).
- A hazard for a change of the interface, which the present task list does not reach, because it has
  one extraction for each solve: the flag for a changed system matrix compares with the previous solve,
  not the previous extraction (`StaleAfterTwoSolves`, `StaleWitness`). With one extraction per solve the
  state matrix is never stale (`SwitchedSolver.Step`, `RecomputingSolver.Step`).
- Power components with grounded terminals only, and no others, are dropped by `splitSubnets`, unless
  there is exactly one subnet (`ComponentIsKept`).
- Resampling weighting factors looks each time up in the other map. It makes no difference, because
  inserting never overwrites.
- For a single sample the FFT shifts a 32-bit word by 32, so at least two samples are required.

## Model

| member | source | states |
|---|---|---|
| `ThreadProtocol.NextInv` | dpsim/src/ThreadScheduler.cpp:67-125 | every step of every thread, and every call of `step` and `stop`, keeps the protocol invariant: barrier count and generation agree with the threads in the barrier, every counter with how far its owner has come, the log of executed tasks with the counters |
| `ThreadProtocol.MoveInv` | dpsim/src/ThreadScheduler.cpp:94-125 | the same for one step of one thread, wherever it is: each of the 15 positions, whatever the others do |
| `ThreadProtocol.RunInv` | dpsim/src/ThreadScheduler.cpp:67-125 | the invariant holds after any run, over any number of calls |
| `ThreadProtocol.RunsAfterRequirements` | dpsim/src/ThreadScheduler.cpp:104-125 | in every reachable state, a thread about to run an entry finds all entries it waits for already run in the same call, with that call's time and step number |
| `ThreadProtocol.CallsAreComplete` | dpsim/src/ThreadScheduler.cpp:67-79 | every returned call ran every entry exactly once, each after those it waits for, all with the arguments of that call; between calls every counter equals the number of returned calls |
| `ThreadProtocol.NoWorkerReadsWhileIdle` | dpsim/src/ThreadScheduler.cpp:67-79 | when `step` overwrites `mTime` and `mTimeStepCount` no worker is inside `doStep`, the only place that reads them |
| `ThreadProtocol.StepNeverDeadlocks` | dpsim/src/ThreadScheduler.cpp:67-125 | during `step`, in any reachable state and for any placement order that respects the edges, some thread can move (waiting threads spin on conditions that no one else waits for in a circle) |
| `ThreadProtocol.CallsTerminate` | dpsim/src/ThreadScheduler.cpp:67-125 | a call of `step` returns within a bounded number of steps of the threads, because every move that does not return lowers a measure of the work left |
| `ThreadProtocol.IdleWorkerDeadlocksStop` | dpsim/src/ThreadScheduler.cpp:81-102 | if a worker has an empty schedule there is a run in which `stop` waits at the barrier for ever: the worker reads the joining flag early, returns, and never arrives there |
| `ThreadProtocol.NoDeadlockIff` | dpsim/src/ThreadScheduler.cpp:81-102 | `step` and `stop` never deadlock in any run if and only if every worker has at least one task |
| `ThreadCalls.JoinNext` | dpsim/src/ThreadScheduler.cpp:81-92 | every step keeps: when thread 0 is about to join worker u, all workers before u have returned |
| `ThreadCalls.StopJoinsWorkers` | dpsim/src/ThreadScheduler.cpp:81-92 | in every reachable state, once thread 0 has left `stop` every worker thread has returned; the statement speaks of the positions of the threads only |
| `ThreadCalls.StepTakesArguments` | dpsim/src/ThreadScheduler.cpp:67-79 | between calls, `step` may be called with any time, and its tasks will see that time and the number of calls before it |
| `ThreadPlacement.ThreadScheduler.Create` | dpsim/src/ThreadScheduler.cpp:16-25 | constructing fails exactly for fewer than one thread, otherwise there is one empty schedule per thread |
| `ThreadPlacement.ThreadScheduler.constructor` | dpsim/src/ThreadScheduler.cpp:16-25 | one empty schedule per thread |
| `ThreadPlacement.ThreadScheduler.ScheduleTask` | dpsim/src/ThreadScheduler.cpp:31-33 | appends the task to the thread's list and to nothing else; the placement order grows by this task at that slot |
| `ThreadPlacement.ThreadScheduler.FinishSchedule` | dpsim/src/ThreadScheduler.cpp:35-65 | for tasks placed in an order that respects the edges: one entry per placed task, waiting for exactly the counters of the tasks it has edges from; all these counters exist and the entries cannot wait in a circle |
| `ThreadPlacement.PlacementRanks` | dpsim/src/ThreadScheduler.cpp:35-65 | the order of placement ranks the entries, whatever thread each went to, so the schedule meets the hypotheses of the protocol theorems |
| `ThreadPlacement.LogIsOrder` | dpsim/src/ThreadScheduler.cpp:104-125 | the tasks a complete call ran, in the order they ran, hold each placed task once and respect the edges |
| `ThreadPlacement.ParallelIsSequential` | dpsim/src/ThreadScheduler.cpp:67-125 | the first n returned calls, in any interleaving, left the attributes exactly as the sequential scheduler does with the sorted list, provided conflicting tasks are joined by a path of edges |
| `ThreadRuns.ParallelIsExecuted` | dpsim/src/ThreadScheduler.cpp:104-125 | what Parallel means: in every reachable state the returned calls executed, event by event, the body of the entry's task on the attributes as they were, with the time and step number that this event read |
| `ThreadRuns.SequentialSteps` | dpsim/src/SequentialScheduler.cpp:32-45 | step after step over any list of times, the sequential scheduler leaves the store that the comparison uses |
| `TaskEffects.SequentialStep` | dpsim/src/SequentialScheduler.cpp:32-45 | running the schedule in order has the effect function that the other lemmas compare with |
| `TaskEffects.Exchange` | dpsim/src/Scheduler.cpp:106-117 | two adjacent tasks whose footprints do not conflict may be exchanged |
| `TaskEffects.SameEffect` | dpsim/src/ThreadScheduler.cpp:104-125 | any two orders of the same tasks that order every conflicting pair alike have the same effect |
| `TaskEffects.EdgesDetermineEffect` | dpsim/src/Scheduler.cpp:106-117 | any two orders that respect the edges have the same effect when conflicting tasks are joined by paths |
| `TaskConflicts.OneEffectIff` | dpsim/src/Scheduler.cpp:106-117 | exact condition: if tasks may keep what they could write, all orders that respect the edges have one effect, whatever the tasks do within their footprints, if and only if every two conflicting tasks that write something are joined by a path |
| `TaskConflicts.JoinedOneEffect` | dpsim/src/Scheduler.cpp:106-117 | the sufficient half, for all footprints: tasks that write nothing need no path |
| `TaskConflicts.Distinguished` | dpsim/src/Scheduler.cpp:106-117 | if one task writes what another, writing task reads and no path joins them, there are two orders that respect the edges and task bodies within the footprints with different effects |
| `TaskConflicts.Postponed` | dpsim/src/Scheduler.cpp:154-180 | moving all tasks that x leads to behind the others gives an order again: any task that x does not lead to can come before it |
| `TaskConflicts.OnlyOpenConflicts` | dpsim/src/Scheduler.cpp:89-117 | on the graph of resolveDeps, with the declared accesses as footprints, write-to-read conflicts are joined by construction: only two writers of an attribute, and a writer and a previous-step reader, remain to be joined |
| `TaskConflicts.ResolvedOneEffectIff` | dpsim/src/Scheduler.cpp:78-118 | on that graph all orders of the sorted tasks have one effect if and only if these open conflicts are joined |
| `TaskConflicts.ResolvedRunIsSequential` | dpsim/src/ThreadScheduler.cpp:104-125 | runs of either thread scheduler on that graph end as the sequential scheduler does, if the open conflicts are joined |
| `TwoWriters.TwoResults` | dpsim/src/Scheduler.cpp:89-117 | a concrete input where they are not: two tasks modify one attribute and the external one; both are on the sorted list, their entries are those of a schedule, and two reachable runs of the threads leave different values |
| `TwoWriters.ResolveExample` | dpsim/src/Scheduler.cpp:78-188 | resolveDeps builds the graph of this input and topologicalSort accepts it |
| `DependencyGraph.AppendDependencies` | dpsim-models/include/dpsim-models/Attribute.h:661-678 | adds exactly the attributes reachable by references, itself included (for reference structures without a cycle, on which alone the recursion returns) |
| `DependencyGraph.RankIffAcyclic` | dpsim-models/include/dpsim-models/Attribute.h:661-678 | a rank that falls along references, which the recursion needs to return on every attribute, exists exactly if no attribute refers back to itself |
| `DependencyGraph.CollectReaders` | dpsim/src/Scheduler.cpp:89-104 | an attribute's readers are exactly the tasks that read it directly or through a dynamic attribute; the external attribute is not expanded |
| `DependencyGraph.Link` | dpsim/src/Scheduler.cpp:108-111 | adds exactly the edges from one writer to the readers, and in- and out-lists keep mirroring each other with equal multiplicity |
| `DependencyGraph.ResolveDeps` | dpsim/src/Scheduler.cpp:78-118 | there is an edge from x to y exactly when x modifies what y reads, or what some task reads from the previous step and y is the root; the lists mirror each other with equal multiplicity |
| `AccessEdges.EdgesFeed` | dpsim/src/Scheduler.cpp:78-118 | in terms of the attributes alone: there is an edge exactly when x modifies an attribute a and y reads a, or an attribute other than the external one whose update reads a through a chain of references, or y is the root and some task reads the previous value of a |
| `TaskGraph.LevelsAreLongestPaths` | dpsim/src/Scheduler.cpp:190-213 | for an order that respects the edges, the computed level of a task is the length of a longest path that ends in it: no path is longer and some path is as long |
| `TaskGraph.EdgesClimb` | dpsim/src/Scheduler.cpp:190-213 | every edge leads to a strictly larger level |
| `TaskGraph.NoSourceCycle` | dpsim/src/Scheduler.cpp:182-187 | a non-empty set in which every task has an edge from the set contains a cycle |
| `TaskGraph.OrderExcludesCycles` | dpsim/src/Scheduler.cpp:182-187 | an order of all tasks that respects the edges excludes cycles |
| `Scheduler.FindNeeded` | dpsim/src/Scheduler.cpp:131-147 | the backward search terminates although tasks are queued repeatedly, and finds exactly the tasks from which a path leads to the root |
| `Scheduler.Sources` | dpsim/src/Scheduler.cpp:149-153 | exactly the tasks without in-edges, each once |
| `Scheduler.RemoveFirst` | dpsim/src/Scheduler.cpp:167-179 | one occurrence of an edge is removed and every other multiplicity stays |
| `Scheduler.Release` | dpsim/src/Scheduler.cpp:167-179 | removing a task's out-edges one by one removes all its edges and reports exactly the tasks that lose their last in-edge, each once, however often an edge is repeated |
| `Scheduler.KahnStep` | dpsim/src/Scheduler.cpp:154-180 | one round of the sort keeps: each task is queued at most once, the queued tasks are those without remaining in-edges, the remaining in-edges come from tasks not processed |
| `Scheduler.FifoStep` | dpsim/src/Scheduler.cpp:154-180 | because the queue is first in, first out, the queue stays ordered by level and spans at most two levels |
| `Scheduler.SortStep` | dpsim/src/Scheduler.cpp:154-180 | one round keeps the whole invariant of the sort, with the pruned output list |
| `Scheduler.UnlistedCycle` | dpsim/src/Scheduler.cpp:182-187 | if a task never entered the queue the graph has a cycle |
| `Scheduler.AllRemoved` | dpsim/src/Scheduler.cpp:182-187 | the final check: true exactly when no edge is left in either list |
| `Scheduler.TopologicalSort` | dpsim/src/Scheduler.cpp:120-188 | throws exactly when the graph has a cycle, be it among tasks nobody needs; otherwise the result holds exactly the tasks the root depends on, each once, after all it depends on, with levels that never decrease |
| `AccessEdges.SortedFeed` | dpsim/src/Scheduler.cpp:78-188 | on the resolved graph the sorted tasks are exactly those from which a chain of such accesses leads to the root, and none accesses what a later one must provide first |
| `TaskLevels.Distances` | dpsim/src/Scheduler.cpp:195-206 | the loop computes the levels (longest paths) of the sorted list |
| `TaskLevels.LevelSchedule` | dpsim/src/Scheduler.cpp:190-213 | sizing the levels by the last task of the list is right: every task's level is in range, and level l holds the tasks of level l in sorted order |
| `TaskLevels.LevelsPartition` | dpsim/src/Scheduler.cpp:208-212 | the levels partition the sorted tasks |
| `PartsInOrder.LevelInOrder` | dpsim/src/Scheduler.cpp:208-212 | each level lists its tasks in the order of the sorted list |
| `TaskLevels.ClimbingRespects` | dpsim/src/Scheduler.cpp:190-213 | any order of the same tasks in which levels climb respects all edges, so tasks within one level are independent |
| `TaskLevels.SourcesFirst` | dpsim/src/ThreadListScheduler.cpp:65-74 | the tasks without in-edges are a prefix of the sorted list, which is why the loop may stop at the first other one |
| `LoadBalance.LoadsSumUp` | dpsim/src/ThreadLevelScheduler.cpp:126-133 | conservation: the threads' total times add up to the cost of all tasks |
| `LoadMeasures.LoadCountsEach` | dpsim/src/ThreadLevelScheduler.cpp:126-133 | a task's cost counts in full in the load of its own thread and not at all in any other; with LoadOfZeros and TotalIsLoad this determines loads and totals |
| `LoadBalance.GreedyBound` | dpsim/src/ThreadLevelScheduler.cpp:126-133 | for any non-negative costs and m threads, m times any load is at most the total plus (m-1) times the largest task (Graham's list-scheduling bound) |
| `LoadBalance.NoRoom` | dpsim/src/ThreadLevelScheduler.cpp:117-133 | the counting step: if all tasks are larger than a third of c and every thread holds one or two, a distribution within c leaves room for the next |
| `LoadBalance.LargeJobs` | dpsim/src/ThreadLevelScheduler.cpp:117-133 | tasks larger than a third of c are spread within c if any distribution within c exists |
| `LoadBalance.LongestFirstBound` | dpsim/src/ThreadLevelScheduler.cpp:117-133 | longest first: 3m times any load is at most (4m-1) times the cost of every other distribution (Graham's 4/3 bound), for every m and every cost list |
| `ThreadLevelScheduler.MinElement` | dpsim/src/ThreadLevelScheduler.cpp:128-129 | the first of the smallest totals |
| `ThreadLevelScheduler.SortBy` | dpsim/src/ThreadLevelScheduler.cpp:63-79 | a rearrangement of the distinct tasks in which keys do not decrease; the order of equal keys is left open |
| `ThreadLevelScheduler.ScheduleGreedy` | dpsim/src/ThreadLevelScheduler.cpp:126-133 | every task goes to a thread whose load at that time is smallest; all tasks are placed in list order, earlier placements stay |
| `ThreadLevelScheduler.ScheduleEvenly` | dpsim/src/ThreadLevelScheduler.cpp:46-57 | the threads take consecutive stretches that cover the level without gap or overlap |
| `ThreadLevelScheduler.SplitEven` | dpsim/src/ThreadLevelScheduler.cpp:49-53 | the numbers of tasks of two threads differ by at most one |
| `ThreadLevelScheduler.ScheduleFilling` | dpsim/src/ThreadLevelScheduler.cpp:93-115 | by type, for any costs: every task goes to the first thread whose load is below the truncated average at that time, or to the last thread; this determines the assignment |
| `ThreadLevelScheduler.FillBound` | dpsim/src/ThreadLevelScheduler.cpp:93-115 | with non-negative costs no thread but the last exceeds the average by more than the largest task, and the last one by at most m-1: the remainder of the truncating division |
| `LoadMeasures.AverageIs` | dpsim/src/ThreadLevelScheduler.cpp:93-101 | the average is the total cost divided by the number of threads, rounded towards zero |
| `LoadMeasures.FillWithinTotal` | dpsim/src/ThreadLevelScheduler.cpp:93-115 | the same bound against the total cost: m times the load of a thread before the last is at most the total plus m times the largest task, and of the last one at most the total plus m(m-1) |
| `ThreadLevelScheduler.OrderMeansTurn` | dpsim/src/ThreadLevelScheduler.cpp:93-115 | with non-negative costs the last thread is used only when all others have reached the average |
| `ThreadLevelScheduler.AllToTheLast` | dpsim/src/ThreadLevelScheduler.cpp:100-117 | if the average truncates to 0 every task goes to the last thread |
| `ThreadLevelScheduler.ScheduleLevel` | dpsim/src/ThreadLevelScheduler.cpp:81-135 | throws exactly if the cost of a task is missing, without placing any; otherwise the level is rearranged and spread longest first or by type as above |
| `ThreadLevelScheduler.LevelWithinBound` | dpsim/src/ThreadLevelScheduler.cpp:117-133 | a level scheduled longest first is within the factor (4m-1)/(3m) of every distribution of its tasks |
| `ThreadLevelScheduler.DistributeLevels` | dpsim/src/ThreadLevelScheduler.cpp:36-58 | level after level is spread over the threads as its options ask, earlier placements stay, and the whole order climbs the levels; it fails exactly if a cost is missing |
| `ThreadLevelScheduler.CreateSchedule` | dpsim/src/ThreadLevelScheduler.cpp:26-61 | throws exactly on a cycle or a missing cost; otherwise each needed task is placed once, after those it depends on, every level as its options ask, and the schedule meets the hypotheses of the protocol theorems |
| `ThreadLevelScheduler.ScheduledRunIsSequential` | dpsim/src/ThreadScheduler.cpp:104-125 | runs of either thread scheduler's schedule end as the sequential scheduler does |
| `ThreadListScheduler.PriorityStep` | dpsim/src/ThreadListScheduler.cpp:47-60 | cost plus the best dependent's priority is the maximum cost of a path from the task; dependents outside the list count as zero |
| `ThreadListScheduler.Priorities` | dpsim/src/ThreadListScheduler.cpp:47-60 | every priority is the cost of a costliest path from the task through needed tasks (no path costs more and some path costs as much; the path may end anywhere, so this holds for negative costs too) |
| `LoadMeasures.PathCostIsTotal` | dpsim/src/ThreadListScheduler.cpp:47-60 | where the cost of a path is the sum of the costs of its tasks |
| `LoadMeasures.UnitCosts` | dpsim/src/ThreadListScheduler.cpp:32-45 | with measurements the priorities are measured costs of paths; without them every task costs 1, so they are the numbers of tasks on longest paths |
| `ThreadListScheduler.Sources` | dpsim/src/ThreadListScheduler.cpp:65-74 | stopping at the first task with in-edges loses none: the queue holds exactly the needed tasks without in-edges |
| `ThreadListScheduler.Pop` | dpsim/src/ThreadListScheduler.cpp:77-79 | a task of highest priority; which of several equal ones is left open |
| `ThreadListScheduler.ListStep` | dpsim/src/ThreadListScheduler.cpp:76-101 | one round keeps: waiting tasks are exactly the unplaced ones all of whose predecessors are placed, none is queued twice |
| `ThreadListScheduler.PlaceAll` | dpsim/src/ThreadListScheduler.cpp:76-101 | places every task of the list exactly once, after its predecessors, each time a ready one of highest priority, on a thread with the smallest total at that time |
| `ThreadListScheduler.CreateSchedule` | dpsim/src/ThreadListScheduler.cpp:22-103 | throws exactly on a cycle or a missing cost; otherwise all of the above holds of the placement, and the schedule meets the hypotheses of the protocol theorems |
| `BitReversal.SwapStep` | dpsim-models/src/MathUtils.cpp:431-435 | shifting the argument of the five mask swaps by one bit shifts the result the other way: the low bit of the argument is the high bit of the result |
| `BitReversal.SwapsReverse` | dpsim-models/src/MathUtils.cpp:431-435 | the mask swaps reverse the j low bits of a word into its j high bits, for every j up to 32 |
| `BitReversal.ReversesWord` | dpsim-models/src/MathUtils.cpp:429-435 | followed by the shift by 32 - m they reverse the m binary digits of every m-bit word |
| `BitReversal.ReversedTwice` | dpsim-models/src/MathUtils.cpp:436-440 | digit reversal is an involution, so the exchanges meet each pair once |
| `FFT.EvalIsDft` | dpsim-models/src/MathUtils.cpp:404-410 | evaluating the samples as a polynomial at w^j is the Fourier sum at j |
| `FourierSums.SampleCounts` | dpsim-models/src/MathUtils.cpp:404-410 | a change d of sample k changes the Fourier sum at j by d w^(jk); with NoSamples (zero for zero samples) and PowersAre this determines the sums |
| `FFT.DecimatedIsEval` | dpsim-models/src/MathUtils.cpp:411-425 | decimation in frequency leaves the transform in bit-reversed order, for every power of two |
| `FFT.StageKeepsBlocks` | dpsim-models/src/MathUtils.cpp:411-425 | one stage over all blocks followed by the transforms of the half-size blocks with the squared root is the transform of the full blocks |
| `FFT.Butterflies` | dpsim-models/src/MathUtils.cpp:416-425 | the doubly nested in-place loop, which visits pairs across blocks, performs the stage of every block |
| `FFT.ReverseIndex` | dpsim-models/src/MathUtils.cpp:429-435 | the masks and the shift give the reversed index of every word of up to 31 bits, and the counter does not wrap |
| `FFT.Decimate` | dpsim-models/src/MathUtils.cpp:427-441 | the conditional exchanges move every sample to its bit-reversed index exactly once |
| `FFT.Transform` | dpsim-models/src/MathUtils.cpp:404-442 | for N = 2^m, 1 <= m <= 31, and any number phiT with phiT^N = -1, sample j ends as the sum of x[n] w^(jn) with w = phiT^2 |
| `Packing.SetThenGet` | dpsim-models/src/MathUtils.cpp:73-101 | reading a complex element returns what was last set there and nothing set at another row or harmonic; where the parts are written is stated by SetElementPlaces |
| `PackedNetworks.SetElementPlaces` | dpsim-models/src/MathUtils.cpp:73-81 | with c rows per part, the real part goes to 2cf + row and the imaginary part c places further; nothing else changes |
| `PackedNetworks.PackedSet` | dpsim-models/src/MathUtils.cpp:73-81 | setting an element of the packed form of a complex vector gives the packed form of the vector with that element replaced |
| `PackedNetworks.PackedGet` | dpsim-models/src/MathUtils.cpp:93-101 | reading an element of the packed form gives the element of the complex vector |
| `Packing.PackedAdd` | dpsim-models/src/MathUtils.cpp:130-144 | adding a value to the packed matrix adds it to exactly one entry of the complex nodal matrix, and no entry couples two harmonics |
| `PackedNetworks.AddPackedPlaces` | dpsim-models/src/MathUtils.cpp:130-144 | entry by entry, the update adds the block with rows (re, -im) and (im, re) and changes nothing else |
| `Packing.SystemMatrix.AddToMatrixElement` | dpsim-models/src/MathUtils.cpp:130-144 | the four real updates in place keep the matrix the packing of the nodal matrix with the value added |
| `Packing.SystemMatrix.StampToMatrix` | dpsim-models/src/MNAStampUtils.cpp:261-270 | adds y(e1-e2)(e1-e2)^T to the nodal matrix, also when rows or columns coincide |
| `Packing.SystemMatrix.StampMatrix` | dpsim-models/src/MNAStampUtils.cpp:187-236 | refuses exactly blocks that are not square, without a change; otherwise every nodal entry grows by the block's entry at each terminal off ground and shrinks by it across them, and by nothing elsewhere |
| `Packing.SystemMatrix.StampScalar` | dpsim-models/src/MNAStampUtils.cpp:238-259 | the same for a value on the diagonal of a block; with one phase it is the two-terminal stamp |
| `Packing.SystemMatrix.StampEntry` | dpsim-models/src/MNAStampUtils.cpp:211-236 | one entry of the block, in each of the cases of grounded terminals |
| `Packing.PackedProduct` | dpsim-models/src/MathUtils.cpp:73-144 | the real matrix times a packed vector, read back as complex numbers, is the complex nodal product at each harmonic |
| `PackedNetworks.ProductRead` | dpsim-models/src/MathUtils.cpp:73-144 | the product of the real matrix with a packed vector, read element by element through complexFromVectorElement, is the complex nodal product |
| `Packing.StampKeepsSums` | dpsim-models/src/MNAStampUtils.cpp:261-270 | a stamp between two nodes conserves every row sum and every column sum of the nodal matrix |
| `Packing.BlockKeepsSums` | dpsim-models/src/MNAStampUtils.cpp:170-259 | so do the stamps of a value, of a block and of a scalar block between two nodes, and every part of them that the loops have stamped so far, for any block |
| `PackedNetworks.StampDraws` | dpsim-models/src/MNAStampUtils.cpp:170-259 | with the stamp of a block, the rows of the network draw the currents a (v1 - v2) at terminal 1 and their negatives at terminal 2, with a grounded terminal at zero, in each case of grounded terminals and at every point of the loops |
| `PackedNetworks.ScalarCurrent` | dpsim-models/src/MNAStampUtils.cpp:238-259 | a value stamped as a scalar block couples no phases: phase p draws the value times its own voltage |
| `SubnetLayout.AssignNodeIndices` | dpsim/src/DiakopticsSolver.cpp:181-208 | the rows of the nodes, three for a node with three phases, follow one another from 0 and end at the subnet's size |
| `SubnetLayout.AssignOffsets` | dpsim/src/DiakopticsSolver.cpp:210-218 | the blocks of the subnets follow one another, complex ones twice as wide as their number of nodes |
| `SubnetLayout.RowsPartition` | dpsim/src/DiakopticsSolver.cpp:181-218 | every row belongs to exactly one node and one subnet |
| `SubnetLayout.WidthCountsEach` | dpsim/src/DiakopticsSolver.cpp:181-218 | widening one node or subnet moves all later ones by that amount |
| `Diakoptics.FindTearColumns` | dpsim/src/DiakopticsSolver.cpp:349-367 | the cached columns of a subnet are exactly the columns of the tear topology that are not zero there |
| `DiakopticsSums.SumCountsEach` | dpsim/src/DiakopticsSolver.cpp:599-606 | every source counts in a sum of sources, fully and once; with SumOfZeros this determines the right sides of the subnets and the tear voltages |
| `DiakopticsSums.StampsCountEach` | dpsim/src/DiakopticsSolver.cpp:319-348 | the same for the stamps that make up a subnet's matrix, entry by entry (with StampsOfZeros) |
| `DiakopticsSums.TearCountsEach` | dpsim/src/DiakopticsSolver.cpp:620-641 | each subnet contributes its own part to C^T v, once (with TearOfZeros) |
| `Diakoptics.InverseOfCombination` | dpsim/src/DiakopticsSolver.cpp:649-660 | Y^-1 (C i) = (Y^-1 C) i |
| `Diakoptics.TornSolution` | dpsim/src/DiakopticsSolver.cpp:620-660 | solving the Schur complement for i and correcting every subnet solves Z i = E - C^T v with the corrected v, for any number of subnets and tear components |
| `Diakoptics.StepSolves` | dpsim/src/DiakopticsSolver.cpp:599-660 | the solves before and after the tear solve add up to the solution of the coupled network: Y v = I + C i in every subnet and Z i = E - C^T v |
| `Diakoptics.ResolvedIsInverse` | dpsim/src/DiakopticsSolver.cpp:551-582 | solving only the cached columns again with the new matrix brings the whole block of Y^-1 C up to date |
| `Diakoptics.DiakopticsSolver.constructor` | dpsim/src/DiakopticsSolver.cpp:319-380 | establishes: each subnet's matrix is the sum of its stamps, Y^-1 C and the Schur complement belong to them, no rebuild is pending |
| `Diakoptics.DiakopticsSolver.RecomputeSubnetMatrix` | dpsim/src/DiakopticsSolver.cpp:551-582 | after any subnet recomputes, Y^-1 C belongs to the current matrices and the Schur complement does unless its rebuild is requested; other subnets stay |
| `Diakoptics.DiakopticsSolver.SubnetSolve` | dpsim/src/DiakopticsSolver.cpp:599-617 | solves Y v' = I with the current matrix and I the sum of all current sources; the matrix is the sum of the current stamps whether or not it was recomputed |
| `Diakoptics.DiakopticsSolver.PreSolve` | dpsim/src/DiakopticsSolver.cpp:620-646 | solves (Z + C^T Y^-1 C) i = E - C^T v' for the current Y, with E the sum of all tear sources, rebuilding first if requested, and maps C i to the subnets |
| `Diakoptics.DiakopticsSolver.Solve` | dpsim/src/DiakopticsSolver.cpp:649-660 | adds the solution of Y x = C i to this subnet's part of v' and to no other |
| `Diakoptics.DiakopticsSolver.Step` | dpsim/src/DiakopticsSolver.cpp:599-660 | one time step with any set of changed subnets: the result solves the coupled network for the current matrices, and the cache stays valid |
| `ReactiveLimits.BusLimits` | dpsim/src/PFSolverPowerPolar.cpp:546-567 | the bus limits are the sums over its generators, unusable without a generator or a finite bound |
| `ReactiveLimits.LimitsAre` | dpsim/src/PFSolverPowerPolar.cpp:546-567 | each limit is finite exactly if all its generators have a finite one, and then their sum; there are no limits exactly if no generator has a finite bound; the set point is that of the last generator |
| `ReactiveLimits.PowerFlowSolver.RebuildIndices` | dpsim/src/PFSolver.cpp:269-293 | the index vectors list PQ then PV buses, no unknown twice |
| `ReactiveLimits.PowerFlowSolver.Reset` | dpsim/src/PFSolver.cpp:295-301 | restores the original split and clears pins and counts, from any state the switching can reach |
| `ReactiveLimits.PowerFlowSolver.FindPins` | dpsim/src/PFSolverPowerPolar.cpp:578-590 | exactly the PV buses that are not frozen and beyond a limit; each pin carries the limit that the bus violates: the sum of maxima with the reactive power above it, or the sum of minima with the reactive power below it; none of them is pinned |
| `ReactiveLimits.PowerFlowSolver.FindReleases` | dpsim/src/PFSolverPowerPolar.cpp:592-606 | exactly the pinned buses that are not frozen and whose voltage shows the limit no longer binds |
| `ReactiveLimits.PowerFlowSolver.DecisionsAre` | dpsim/src/PFSolverPowerPolar.cpp:578-606 | both tests with explicit inequalities: a bus must be pinned if its reactive power is above the maximum or below the minimum, and let go if it is held at the maximum with its voltage above the set point, or at the minimum with its voltage below it |
| `ReactiveLimits.PowerFlowSolver.PinBus` | dpsim/src/PFSolverPowerPolar.cpp:608-627 | moves the bus to PQ with its injection plus load equal to the violated limit itself, and keeps the invariant: PQ and PV split the original buses, pinned exactly after an odd number of switches, counts within the maximum |
| `ReactiveLimits.PowerFlowSolver.ReleaseBus` | dpsim/src/PFSolverPowerPolar.cpp:629-641 | moves the bus back to PV at its voltage set point and keeps the same invariant |
| `ReactiveLimits.PowerFlowSolver.EnforceReactiveLimits` | dpsim/src/PFSolverPowerPolar.cpp:544-643 | switches exactly the buses that must, each once, and says so; afterwards every pinned one is held at the limit that its reactive power violates, and every released one has its set point, at which no other voltage is touched; if none switches, every PV bus not frozen is within its limits, every pinned one is still held, and nothing changes |
| `ReactiveLimits.SumGrows` | dpsim/src/PFSolver.cpp:622-650 | raising some switch counts and lowering none raises their sum: the measure of the rounds |
| `ReactiveLimits.PowerFlowSolver.RoundsBounded` | dpsim/src/PFSolver.cpp:622-650 | in every state the switches so far are at most the number of original PV buses times the maximum per bus (or times one if that is zero) |
| `ReactiveLimits.PowerFlowSolver.Round` | dpsim/src/PFSolver.cpp:630-645 | a round that switches raises the sum of the counts, and one that does not leaves a settled state |
| `ReactiveLimits.PowerFlowSolver.SolvePowerflow` | dpsim/src/PFSolver.cpp:622-650 | whatever the Newton solves return: reported convergence means the last solve converged and, with limits enforced, at its reactive powers and its voltages no bus must switch; the number of rounds is bounded as above, and with more outer iterations allowed than that, only a failed solve can make the call fail |
| `ReactiveLimits.PowerFlowSolver.CountsWithin` | dpsim/src/PFSolverPowerPolar.cpp:569-573 | with a positive maximum, such as the fixed 2, no bus switches more often than the maximum in any state, and the switches together are at most the number of original PV buses times it |
| `VoltageZones.FindZone` | dpsim/src/PFSolver.cpp:352-358 | path halving terminates, returns the root and changes no node's root |
| `VoltageZones.UniteZones` | dpsim/src/PFSolver.cpp:359-361 | afterwards the roots describe the zones of one more line, although both lookups rewrite parents before the assignment |
| `VoltageZones.FindZones` | dpsim/src/PFSolver.cpp:363-371 | after all lines the roots are the zones of all lines |
| `VoltageZones.SameRootIffJoined` | dpsim/src/PFSolver.cpp:352-371 | two nodes have the same root exactly when a chain of lines joins them |
| `VoltageZones.Collect` | dpsim/src/PFSolver.cpp:373-396 | each zone's authoritative and other ratings are exactly those of its nodes above the threshold, in node order |
| `VoltageZones.CloseRatings` | dpsim/src/PFSolver.cpp:398-416 | two positive ratings within tolerance t of one reference differ by a factor of at least (1-t)^2 |
| `ZoneReferences.ReferenceIs` | dpsim/src/PFSolver.cpp:417-437 | the reference of a node is the first authoritative rating around it in the order of nodes and components, without one the first other rating, and zero without any |
| `ZoneReferences.AgreementIs` | dpsim/src/PFSolver.cpp:398-437 | the ratings around a node agree if and only if every authoritative one is within the strict tolerance of that reference and every other one within the loose tolerance, relative to the larger of the two |
| `VoltageZones.ZoneRatings` | dpsim/src/PFSolver.cpp:398-437 | hence any two positive authoritative ratings of a zone that passes |
| `VoltageZones.ResolveZones` | dpsim/src/PFSolver.cpp:417-437 | succeeds exactly if every zone agrees, and then gives each zone with a rating its voltage and no others one |
| `VoltageZones.PropagateAndVerify` | dpsim/src/PFSolver.cpp:342-443 | succeeds exactly if around every node, as far as lines reach, the ratings agree with their reference, and then assigns the node that reference; the statement speaks of chains of lines, not of the union-find |
| `VoltageZones.OneVoltagePerZone` | dpsim/src/PFSolver.cpp:439-443 | nodes joined by lines get the same base voltage, so each zone has one |
| `Topology.FindNeighbours` | dpsim-models/src/SystemTopology.cpp:364-386 | the neighbour lists hold exactly the lines between terminals off ground of power components, in both directions |
| `Topology.LinesHave` | dpsim-models/src/SystemTopology.cpp:368-386 | these lines join two nodes exactly when one component has both as terminals off ground |
| `Topology.SearchNode` | dpsim-models/src/SystemTopology.cpp:409-418 | each entry taken from the worklist, duplicates included, lowers the measure: unlabelled nodes first, then entries already labelled |
| `Topology.LabelSubnet` | dpsim-models/src/SystemTopology.cpp:397-419 | one search labels all nodes joined to its start and no others, so labels stay closed under the lines |
| `Topology.CheckTopologySubnets` | dpsim-models/src/SystemTopology.cpp:361-422 | terminates with two nodes off ground having the same label exactly when a chain of components joins them off ground, every such node labelled, and every label below the result in use |
| `SubnetChains.SubnetsAreConnected` | dpsim-models/src/SystemTopology.cpp:361-422 | in terms of the components alone: two nodes off ground have the same label exactly if a chain of nodes off ground leads from one to the other in which consecutive nodes are terminals of one power component |
| `Topology.SubnetHoldsTerminals` | dpsim-models/src/SystemTopology.cpp:345-351 | the subnet chosen by a component's first terminal off ground holds all its terminals off ground |
| `Topology.ComponentIsKept` | dpsim-models/src/SystemTopology.cpp:335-353 | a component gets into some subnet if and only if it is a signal component or has a terminal off ground, and then into exactly one |
| `SubnetChains.PartCounts` | dpsim-models/src/SystemTopology.cpp:335-353 | a component is in a part as often as in the network if that part is the first one, for a signal component, or that of its first labelled terminal off ground; and not at all otherwise |
| `PartsInOrder.NodesInOrder` | dpsim-models/src/SystemTopology.cpp:326-333 | the nodes of a part keep their order |
| `PartsInOrder.ComponentsInOrder` | dpsim-models/src/SystemTopology.cpp:335-353 | and so do the components |
| `Topology.SplitSubnets` | dpsim-models/src/SystemTopology.cpp:316-359 | one subnet is passed on whole; otherwise subnet l gets exactly the nodes labelled l and the components at home there, in their order, signal components go to subnet 0, and exactly the power components with grounded terminals only are lost |
| `LoadProfile.InterpolLinear` | dpsim-models/src/CSVReader.cpp:363-403 | for rows i and i + 1 around x the result lies on the straight line through them, in both components; before the first row and from the last row on it is that row's value; the search finds the upper neighbour |
| `LoadProfile.InsertKeepsFunction` | dpsim-models/src/CSVReader.cpp:363-403 | inserting the interpolated value at any new time changes the interpolation at no query |
| `LoadProfile.Resample` | dpsim-models/src/CSVReader.cpp:233-243 | for any list of times every row of the result lies on the straight lines of the original profile, the resampled profile is the same function, keeps all original rows and has a row at every requested time |
| `LoadProfile.OrderDoesNotMatter` | dpsim-models/src/CSVReader.cpp:233-243 | two lists with the same times, in any order and with repetitions, give the same profile |
| `LoadProfile.StaysWithin` | dpsim-models/src/CSVReader.cpp:363-403 | interpolated values stay within any bounds that the rows keep |
| `LoadProfile.SampleTimes` | dpsim-models/src/CSVReader.cpp:228-231 | with a positive step: the equally spaced times from start up to and including end, and none is missing |
| `Jacobian.ActivePower` | dpsim/src/PFSolverPowerPolar.cpp:430-437 | the loop computes the injected active power |
| `Jacobian.ReactivePower` | dpsim/src/PFSolverPowerPolar.cpp:439-446 | the loop computes the injected reactive power |
| `ComplexPower.PowerIsComplex` | dpsim/src/PFSolverPowerPolar.cpp:430-446 | P + jQ is the complex voltage of the bus times the conjugate of the current that row k of the admittance matrix gives, for every network and all voltages |
| `ComplexPower.TurnedPhasors` | dpsim/src/PFSolverPowerPolar.cpp:191-291 | turning a bus, as used for the derivatives, multiplies its complex voltage by cosine plus j sine and leaves the others |
| `Jacobian.CalculateDense` | dpsim/src/PFSolverPowerPolar.cpp:191-291 | every entry of the matrix is the one its block, row bus and column bus prescribe, whatever was there before |
| `Jacobian.VoltageDerivative` | dpsim/src/PFSolverPowerPolar.cpp:191-291 | the entries for voltages are derivatives: raising one voltage by the factor 1+e changes P and Q at any bus by e times the entry, exactly for other buses and up to a term in e^2 for the bus itself |
| `Jacobian.AngleDerivative` | dpsim/src/PFSolverPowerPolar.cpp:191-291 | the entries for angles are derivatives: turning one bus by an angle changes P and Q at any bus by its sine times the entry, and a term with the factor cosine minus one |
| `Jacobian.EntryIsDerivative` | dpsim/src/PFSolverPowerPolar.cpp:191-291 | the matrix holds these derivatives at the positions of their row and column bus |
| `JacobianLayout.EntriesOfBlocks` | dpsim/src/PFSolverPowerPolar.cpp:191-291 | which block stands where: P by angles, P by voltages, Q by angles, Q by voltages, for the buses in the order of the index vectors |
| `JacobianLayout.PatternOfBlocks` | dpsim/src/PFSolverPowerPolarSparse.cpp:26-64 | a position is stored exactly if its two buses are the same or connected |
| `JacobianLayout.JacobianBlocks` | dpsim/src/PFSolverPowerPolarSparse.cpp:84-163 | computes both matrices: each entry is that of its block, and the sparse one equals the dense one everywhere |
| `Jacobian.DerivativesBalance` | dpsim/src/PFSolverPowerPolar.cpp:191-291 | turning all angles together changes nothing: the angle entries of a row sum to zero, and the voltage entries to twice the power |
| `Jacobian.OutsideIsZero` | dpsim/src/PFSolverPowerPolarSparse.cpp:22-64 | every entry outside the pattern is zero, for every bus split and admittance matrix |
| `Jacobian.BuildPattern` | dpsim/src/PFSolverPowerPolarSparse.cpp:26-64 | stores exactly the positions of the pattern, all zero |
| `Jacobian.CalculateSparse` | dpsim/src/PFSolverPowerPolarSparse.cpp:84-163 | overwrites only stored positions (no structural insertion) and ends with the dense entry everywhere, stored or not |
| `Jacobian.BothJacobians` | dpsim/src/PFSolverPowerPolarSparse.cpp:84-163 | the sparse Jacobian equals the dense one entry by entry |
| `StateSpace.StampAll` | dpsim/src/MNAStateSpaceExtractor.cpp:176-200 | starting from zero, the blocks of exactly the contributors of one kind stand at their offsets, the rest is zero |
| `StateSpace.Combined` | dpsim/src/MNAStateSpaceExtractor.cpp:202-206 | constant and updated stamps add up to the stamps of all contributors |
| `StateSpace.NetworkSolution` | dpsim/src/MNAStateSpaceExtractor.cpp:208-226 | the network solution for history h is the combination of the solved columns with h |
| `StateSpaceSources.SourcesAreInjections` | dpsim/src/MNAStateSpaceExtractor.cpp:176-206 | the right side CdMna h is the sum of what each component injects for its own states |
| `StateSpace.ClosedLoopIsExact` | dpsim/src/MNAStateSpaceExtractor.cpp:208-226 | for any contributors and any h with Y x = CdMna h, row by row mAd h is the component's own history update a h_own + b x |
| `StateSpace.StateSpaceExtractor.constructor` | dpsim/src/MNAStateSpaceExtractor.cpp:12-58 | stamps belong to the contributors' current blocks and the closed loop is marked not valid |
| `StateSpace.StateSpaceExtractor.Restamp` | dpsim/src/MNAStateSpaceExtractor.cpp:189-206 | afterwards the combined stamps belong to the contributors' current blocks |
| `StateSpace.StateSpaceExtractor.Extract` | dpsim/src/MNAStateSpaceExtractor.cpp:91-129 | if changed blocks are reported and constant ones stay, the cached closed loop belongs to the current blocks and to the network matrix it was last solved with, which is the current one exactly when a recomputation was due |
| `StateSpace.SwitchedSolver.Solve` | dpsim/src/MNASolverDirect.cpp:255-342 | the flag says whether this solve changed the switch status; the next extraction is in step if the previous one saw the status before this solve |
| `StateSpace.SwitchedSolver.ExtractStateSpace` | dpsim/src/MNASolverDirect.cpp:168-172 | the closed loop belongs to the current status if extraction is in step; otherwise exactly if a contributor's update forces a recomputation or the statuses coincide |
| `StateSpace.SwitchedSolver.Step` | dpsim/src/MNASolverDirect.cpp:168-342 | with precomputed matrices for the switch statuses, one extraction per solve never leaves a stale closed loop, over any sequence of switchings and updates |
| `StateSpace.SwitchedSolver.StaleAfterTwoSolves` | dpsim/src/MNASolverDirect.cpp:255-335 | a property of the interface, not of a step: a switching in the first of two solves without an extraction between them leaves the flag clear after the second, so the next extraction keeps the closed loop of the old status |
| `StateSpace.StaleWitness` | dpsim/src/MNASolverDirect.cpp:255-335 | a concrete network where that closed loop differs from the one of the current status |
| `StateSpace.RecomputingSolver.constructor` | dpsim/src/MNASolverDirect.cpp:85-106 | nothing is extracted yet |
| `StateSpace.RecomputingSolver.Solve` | dpsim/src/MNASolverDirect.cpp:108-157 | afterwards the factorised matrix is the one the components would stamp now, whether or not it was recomputed |
| `StateSpace.RecomputingSolver.ExtractStateSpace` | dpsim/src/MNASolverDirect.cpp:160-167 | with one flag for both kinds of change: the closed loop belongs to the current blocks and to the current matrix, or the one of the last computation if nothing asked for another |
| `StateSpace.RecomputingSolver.Step` | dpsim/src/MNASolverDirect.cpp:108-167 | the closed loop belongs to the matrix and the blocks of this step, over any sequence of changes |
| `StateSpaceContributors.RowTimes` | dpsim/src/MNAStateSpaceContributor.cpp:112-128 | a row of the interface mapping times x is the voltage between the terminals, and minus the voltage of terminal 0 if both are at the same unknown |
| `StateSpaceContributors.MappingIsVoltage` | dpsim/src/MNAStateSpaceContributor.cpp:112-128 | the mapping gives the interface voltage for every x exactly unless both terminals are at the same unknown, where one entry overwrites the other |
| `StateSpaceContributors.BlocksUpdateHistory` | dpsim/src/MNAStateSpaceContributor.cpp:289-343 | the stamped blocks perform h' = h + 2 G v for the inductor and h' = -h - 2 G v for the capacitor |
| `HistoryUpdates.InductorUpdates` | dpsim/src/MNAStateSpaceContributor.cpp:289-306 | the inductor's blocks: h' = h + 2 G v |
| `HistoryUpdates.CapacitorUpdates` | dpsim/src/MNAStateSpaceContributor.cpp:326-343 | the capacitor's blocks: h' = -h - 2 G v |
| `HistoryUpdates.VoltageAcross` | dpsim/src/MNAStateSpaceContributor.cpp:112-128 | v in terms of the entries of x: the potential at terminal 1 less that at terminal 0, ground at zero, except that terminal 1 drops out if both are at the same unknown |
| `StateSpaceContributors.BlocksInject` | dpsim/src/MNAStateSpaceContributor.cpp:193-198 | the stamped injection of all history currents is -K^T h |

## Left out

- Memory ordering: each atomic operation, and each execution of a task, is one step of an interleaving. Counters and step numbers do not overflow.
- The variants of the barrier with a condition variable, and `BarrierTask`.
- Measurement files: costs are inputs. `std::sort` and `std::priority_queue` may order equal elements in any way.
- Task lists, edge lists, queues, priorities, total times and bus lists are value sequences and maps that loops reassign, not containers updated through references; what is updated in place (samples, zone parents, the dense Jacobian, solver and scheduler objects) is an array or an object.
- Newton iterations, power flow initialisation and the solution's post-processing: the results of a Newton run (converged or not, voltages, reactive powers of the generators) are arbitrary inputs.
- Voltage zones: copying the zone voltage back to the loads, and the warnings about nodes without a base voltage.
- Diakoptics.DiakopticsSolver.Step: the tear topology is an arbitrary matrix, not the +1 and -1 entries of the removed components; writing voltages and currents back to the components and `PostSolveTask` are not modelled. Subnet blocks stand for rows of one vector, and zero columns are recognised exactly, where the code allows a tolerance. A singular matrix is excluded.
- StateSpace: several frequencies and the switching of line models; what components stamp, and which switches are closed, is an input. A contributor that does not report a change of its matrices is excluded (`Reported`), and so is a variable component that does not report one of its own.
- Contributors other than three-phase inductors and capacitors, state metadata, and the exceptions for extraction before initialisation, for time steps that are not positive, and for solver results of unexpected size.
- Packing: real 2x2 blocks and plain real entries, and adding to vector elements: variations of the complex entry.
- Floating-point rounding and non-finite numbers, apart from the infinite reactive limits of generators.
- FFT.Transform: sine and cosine are replaced by any number whose N-th power is -1; more than 2^31 samples, where the 32-bit loop counter does not end, are excluded.
- BitReversal.ReversesWord: shifting by a variable number of bits is modelled as that many shifts by one.
- LoadProfile.Resample: an empty profile, on which the code reads before the first row, and a step that is not positive are excluded; parsing the files is not modelled. Weighting factors are rows of which one component is used.
- Topology: networks whose components have unconnected terminals or nodes outside the system; `SplitSubnets` needs a node off ground.
- DependencyGraph.ResolveDeps: attribute references with a cycle are excluded, on which the code does not return (`RankIffAcyclic`); an attribute and its references have one identity. In `TaskConflicts` the external attribute holds no value, and a task that reads a value of the previous step finds whatever the attribute holds when it runs.
- Parameter setters and the constant matrices of machine and inverter models, iterative synchronous generators, the harmonics solver, interfaces, sockets, logging, CSV and CIM parsing, graph rendering: formulas and input/output without the interplay studied here.
