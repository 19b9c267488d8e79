# Nyarix flow graph: a Dafny model

Nyarix runs packets through a flow graph: nodes wrap processing modules, edges route packets between
them, every node has a small priority queue in front of it, and a runtime loop feeds the graph from a
source and empties it into a sink. This project models that engine and proves what it promises, together
with five self-contained algorithms around it: the profile builder, the package load order, the signing
encoding, histogram percentiles and the token bucket.

How the parts fit together:

- `Digraphs`, `Listings`, `Sorting`, `Wrappers` hold the mathematics the rest shares: walks,
  reachability, acyclicity, counting along walks, lexicographic sorting.
- `Packets`, `Modules`, `LaneQueues`, `NodeQueues`, `PriorityQueues`: packets, the module contract, and
  the two bounded lane queues. A module's state is whatever it can compute from the packets handed to it,
  so `respond` takes that history; a stateless module ignores it. Whether the graph holds the only
  reference to a module, and how long a call takes, are part of a module and its responses.
- `Graphs` says what each graph mutation means on a plain edge list; `FlowGraphs` is the stored graph with
  its adjacency index, `CycleSearch` and `PathSearch` the two searches over the index, and `Rewiring` what
  live rewiring preserves of reachability and validity.
- `RewiredRouting`, `RewiredRuns` and `RewiredYields` say what live rewiring does to packets: which edge takes
  them afterwards, how their executions end, and what concurrent calls return. `Traces` compares packets and
  modules up to the nodes a traced packet has recorded.
- `Walks` gives the meaning of running one packet (first accepting edge, hop after hop) and the same run
  through the queues; `SequentialExecution` is the executor over the stored graph.
- `ParallelExecution` is the concurrent executor as a step machine whose schedules are all interleavings:
  tasks, one graph lock, per-node queues, a permit pool, aborts of siblings after an error.
  `ParallelInvariants`, `ParallelProgress`, `ParallelLanes`, `ParallelOutcome`, `ParallelCases` and
  `ParallelDeadlock` prove what holds of every schedule; `ParallelRouting` says which edges a branch follows
  without naming the functions that choose them; `ParallelCosts` bounds what a schedule can do before it is run, and
  `ParallelCompletion` decides from that whether a call can get stuck. `ParallelLeftovers` shows what failed
  calls do to later ones, and `ValidatedExecution` what validation buys both executors.
- `Lifecycles` and `ExecutionLoops`: bringing nodes up and down, and the runtime loop as a step machine
  against an environment that offers packets, reads from the sink or does not, cancels, pauses, resumes,
  holds the graph lock and closes either end at any moment. `LoopProgress` says when the loop stands still
  and what cancelling it achieves, `LoopEndings` what stops it, `LoopPausing` what a pause keeps out, `LoopResuming` what becomes of the
  loop when its pause handle is dropped; counterexamples come from the one-node loops of `OneNodeLoops`.
- `GraphBuilder`, `LoadOrder`, `Signing`, `Histograms`, `RateLimiters`.

Run counts, hops and fan-outs are unbounded throughout. Where a function takes `fuel`, it is the number of
hops looked at; statements quantify over every fuel, and a run that never ends is one that is still running
for every fuel.

## Where the code and its documentation differ

The model follows the code. These are proved:

- The receiving half of a node queue is documented to return nothing only once every lane is closed and
  drained (`crates/nyarix-graph/src/queue.rs:88`). Once closed, an empty control lane answers for the whole
  queue: a receiver gets the control lane and nothing else, so it gets everything exactly when nothing waits
  in a lower lane (`LaneQueues.ClosedDeliversFirstLane`), and any other packet, alone in a closed queue, is
  never seen (`NodeQueues.ClosedQueueHides`). The runtime's priority queue polls the same way.
- Cancelling is documented to lead to a bounded drain and an orderly end
  (`crates/nyarix-runtime/src/execution_loop.rs:175-192`). The main loop waits for room in the sink where
  neither a cancellation nor a time-out is looked at, so with a receiver that keeps the sink and stops reading
  it never ends: `LoopProgress.FullSinkSurvivesCancel`, for every sink capacity. Nor does a cancellation reach
  a loop that waits to be resumed: `LoopProgress.PausedForGood`. Exactly when a cancelled loop that is not
  paused comes to wait for the sink or for the graph lock, circles with a packet for ever, or ends, is in
  `LoopProgress.CancelledLoopEnds`. That a cancellation beats a packet when an idle loop wakes is true:
  `LoopProgress.CancelledWhileIdle`.
- A dropped pause handle is documented as an implicit permanent resume
  (`crates/nyarix-runtime/src/pause.rs:97-100`). It is one exactly if the loop was not paused at the time, as
  far as the packets it has let it come back (`LoopResuming.DroppedHandleResumesExactlyWhen`); otherwise the
  loop takes no packet and spins until cancelled (`LoopResuming.DroppedWhilePausedSpins`).
- A pause is documented to stop new packets until resumed
  (`crates/nyarix-runtime/src/execution_loop.rs:22-26`). An idle loop takes none
  (`LoopPausing.PausedWhileIdle`). A busy one lets at most one in while the sink stays open and nothing cancels
  (`LoopPausing.AtMostOneEntersWhilePaused`). A closing sink breaks the pause exactly if the loop was caught
  with an output to deliver, or with one to come, and something is left to drain
  (`LoopPausing.PauseBreaksExactlyWhen`); any number of packets may then enter
  (`LoopPausing.ClosedSinkBreaksThePause`).
- Dropping the sink is documented to begin the shutdown (`crates/nyarix-runtime/src/execution_loop.rs:175-177`).
  The loop notices only when it next has an output (`LoopEndings.StopsOnlyForCause`), so an idle one does not
  end: `LoopEndings.ClosedSinkGoesUnnoticed`.
- Removing and reconnecting is documented to bridge predecessors directly to successors
  (`crates/nyarix-graph/src/graph.rs:448-458`). The bridges carry no condition and come after every other edge, so
  a packet may go elsewhere than through the removed node, even if that passed everything on; exactly when
  it does not is `RewiredRouting.RemovalKeepsStepExactlyWhen`.
- Removing and reconnecting a node that feeds itself, unless it is many-to-many, removes the node and then
  reports an error naming it: `Rewiring.RemovalSucceedsExactly`, and on the smallest graph
  `Rewiring.SelfLoopIsLost`. A many-to-many node is refused before anything changes.
- A branch keeps its permit while it joins the branches it spawned, so no permit count is enough for every
  graph: `ParallelDeadlock.NoPermitCountSuffices`. On an acyclic graph of stateless modules and from empty
  queues a call can get stuck exactly when the unfolding of the graph from the entry forks more often than
  there are permits, which can be counted before the call:
  `ParallelCompletion.StuckExactlyWhenForksExceedPermits`.
- A call that fails leaves packets of the branches it drops in node queues, and no later call takes out more
  than it puts in. Once they fill a lane, a call that comes there waits for ever, permits or not:
  `ParallelLeftovers.LeftoversJam`. Whatever the queues hold, exactly when a call is stuck is in
  `ParallelProgress.StuckExactlyWhenHalted`.
- Inserting a node into an allow-listed feedback edge loses the exemption, so a graph that validated may no
  longer; exactly when is `Rewiring.InsertIntoFeedback`. The documentation leaves validating again to the
  caller.
- The two packet classifiers disagree exactly on handshake and rekey packets without the control tag:
  `PriorityQueues.LaneAgreesWithPriority`.

## Model

| member | source | states |
|---|---|---|
| `Packets.TagsAreMasks` | crates/nyarix-graph/src/condition.rs:34-35 | a tag test is a test of that one-tag mask, a mask accepts what either half does, and the empty one nothing |
| `Packets.PriorityIsLeast` | crates/nyarix-graph/src/condition.rs:36 | the named priority is the least accepted, and everything above an accepted one is |
| `Packets.ConnectivesAreBoolean` | crates/nyarix-graph/src/condition.rs:37-39 | negation, conjunction and disjunction, empty and one member at a time, exchanged by negation |
| `Packets.OnlyTagsAndPriorityCount` | crates/nyarix-graph/src/condition.rs:32-41 | a condition sees nothing of a packet but its tags and priority |
| `NodeQueues.LaneForExactly` | crates/nyarix-graph/src/queue.rs:24-35 | control packets go in the first lane whatever else they are, other interactive ones in the second, all others in the third |
| `NodeQueues.NodeQueue.TrySend` | crates/nyarix-graph/src/queue.rs:67-73 | a packet is refused exactly when its own lane is full, and otherwise joins the back of that lane; nothing else changes |
| `NodeQueues.NodeQueue.TryRecvPrioritized` | crates/nyarix-graph/src/queue.rs:108-116 | takes the front of the first non-empty lane, control before interactive before bulk, and nothing when all are empty |
| `NodeQueues.NodeQueue.PollRecv` | crates/nyarix-graph/src/queue.rs:90-97 | with a live sender it waits only while every lane is empty; with every sender gone an empty control lane ends the stream even when lower lanes hold packets |
| `NodeQueues.NodeQueue.Len` | crates/nyarix-graph/src/queue.rs:123-125 | counts the packets of all three lanes |
| `NodeQueues.NodeQueue.Drain` | crates/nyarix-graph/src/queue.rs:137-149 | hands out all three lanes, best lane first, and leaves them empty |
| `LaneQueues.FifoPerLane` | crates/nyarix-graph/src/queue.rs:67-149 | over any run of sends and receives, on any number of lanes: what was accepted is, lane by lane and in order, what was received followed by what is still there, so nothing is lost, duplicated or reordered within a lane, and no lane exceeds its capacity |
| `LaneQueues.RefusedExactlyWhenFull` | crates/nyarix-graph/src/queue.rs:67-73 | after any run, the next send is refused exactly when, of all its lane ever accepted, as many items as the capacity have not been received; a refusal leaves the queue as it was, and an accepted item comes after everything its lane accepted before |
| `LaneQueues.PollIsPop` | crates/nyarix-graph/src/queue.rs:90-97 | while senders live, the awaiting receive takes what the non-waiting one takes, and waits exactly when everything is empty |
| `LaneQueues.ClosedDeliversFirstLane` | crates/nyarix-graph/src/queue.rs:85-97 | once closed, receiving until told that nothing is left delivers exactly the best lane, which is everything exactly when nothing waits in a lower lane |
| `NodeQueues.ClosedQueueHides` | crates/nyarix-graph/src/queue.rs:85-97 | any packet but a control packet, alone in a closed queue, is there and never received |
| `LaneQueues.PopIsDrain` | crates/nyarix-graph/src/queue.rs:108-149 | receiving one item after another delivers what draining would hand out |
| `LaneQueues.DrainIsStableSort` | crates/nyarix-graph/src/queue.rs:137-149 | draining is the stable sort of the waiting items by lane |
| `LaneQueues.DrainAfterRun` | crates/nyarix-runtime/src/priority.rs:137-145 | after any run, draining yields the stable sort by lane of what arrived and has not left |
| `LaneQueues.StableSortIsStable` | crates/nyarix-runtime/src/priority.rs:135-145 | that sort keeps arrival order within each lane |
| `PriorityQueues.PriorityQueue.TrySend` | crates/nyarix-runtime/src/priority.rs:101-107 | refuses exactly when the priority's lane is full, otherwise appends to it |
| `PriorityQueues.PriorityQueue.PollRecv` | crates/nyarix-runtime/src/priority.rs:123-133 | the five-lane biased receive, with a live sender and after the last one is gone |
| `PriorityQueues.PriorityQueue.Drain` | crates/nyarix-runtime/src/priority.rs:137-145 | hands out all five lanes in priority order and leaves them empty |
| `PriorityQueues.FromTagsExactly` | crates/nyarix-runtime/src/priority.rs:52-60 | real-time exactly with a control, handshake or rekey tag; high exactly with the interactive tag and none of these; nothing but those and normal |
| `PriorityQueues.RanksInOrder` | crates/nyarix-runtime/src/priority.rs:26-37 | the five priorities are served in declaration order |
| `PriorityQueues.LaneAgreesWithPriority` | crates/nyarix-runtime/src/priority.rs:52-60 | a packet's queue lane and its task priority agree exactly when it carries the control tag or neither the handshake nor the rekey tag |
| `FlowGraphs.FlowGraph.AddNode` | crates/nyarix-graph/src/graph.rs:49-58 | keeps the representation invariant (adjacency keys are the node ids, every adjacency list is the targets of that node's edges in order and multiplicity, every edge endpoint is a node) and adds the node, marked if it is a source or a sink |
| `FlowGraphs.FlowGraph.RemoveNode` | crates/nyarix-graph/src/graph.rs:61-72 | keeps the invariant; drops the node, its edges, its marks and every mention in the index, and leaves the feedback allow-list alone |
| `FlowGraphs.FlowGraph.Connect` | crates/nyarix-graph/src/graph.rs:79-96 | keeps the invariant; appends the edge, or names the first missing endpoint and changes nothing |
| `FlowGraphs.FlowGraph.Disconnect` | crates/nyarix-graph/src/graph.rs:103-115 | keeps the invariant; removes the first edge between the two nodes from both representations, or nothing |
| `FlowGraphs.FlowGraph.IndexAgrees` | crates/nyarix-graph/src/graph.rs:79-96 | the index the validator reads and the edge list the executor reads describe the same relation |
| `FlowGraphs.FlowGraph.DetectCycle` | crates/nyarix-graph/src/graph.rs:248-261 | a reported cycle closes on itself along real edges outside the allow-list, and none is reported exactly when there is none |
| `CycleSearch.Search.Visit` | crates/nyarix-graph/src/graph.rs:263-297 | a depth-first visit finds a real cycle, or finishes the node with all its unexempted successors finished before it |
| `CycleSearch.Search.CloseCycle` | crates/nyarix-graph/src/graph.rs:278-283 | the stack from the repeated node on, closed by that node, is a cycle of checked edges |
| `CycleSearch.Search.Run` | crates/nyarix-graph/src/graph.rs:248-261 | searching from every node decides acyclicity of the checked edges |
| `FlowGraphs.FlowGraph.FindPath` | crates/nyarix-graph/src/graph.rs:123-153 | a returned path is a walk along real edges with the fewest hops, and none is returned exactly when the target is unreachable or an endpoint is absent |
| `PathSearch.FindPath` | crates/nyarix-graph/src/graph.rs:123-153 | the same on the adjacency index alone: shortest, simple, and complete |
| `PathSearch.Follow` | crates/nyarix-graph/src/graph.rs:142-150 | following a node's edges visits and queues what is new, one hop further away, or stops with the target at its true distance |
| `PathSearch.Search` | crates/nyarix-graph/src/graph.rs:131-152 | the breadth-first loop: every node is discovered at its true distance, and the first arrival is shortest |
| `PathSearch.ReconstructPath` | crates/nyarix-graph/src/graph.rs:155-168 | following predecessors from a discovered target ends, and yields a shortest walk from source to target |
| `FlowGraphs.FlowGraph.Validate` | crates/nyarix-graph/src/graph.rs:331-370 | succeeds exactly when no unexempted cycle exists, every entry reaches some exit and no unmarked node is edgeless; otherwise the reported fault is a real one |
| `FlowGraphs.FlowGraph.InsertAfter` | crates/nyarix-graph/src/graph.rs:389-445 | keeps the invariant; splices the node into the only outgoing edge, which keeps its type and condition on the first half, or appends it; refuses an absent or ambiguous place without change |
| `FlowGraphs.FlowGraph.RemoveAndReconnect` | crates/nyarix-graph/src/graph.rs:467-517 | keeps the invariant; removes the node, connects every predecessor to every successor in order and hands the node back, or, when a connection fails, loses it; a missing or many-to-many node leaves all nodes in place |
| `Rewiring.InsertSucceedsExactly` | crates/nyarix-graph/src/graph.rs:389-419 | an insertion is refused exactly after an absent node or one that two edges leave, and then nothing changes; otherwise exactly the new node is added, an exit if it is a sink and an entry if it is a source |
| `Rewiring.InsertKeepsMeaning` | crates/nyarix-graph/src/graph.rs:389-445 | inserting a fresh node clear of the allow-list keeps reachability between all old nodes, both ways, and acyclicity, both ways |
| `Rewiring.InsertKeepsReachability` | crates/nyarix-graph/src/graph.rs:389-445 | whatever is allow-listed, inserting a fresh node keeps reachability between all old nodes, both ways |
| `Rewiring.InsertIntoFeedback` | crates/nyarix-graph/src/graph.rs:421-438 | where the cycle check passed before, it passes after an insertion exactly unless the cut edge is allow-listed and closes a cycle of checked edges: its two halves are no longer exempt |
| `Rewiring.InsertKeepsSound` | crates/nyarix-graph/src/graph.rs:389-445 | a valid graph stays valid |
| `Rewiring.RemovalKeepsMeaning` | crates/nyarix-graph/src/graph.rs:467-517 | removing an interior unmarked node without a self-loop keeps reachability between the remaining nodes, both ways, and acyclicity |
| `Rewiring.RemovalKeepsSound` | crates/nyarix-graph/src/graph.rs:467-517 | the graph after such a removal is valid exactly when it was before |
| `Rewiring.InsertThenRemove` | crates/nyarix-graph/src/graph.rs:389-517 | inserting after a node with one outgoing edge and removing again restores nodes, marks and every adjacency list |
| `Rewiring.RemovalSucceedsExactly` | crates/nyarix-graph/src/graph.rs:467-517 | removal succeeds exactly when the node is there, is not many-to-many and does not feed itself; an absent or many-to-many node changes nothing; any other that feeds itself is gone, and no other node is, when the call fails naming it |
| `Rewiring.SelfLoopIsLost` | crates/nyarix-graph/src/graph.rs:467-517 | on the graph of one node that feeds itself the failing call leaves the empty graph |
| `RewiredRouting.InsertSplitsEdge` | crates/nyarix-graph/src/graph.rs:421-438 | splitting the only edge out of a node: exactly the packets it accepted still leave the node, over an edge that differs from it in its end only, and the new node sends every packet to where it led; all other nodes accept what they did |
| `RewiredRouting.InsertKeepsRouting` | crates/nyarix-graph/src/graph.rs:421-438 | in both executors what went on from that node goes to the new one and on from there, what was refused still is, and the node forks exactly when it did |
| `RewiredRouting.InsertAppends` | crates/nyarix-graph/src/graph.rs:439-442 | after a node without outgoing edges every packet it passes on goes to the new node, unless the node is an exit, and dead-ends there |
| `RewiredRouting.InsertedSinkDelivers` | crates/nyarix-graph/src/graph.rs:416-419 | a sink that is inserted delivers what it is handed, in both executors |
| `RewiredRuns.InsertKeepsRuns` | crates/nyarix-graph/src/graph.rs:389-445 | with a fresh node that passes everything on, among modules that do not look at traces, stateful ones included, every execution that ends ends as before up to the trace, with the same packets handed to them and the same path, but for the new node right after every visit of the cut edge's source that goes on, and nowhere else |
| `RewiredYields.InsertKeepsReturns` | crates/nyarix-graph/src/graph.rs:389-445 | on an acyclic graph of stateless modules two concurrent calls with an untraced packet, one before and one after such an insertion, under any schedules and permits that finish, both fail or return the same packets |
| `RewiredRouting.RemovalRoutes` | crates/nyarix-graph/src/graph.rs:492-514 | after a removal a packet goes from any other node along the first accepting edge that did not lead to the removed one; failing that, from a predecessor to the first successor whatever conditions there were; a fork loses its branches to the removed node and no fork is gained |
| `RewiredRouting.RemovalKeepsStepExactlyWhen` | crates/nyarix-graph/src/graph.rs:462-514 | from a predecessor a packet goes where it went through the removed node exactly if some edge there took it and, when the first that did led to the removed node, that passed it on to where the first other accepting edge leads, or, without one, to its first successor |
| `RewiredRouting.RemovalKeepsOthers` | crates/nyarix-graph/src/graph.rs:492-514 | nodes that did not feed the removed one route every packet as before, in both executors |
| `RewiredRuns.RemovalKeepsRuns` | crates/nyarix-graph/src/graph.rs:467-517 | where that holds at every predecessor, the removed node passes everything on and the other modules do not look at traces, every execution that ends ends as before up to the trace, with the same packets at the other modules and the same path without the removed node |
| `RewiredRuns.StraightIsSettled` | crates/nyarix-graph/src/graph.rs:448-454 | it holds for every packet on a straight stretch of unconditioned edges |
| `Walks.QueuesAreTransparent` | crates/nyarix-graph/src/execution.rs:281-346 | through empty queues the executor is the walk with no queues: every node gets exactly the packet that reached it, no queue is ever full, and all queues are empty again however the run ends |
| `Walks.HandsOver` | crates/nyarix-graph/src/execution.rs:310-329 | what each module has been handed afterwards is what it had been handed before followed by the run's calls to it, in order |
| `Walks.WithinLimits` | crates/nyarix-graph/src/execution.rs:121-134 | every call reaches a node that exists with a packet within its payload limit |
| `Walks.RefusedExactlyWhen` | crates/nyarix-graph/src/execution.rs:121-134 | a packet is let in exactly at a node that exists and within its payload limit; which error it meets otherwise |
| `Walks.StartsAtEntries` | crates/nyarix-graph/src/execution.rs:303-308 | the first call is at the entry named, which is marked as one; anywhere else the execution fails before any call |
| `Walks.LeftoversOvertake` | crates/nyarix-graph/src/execution.rs:281-295 | where a more urgent packet already waits at a node, the module is handed that one, and the packet just sent stays behind in its lane |
| `Modules.Module.ProcessExactly` | crates/nyarix-graph/src/execution.rs:149-173 | a module that is shared is never run; one that takes longer than its budget has its result dropped; otherwise the result is the module's own |
| `Walks.FollowsFirstEdges` | crates/nyarix-graph/src/execution.rs:335-344 | every call but the first is made with what the call before it produced, at the end of the first edge in the list that leaves that node and accepts the packet; the run ends as its last call demands: delivered at an exit, absorbed, failed, refused at the next node, or at a node no edge of which accepts the packet |
| `Walks.PathIsWalk` | crates/nyarix-graph/src/execution.rs:310-345 | the nodes of a run form a walk of the graph |
| `Walks.TraceIsPath` | crates/nyarix-graph/src/execution.rs:243-246 | a traced packet that exits carries its old trace followed by exactly the nodes it went through |
| `Walks.OnlyTheTraceGrows` | crates/nyarix-packet/src/metadata.rs:300-310 | through modules that forward what they get, every packet handed over and the one that exits equal the one that entered in everything but the trace of a traced packet, which has grown by exactly the path so far |
| `Walks.CallsAreBounded` | crates/nyarix-graph/src/execution.rs:310-345 | where cycles need allow-listed edges, a run that crosses k of them makes at most (k + 1) times node-count calls |
| `Walks.AcyclicRunsEnd` | crates/nyarix-graph/src/execution.rs:310-345 | on an acyclic graph no node is visited twice and every run ends within node-count hops |
| `Walks.MoreFuel` | crates/nyarix-graph/src/execution.rs:310-345 | a run that has ended is the same however far one looks |
| `SequentialExecution.CheckPayloadLimit` | crates/nyarix-graph/src/execution.rs:121-134 | an error exactly for a payload above a declared limit |
| `SequentialExecution.EnqueueAndDequeue` | crates/nyarix-graph/src/execution.rs:281-295 | a full lane is reported and changes nothing; otherwise the packet joins its lane and whatever priority puts first comes out |
| `SequentialExecution.ExecuteSequential` | crates/nyarix-graph/src/execution.rs:297-346 | the loop over the stored graph computes the queued run exactly: ending, calls, module histories and queue contents, whatever the queues held before |
| `SequentialExecution.ExecutesTheWalk` | crates/nyarix-graph/src/execution.rs:297-346 | from empty queues that is the plain walk, with the queues left empty |
| `SequentialExecution.ValidatedRunsEnd` | crates/nyarix-graph/src/execution.rs:225-231 | on a graph that validates without feedback edges every run ends within node-count hops |
| `ParallelInvariants.TreeStep` | crates/nyarix-graph/src/execution.rs:538-561 | every action keeps the task tree: spawned branches are exactly what their live parent still has to join |
| `ParallelInvariants.LockStep` | crates/nyarix-graph/src/execution.rs:371-400 | at most one task holds the graph lock, and exactly the one recorded |
| `ParallelInvariants.PermitStep` | crates/nyarix-graph/src/execution.rs:499-549 | no action makes or loses a permit |
| `ParallelInvariants.TicketStep` | crates/nyarix-graph/src/execution.rs:381-404 | a send leaves one packet and one ticket, a receive takes one of each, and nothing else touches either, aborts included |
| `ParallelProgress.ReceiveNeverWaits` | crates/nyarix-graph/src/execution.rs:389-404 | in every reachable state, whatever the queues held and whoever was aborted, a branch that has the lock to receive can: the expectation in the code never fails |
| `ParallelProgress.TicketsAndPermitsBalance` | crates/nyarix-graph/src/execution.rs:499-549 | held plus free permits are always the clamped pool, and each queue holds what it started with plus one packet per branch that sent and has not received |
| `ParallelLanes.LanesKeepApart` | crates/nyarix-graph/src/queue.rs:54-73 | in every state of every interleaving each packet waits in its own lane, and no lane holds more than its capacity |
| `ParallelLanes.ReceivesMostUrgent` | crates/nyarix-graph/src/queue.rs:108-116 | a branch that receives takes the longest-waiting of the most urgent packets at its node, whoever sent it, and that is what the module is handed |
| `ParallelCases.AtLeastOnePermit` | crates/nyarix-graph/src/execution.rs:447-499 | a call without permits behaves under every schedule as with one; any other gets the number it asks for |
| `ParallelCases.UnmarkedEntryFails` | crates/nyarix-graph/src/execution.rs:489-497 | a call at a node that is not marked as an entry has failed naming it before any action |
| `ParallelRouting.ForksAlongParallelEdges` | crates/nyarix-graph/src/execution.rs:441-444 | off an exit a forwarded packet forks exactly when some edge that leaves the node is parallel and accepts it, to the ends of exactly those edges, in list order and with multiplicity |
| `ParallelRouting.RoutesWithoutFork` | crates/nyarix-graph/src/execution.rs:515-536 | otherwise an exit delivers, the first edge in the list that accepts leads on, and a node with none is a dead end |
| `ParallelRouting.ForkYieldsSum` | crates/nyarix-graph/src/execution.rs:515-561 | what a packet yields at a fork is the sum, over exactly those edges, of what it yields at their ends; without one it is what it yields at the end of the first accepting edge |
| `ParallelProgress.StuckExactlyWhenHalted` | crates/nyarix-graph/src/execution.rs:371-404 | whatever the queues hold, an unfinished call has no enabled action exactly when every live branch waits for a permit with none free, for branches it spawned, or at a full lane; the last only where no branch has a packet queued and the node held at least a lane's worth before the call |
| `ParallelProgress.StuckExactlyWhenBlocked` | crates/nyarix-graph/src/execution.rs:538-561 | from queues that each hold less than a lane's worth, an unfinished call has no enabled action exactly when every permit is taken and every live branch waits for a permit or for branches it spawned |
| `ParallelProgress.ProgressWithPermits` | crates/nyarix-graph/src/execution.rs:538-561 | while fewer spawned branches are fanned out than there are permits, in particular while none is, an unfinished call can go on |
| `ParallelDeadlock.NoPermitCountSuffices` | crates/nyarix-graph/src/execution.rs:544-555 | for every permit count and lane capacity some acyclic graph of pass-through modules reaches a state that never moves again |
| `ParallelLeftovers.FailureLeavesPacket` | crates/nyarix-graph/src/execution.rs:381-404 | a failing call can end with nothing left to do and one more packet in the queue of a node where a dropped branch had sent |
| `ParallelLeftovers.LeftoversJam` | crates/nyarix-graph/src/execution.rs:381-404 | for every lane capacity, on an acyclic graph of stateless modules, as many failing calls as a lane holds packets leave queues from which a call without any fork gets stuck |
| `ParallelOutcome.YieldStep` | crates/nyarix-graph/src/execution.rs:360-566 | every action conserves what queues and branches still stand to deliver, although branches may swap packets, unless its task fails or is dropped; a task fails only with an error that was to come, or that a branch it spawned has failed with |
| `ParallelOutcome.YieldRun` | crates/nyarix-graph/src/execution.rs:360-566 | after any schedule all of the unfolding from the entry is still due or collected, unless a branch has failed; and every error any branch has failed with is one of the unfolding's |
| `ParallelOutcome.OkLeavesNothing` | crates/nyarix-graph/src/execution.rs:553-561 | for any graph and any modules, a call from empty queues that returns normally leaves every queue empty and every permit free |
| `ParallelOutcome.ScheduleIndependence` | crates/nyarix-graph/src/execution.rs:460-566 | with stateless modules on an acyclic graph, every interleaving that finishes returns normally exactly when the unfolding loses no branch, and then returns the unfolding's packets in some order; otherwise the error it returns is one that a branch of the unfolding is lost to |
| `ParallelOutcome.SamePackets` | crates/nyarix-graph/src/execution.rs:460-566 | two interleavings, even with different permit counts and module histories, agree on success and on the multiset of packets |
| `ParallelCosts.EveryActionPays` | crates/nyarix-graph/src/execution.rs:360-566 | every action of every task lowers what tasks and queues can still spend by at least its price, for any prices of actions and forks, although branches may swap packets |
| `ParallelCosts.EveryScheduleEnds` | crates/nyarix-graph/src/execution.rs:460-566 | with stateless modules on an acyclic graph every interleaving of a call from empty queues is at most as long as the workload computed from the graph, the entry and the packet |
| `ParallelCompletion.StuckExactlyWhenForksExceedPermits` | crates/nyarix-graph/src/execution.rs:499-561 | with stateless modules on an acyclic graph and from empty queues, some interleaving gets stuck before the call returns exactly when the unfolding from the entry forks more often than there are permits |
| `ParallelCompletion.EndsOnlyWhenDone` | crates/nyarix-graph/src/execution.rs:460-566 | with a permit for every fork, an interleaving that cannot be continued has returned, with the unfolding's packets, or, exactly when the unfolding loses a branch, with the error of one it loses |
| `ParallelCompletion.CanAlwaysFinish` | crates/nyarix-graph/src/execution.rs:460-566 | with a permit for every fork, every interleaving can be continued until the call has returned and nothing is left to do |
| `ValidatedExecution.ValidatedCallsAgree` | crates/nyarix-graph/src/execution.rs:460-566 | on a stored graph that validates without feedback edges, with stateless modules and empty queues, every interleaving that finishes returns the unfolding's packets or fails exactly when the unfolding loses a branch, and no receive waits on the way |
| `ValidatedExecution.ValidatedCallsFinish` | crates/nyarix-graph/src/execution.rs:499-561 | on such a graph some interleaving never returns exactly when the unfolding forks more often than there are permits |
| `ParallelCases.AgreesWithSequential` | crates/nyarix-graph/src/execution.rs:522-536 | where no accepting parallel edge is met, every interleaving is one task, takes at most five actions per hop of the sequential run and two more, stops only when finished, and finishes with the sequential result, the same module histories and the same queues, with stateful modules too |
| `Lifecycles.InitializeAll` | crates/nyarix-runtime/src/execution_loop.rs:65-77 | in whatever order nodes come, initializes up to and including the first failure and reports it; nodes after it keep their state; all come up exactly when none fails |
| `Lifecycles.AttemptedPrefix` | crates/nyarix-runtime/src/execution_loop.rs:58-64 | the attempted nodes are a prefix of the order, all but a failing last one came up, and all were attempted when none failed |
| `Lifecycles.ShutdownAll` | crates/nyarix-runtime/src/execution_loop.rs:93-119 | shuts every node down whatever happens to the others, discards exactly what their queues still held, in priority order, and reports the first failure; it succeeds exactly when no module fails to shut down |
| `ExecutionLoops.RunIsUnique` | crates/nyarix-runtime/src/execution_loop.rs:278-287 | what the loop does with a packet is its sequential execution, whatever shows that it ends |
| `ExecutionLoops.SinkIsPrefixOfSurvivors` | crates/nyarix-runtime/src/execution_loop.rs:226-254 | in every run, for every cancellation point, the sink has received in order and at most once a prefix of what the packets sent first yield when executed one by one; it lacks something already served only after the drain's time-out or with the sink closed |
| `ExecutionLoops.NothingIsLost` | crates/nyarix-runtime/src/execution_loop.rs:180-186 | a loop that ends with its drain not cut short and its sink open has delivered everything that the packets sent before its drain found the source empty yield |
| `ExecutionLoops.LifecycleOrder` | crates/nyarix-runtime/src/execution_loop.rs:65-119 | in every run every initialize precedes every process call and every shutdown follows them; calls reach only nodes that came up; if an initialize fails no packet is even taken; shutdown reaches every node once |
| `ExecutionLoops.EndsByClosing` | crates/nyarix-runtime/src/execution_loop.rs:244-266 | a loop that has ended normally has shut every node down exactly once, drains cut short and closed sinks included, unless the closing itself was given up, and then none; one that ended with an error reports the node that did not come up |
| `LoopEndings.StopsOnlyForCause` | crates/nyarix-runtime/src/execution_loop.rs:226-242 | whatever modules make of packets, the main loop is over only if it was cancelled, its source is closed and empty, or an output found the sink closed |
| `LoopEndings.ClosedSourceEnds` | crates/nyarix-runtime/src/execution_loop.rs:226-254 | once the source is closed and nothing pauses it, the loop's own steps are bounded, and where they stop it has ended, circles with a packet, or waits for the sink or the lock |
| `LoopEndings.ClosedSinkGoesUnnoticed` | crates/nyarix-runtime/src/execution_loop.rs:175-177 | an idle loop whose sink closes never ends while it is offered nothing and nothing else is asked of it |
| `LoopPausing.PausedWhileIdle` | crates/nyarix-runtime/src/pause.rs:106-122 | when a loop parked in the select is paused, it takes nothing and begins no drain until a resume or a cancellation, whatever is offered before or after it wakes |
| `LoopPausing.AtMostOneEntersWhilePaused` | crates/nyarix-runtime/src/execution_loop.rs:226-242 | from a pause, even one during start-up, until a resume, a cancellation or the sink closing, at most one packet enters the graph, and only if the loop was past the pause flag in the same poll or had already taken it |
| `LoopPausing.PauseBreaksExactlyWhen` | crates/nyarix-runtime/src/execution_loop.rs:226-254 | a pause can be followed by a drain that takes packets, before any resume or cancellation, exactly if the loop was caught with an output to deliver, or, in the same poll, past the pause flag with a packet that exits, and something is left to drain |
| `LoopPausing.PauseHolds` | crates/nyarix-runtime/src/execution_loop.rs:226-254 | otherwise at most one more packet enters the graph whatever happens to source, sink and handle |
| `LoopPausing.ClosedSinkBreaksThePause` | crates/nyarix-runtime/src/execution_loop.rs:239-249 | if the sink closes while paused, any number of packets can enter before the next resume |
| `LoopResuming.DroppedWhilePausedSpins` | crates/nyarix-runtime/src/pause.rs:94-122 | when the last handle is dropped while the loop is paused and idle or at rest, it takes nothing more and never rests |
| `LoopResuming.DroppedHandleResumesExactlyWhen` | crates/nyarix-runtime/src/pause.rs:94-122 | at any point after the last handle was dropped, in every phase before the drain, the loop can come back to the pause flag and take another packet exactly if it was not paused at the drop and the packet it has, if any, comes through |
| `LoopProgress.StandsStillExactlyWhen` | crates/nyarix-runtime/src/execution_loop.rs:226-291 | the loop stands still exactly when it has ended, is paused with a live handle (cancelled or not), is parked with nothing to do, runs a packet that circles for ever (draining or not), has an output in the main loop for a sink that is open and full, or waits for the graph lock where no time-out applies |
| `LoopProgress.CancellationWinsTies` | crates/nyarix-runtime/src/execution_loop.rs:179-183 | once cancelled, and not already past looking for it in the same poll, the main loop takes and runs no further packet whatever the source holds; what is still processed is the drain's |
| `LoopProgress.CancelledWhileIdle` | crates/nyarix-runtime/src/execution_loop.rs:179-183 | the tie itself: when a parked loop is cancelled, no packet, offered before or after it wakes, enters from the main loop, and it never waits there for the sink or the lock |
| `LoopProgress.CancelledLoopEnds` | crates/nyarix-runtime/src/execution_loop.rs:179-254 | once cancelled and not paused, the loop's own steps are bounded by what the source holds; where they stop it has ended, circles, or waits in the main loop for the sink or the lock: for the sink exactly if that was open and full with a packet to come out, for the lock exactly if that was held with the loop starting or a packet to go in, and, short of a time-out, circling exactly if the packets still to run, in order, reach one that never settles before the drain is held up |
| `LoopProgress.PausedForGood` | crates/nyarix-runtime/src/execution_loop.rs:227 | a loop that waits to be resumed, with its handle alive, is reached by no cancellation |
| `LoopProgress.HeldUpForGood` | crates/nyarix-runtime/src/execution_loop.rs:289-295 | while nobody reads from the sink or closes it, no cancellation, pause, resume or other event gets a loop going again that waits for room in the main loop |
| `LoopProgress.FullSinkSurvivesCancel` | crates/nyarix-runtime/src/execution_loop.rs:239-242 | for every sink capacity a run reaches such a wait with the cancellation already given, and never ends |
| `GraphBuilder.BuildFromProfile` | crates/nyarix-runtime/src/graph_builder.rs:58-93 | succeeds exactly when every name resolves, and otherwise names the first that does not; the graph built is the stack's chain with nothing run or queued |
| `GraphBuilder.ChainSound` | crates/nyarix-runtime/src/graph_builder.rs:90 | validation accepts every chain, whatever kinds its modules have and for the empty stack too |
| `GraphBuilder.BuiltGraphComposes` | crates/nyarix-runtime/src/graph_builder.rs:72-88 | executing the chain from its first node is applying the modules in stack order, stopping at the first refusal, absorption, error or sink, for any module histories |
| `GraphBuilder.BuiltGraphExecutes` | crates/nyarix-runtime/src/graph_builder.rs:58-93 | so does the engine over the built graph, leaving its queues empty |
| `GraphBuilder.ComposeIsPipeline` | crates/nyarix-runtime/src/graph_builder.rs:49-51 | with stateless, exclusively owned, unlimited modules, none before the last a sink, that is the plain composition of their functions |
| `GraphBuilder.ComposeIsPipelineTraced` | crates/nyarix-runtime/src/graph_builder.rs:49-51 | with modules that do not look at traces it is that composition for traced packets too, up to the trace |
| `LoadOrder.Order` | crates/nyarix-loader/src/dependency_graph.rs:92-109 | the search over marks, path and order computes the specified search from the sorted package names |
| `LoadOrder.Loader.VisitName` | crates/nyarix-loader/src/dependency_graph.rs:111-147 | visiting a package in place extends the order as specified and restores the path, or reports the closing chain |
| `LoadOrder.OrderExactlyWhenAcyclic` | crates/nyarix-loader/src/dependency_graph.rs:83-109 | succeeds exactly when the dependencies between known packages are acyclic; then lists every package once with each known dependency first, otherwise names a real cycle with its first name repeated last |
| `LoadOrder.OrderForgetsListing` | crates/nyarix-loader/src/dependency_graph.rs:101-136 | the result depends only on which packages and dependencies there are, not on the order maps or lists give them in |
| `LoadOrder.EarlyOnlyIfNeeded` | crates/nyarix-loader/src/dependency_graph.rs:101-106 | where dependencies leave a choice the alphabet decides: a package is listed before another only if some package no later than that other one needs it or is it |
| `LoadOrder.EarlyAmongDependencies` | crates/nyarix-loader/src/dependency_graph.rs:132-139 | the same among the dependencies of one package, where its visit comes first |
| `Sorting.BeforeExactly` | crates/nyarix-package/src/signing.rs:53 | the order is decided at the first difference, where the smaller byte or the end of the name comes first |
| `Sorting.SortForgetsOrder` | crates/nyarix-loader/src/dependency_graph.rs:134-136 | sorting by name is independent of the order its input came in |
| `Signing.SignableBytes` | crates/nyarix-package/src/signing.rs:47-63 | the loop writes the frames of the covered members in path order |
| `Signing.SignedBytesExactly` | crates/nyarix-package/src/signing.rs:47-63 | exactly the members whose path does not start with signatures/, with multiplicity, in ascending order of their paths, laid end to end, each as its path, a NUL, its length in eight bytes from the lowest, and its contents |
| `Signing.DecodeInverts` | crates/nyarix-package/src/signing.rs:55-61 | a decoder reads the members back from the bytes, for NUL-free paths and lengths below 2^64 |
| `Signing.SameBytesExactlyWhenSameMembers` | crates/nyarix-package/src/signing.rs:39-63 | with distinct paths two member lists have equal signable bytes exactly when they are permutations of each other apart from members under signatures/ |
| `Signing.SigningCoversTheSame` | crates/nyarix-package/src/archive.rs:49-56 | adding the signature and the public key does not change what is covered |
| `Signing.VerifiesExactlyTheMembers` | crates/nyarix-package/src/signing.rs:67-89 | with a scheme that accepts a signature for its own message only, a package's signature verifies for another member list exactly when the covered members are the same, and always for the signed package |
| `Histograms.Histogram.Observe` | crates/nyarix-module-api/src/metrics.rs:107-120 | bucket counts, sum and count stay those of all observations so far |
| `Histograms.CountsAddUp` | crates/nyarix-module-api/src/metrics.rs:74-79 | the buckets add up to the observation count |
| `Histograms.Histogram.PercentileAt` | crates/nyarix-module-api/src/metrics.rs:169-202 | the loop over cumulative counts computes the specified estimate, the mean when there are no bounds and nothing when there are no observations |
| `Histograms.PercentileIsAccurate` | crates/nyarix-module-api/src/metrics.rs:154-202 | after any observations a percentile of rank at least 1 lies in the same bucket as the exact observation of that rank, or is the last bound when that lies beyond it; rank 0 gives 0 |
| `Histograms.RankIsLeast` | crates/nyarix-module-api/src/metrics.rs:177 | the rank asked for is the least that covers the fraction, none at 0 and below, all at 1 and above |
| `Histograms.PercentileInterpolates` | crates/nyarix-module-api/src/metrics.rs:181-196 | the estimate divides its bucket in the proportion in which the rank divides the observations there |
| `Histograms.RanksAreEquallySpaced` | crates/nyarix-module-api/src/metrics.rs:185-195 | within a bucket each further rank moves the estimate by the width over the count, from the lower edge to the upper bound, which the last rank gets |
| `Histograms.OpeningRank` | crates/nyarix-module-api/src/metrics.rs:185-195 | rank 0 gives 0, and the rank of everything up to a bucket that is not empty gives the bound that closes it |
| `Histograms.MeanWithoutBuckets` | crates/nyarix-module-api/src/metrics.rs:170-176 | nothing exactly when there are no observations, and their mean when there are no bounds |
| `Histograms.PercentileIsMonotone` | crates/nyarix-module-api/src/metrics.rs:169-202 | a higher percentile never gives a lower estimate |
| `RateLimiters.RateLimiter.TryAcquire` | crates/nyarix-module-api/src/rate_limiter.rs:47-64 | refills up to the capacity, then takes a token or refuses without taking one |
| `RateLimiters.WindowBound` | crates/nyarix-module-api/src/rate_limiter.rs:1-9 | in any window of any run at most the capacity plus the refill over the window's span is granted |
| `RateLimiters.UncappedBalance` | crates/nyarix-module-api/src/rate_limiter.rs:53-62 | while the bucket does not fill up, what was granted and what is left is exactly what there was and what the rate brought in, so refusals cost nothing |
| `RateLimiters.IdleThenBurst` | crates/nyarix-module-api/src/rate_limiter.rs:1-9 | after an idle time that refills the whole capacity, a burst of that many calls is granted in full, from any state and however fast |
| `RateLimiters.RateLimiter.TryAll` | crates/nyarix-module-api/src/rate_limiter.rs:47-64 | a series of calls on the limiter itself is granted at most the capacity plus the refill over its span, and all of it when the limiter was full and the calls are spaced |
| `RateLimiters.SpacedCallsPass` | crates/nyarix-module-api/src/rate_limiter.rs:47-64 | a full bucket of capacity at least 1 never refuses calls spaced a refill interval apart |

## Left out

- `FlowGraph.swap_node` and `FlowGraph.diff`: swapping replaces a node's queue and state without draining; the
  model has no topology change during a run, as the pause contract asks.
- Edge channels and their drop counters: execution never uses them, so an edge is its endpoints, type and
  condition. Fallback edges get no special treatment, as in the code.
- `GraphNode` configuration and migration; the capacity is a constructor argument.
- Metrics, throughput and flow recording during execution, logging, and the trace's time stamps (a hop
  records the node only).
- Panics in modules: a `process` call returns. The loop treats a caught panic like a failed packet, so nothing
  it does with one is new.
- Wall-clock time and Tokio itself: every await is a point where other steps may come in between, time-outs
  are steps of the environment's choosing, elapsed processing time is part of a module's response, and what
  lies between two awaits is one step. Node queues are neither closed nor orphaned during a call, since every
  node keeps both halves of its own.
- Node ids are opaque numbers, assumed fresh where the code draws a new one; hash map order is any order.
- `ExecutionLoops`: whoever else holds the graph lock is part of the environment; several loops on one graph
  are not modelled further than that.
- Integer widths: counters (`u64` counts, queue lengths) are unbounded; the signing length field is cut to
  eight bytes as in the code.
- `Histograms` and `RateLimiters`: `f64` rounding and NaN; the model computes over the reals.
- Sorting by the standard library is a specification function; where members share a path the code's unstable
  sort may order them differently, and statements about such lists ask for distinct paths.
- Signature schemes are three functions with a stated property; Ed25519, tar, zstd, TOML and file access are
  not part of this model.
- Missing-dependency reporting, version resolution, conflict reporting, caching and rollback, capability
  masks, packet pools, event bus, worker pools and signal handling: separate components.
- `Lifecycles.InitializeAll`: the runtime context and event subscriptions passed to modules are left out.
