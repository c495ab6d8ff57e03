# Verified kernels of the chip design toolkit

This project models the algorithmic kernels of a C toolkit for chip design and proves what
they promise: an FPGA router, static timing analysis, the memory system and the instruction
set of a neural network accelerator, logic rewriting, the die-to-die link layer, placement,
packing and partitioning. `dafny verify dfyconfig.toml` checks the whole project.

Each kernel is written twice. The code itself is an imperative method or class with the
loops, arrays and early exits of the original. Beside it stands a specification on values
(a function, a state machine or an outright property), and the results are lemmas about that
specification: what every run keeps, what a result means, which inputs make it fail.

| modules | what they hold |
|---|---|
| GraphSearch, RoutingFabric | the mirrored routing graph, breadth-first maze routing, the 256-entry path buffer |
| PathFinder | occupancy accounting over all nets, redundant routing |
| AStarHeap, AStar | the heap as written, and a router that is right for any pop order |
| AStarKeys | what entries are pushed with, and what a turn of the router changes |
| AStarRoom, AStarEven | how large the router's heap grows, for any delays and for equal ones |
| TimingPaths, TimingFpga, TimingRequired, TimingAnalysis | longest paths, forward and backward passes, slacks and summary figures |
| DmaSpec, DmaEngine, DmaTiming | the DMA engine: channels, ring of prefetches, draining, and when a transfer ends |
| BufferLevel | the first-fit segment allocator of one buffer level |
| CrcRegister, FlitCrc | the checksum register, and what flit corruption it notices |
| Prbs | test patterns of the link, their period, and error counting |
| Netlist | bypassing buffers and double inverters, over any gate library |
| QuineMcCluskey, LogicNetwork | cube merging with don't-cares, inverter rewriting |
| Placement | annealing as a process on permutations, wirelength, legality, cooling |
| ClbPack | greedy packing, capacity and number of blocks |
| ChipletPartition | least-loaded partitioning and Graham's bound |
| TechMap | levels and labels of a gate network |
| DnnIsa, DnnRuns | program building, execution against a cycle budget, validation, runs with branches |

Conventions: `double` quantities are reals, `DBL_MAX` is a separate value, 32-bit counters
whose wrap-around matters are taken modulo 2^32, random draws and the choice to accept a worse
placement are left open, asserted conditions of the code are preconditions, and error returns are results.

## What the code does that its comments do not say

The code is modelled as written. Where that differs from its documentation, the project
states what holds instead.

- The redundant route is the primary route again: the search never looks at occupancy
  (`PathFinder.RouteWithRedundancy`). For the same reason one pass decides every net, and
  later passes change nothing (`PathFinder.TryAgain`).
- Popping the A* heap compares children with the entry that was just removed, so the heap
  order is lost; `AStarHeap.SecondPopIsLeastIff` gives the exact condition under which the
  next entry out is still a least one. The router does not depend on it.
- That heap gets one slot per node, but a node can be pushed more than once. How many nodes
  and edges a graph may have for the slots to be enough is told exactly, for any delays
  (`AStarRoom.AlwaysRoomIff`) and for equal delays as in untimed routing
  (`AStarEven.AlwaysEvenRoomIff`).
- Cubes merge on any single difference, so a literal besides 0, 1 and dash makes the cover
  grow; `QuineMcCluskey.AlwaysSameCoverIff` gives the exact range. Up to 22
  cubes a pass stays within its 128 entries, beyond that not always (`QuineMcCluskey.AlwaysFitsIff`).
- The flit checksum uses the polynomial unreflected in a right-shifting register. It
  notices every burst within 29 bits and every 30-bit burst but one pattern; any four
  consecutive covered bytes can be changed unnoticed.
- The test patterns have one tap, so a pattern called PRBSn repeats after n bits, and the
  self test covers an eighth of the bits asked for.
- A legal placement may turn illegal under swaps, because swaps move positions but not
  sub-block numbers; `Placement.AlwaysLegalIff` gives the exact condition.
- Labels for lookup tables of five or more inputs are all 0, since gates have at most four;
  for smaller tables some network has a label above 0 (`TechMap.AllZeroIff`).
- An accelerator run may never end when its budget lies within 63 cycles of the counter's
  wrap; up to 2^32 - 64 every built program stops.
- Enough free bytes do not make an allocation succeed: up to 255 bytes of a segment are lost
  when it is given out whole.

## Model

| member | source | states |
|---|---|---|
| GraphSearch.AfterInv | mini-fpga-dev/src/routing_fabric.c:142-170 | after any number of expansions the queue holds the seen nodes once each in order of distance, each linked to a neighbour one hop nearer, and all neighbours of expanded nodes are seen |
| GraphSearch.QueueFits | mini-fpga-dev/src/routing_fabric.c:135-170 | the queue never holds more entries than the graph has nodes |
| GraphSearch.FoundIsShortest | mini-fpga-dev/src/routing_fabric.c:146-184 | stopping at the sink, the chain of predecessors is a simple walk and no walk to the sink has fewer hops |
| GraphSearch.MissedIsUnreachable | mini-fpga-dev/src/routing_fabric.c:172-176 | when the queue runs out first, no walk joins source and sink |
| RoutingFabric.RrGraph.AddNode | mini-fpga-dev/src/routing_fabric.c:44-60 | appends a node of capacity 1 without edges, or refuses when full; edges stay mirrored |
| RoutingFabric.RrGraph.AddEdge | mini-fpga-dev/src/routing_fabric.c:62-81 | lists the edge once at either end and changes nothing else; edges stay mirrored |
| RoutingFabric.RouteMazeBfs | mini-fpga-dev/src/routing_fabric.c:116-198 | returns 0 exactly when the sink is joined to the source in the undirected graph; then the cost is the least hop count, the delay a tenth of it, and the buffer holds the last 256 nodes of a simple shortest walk |
| RoutingFabric.RecordedMeaning | mini-fpga-dev/src/routing_fabric.c:178-194 | what is recorded for a connected pair is the tail of a shortest walk, and all of it when it has at most 255 hops |
| RoutingFabric.RecordedIsUnique | mini-fpga-dev/src/routing_fabric.c:116-198 | routing the same pair in a graph of the same shape records the same path |
| RoutingFabric.RoutingIsSymmetric | mini-fpga-dev/src/routing_fabric.c:152-169 | routing back from sink to source succeeds as often, in as many hops |
| RoutingFabric.RoutingPath.Backtrace | mini-fpga-dev/src/routing_fabric.c:178-191 | follows predecessors for at most 256 nodes and reverses them in place: the buffer holds the end of the chain |
| PathFinder.PathfinderIsCongested | mini-fpga-dev/src/routing_fabric.c:379-385 | true exactly when some node's occupancy exceeds its capacity |
| PathFinder.RouteNetPathfinder | mini-fpga-dev/src/routing_fabric.c:387-405 | routes source to first sink; on success marks the net and charges each node of the recorded path once, else changes nothing |
| PathFinder.RoutePathfinder | mini-fpga-dev/src/routing_fabric.c:407-440 | with at least one pass the nodes and nets are as charged and marked once per net in order; history and present factor have aged once a pass when congestion is left, and not at all otherwise; returns the number of routed nets |
| PathFinder.AgedTimesIs | mini-fpga-dev/src/routing_fabric.c:369-377 | after k congested passes an entry's cost has grown by k times its overuse count, which itself never changes |
| PathFinder.ChargedAdds | mini-fpga-dev/src/routing_fabric.c:394-401 | each node's occupancy grows by the number of newly routed nets whose recorded path visits it, and nothing else changes |
| PathFinder.TryAgain | mini-fpga-dev/src/routing_fabric.c:422-433 | trying a decided net once more changes neither nodes nor nets, so passes after the first do nothing |
| PathFinder.ReturnsConnected | mini-fpga-dev/src/routing_fabric.c:435-439 | from unrouted nets, the count returned is the number of nets whose source and first sink are connected |
| PathFinder.OccupyUndone | mini-fpga-dev/src/routing_fabric.c:494-506 | charging a path and taking the charge back leaves every node as it was |
| PathFinder.RouteWithRedundancy | mini-fpga-dev/src/routing_fabric.c:484-509 | all occupancies come back as they were, 0 is returned exactly on a connected pair, and the backup path equals the primary |
| PathFinder.PathfinderState.UpdateHist | mini-fpga-dev/src/routing_fabric.c:369-377 | adds the overuse count to each history entry that has one and raises the present factor |
| AStarHeap.Heap.Push | mini-fpga-dev/src/routing_fabric.c:215-225 | the array is that of the entry risen from the end; adds the entry to the multiset of entries and keeps an ordered heap ordered |
| AStarHeap.Heap.Pop | mini-fpga-dev/src/routing_fabric.c:227-241 | gives back the first entry and leaves the array of the sift as written; keeps the multiset of the others, and on an ordered heap nothing is sifted |
| AStarHeap.PushedRises | mini-fpga-dev/src/routing_fabric.c:215-225 | on any heap a pushed entry moves down each ancestor that costs more, and comes to stand below the first one, on its way to the root, that does not |
| AStarHeap.PoppedSinks | mini-fpga-dev/src/routing_fabric.c:227-241 | on any heap of two or more, the places on the way down are told by the costs as they stood before the last leaf was put on top: what the leaf stops at, and what moves up |
| AStarHeap.RootIsLeast | mini-fpga-dev/src/routing_fabric.c:227-229 | on an ordered heap the entry that comes out is a least one |
| AStarHeap.SecondPopIsLeastIff | mini-fpga-dev/src/routing_fabric.c:229-239 | the entry that comes out next is a least one of those left exactly when the last leaf costs no more than either child of the root |
| AStarHeap.OrderIsLost | mini-fpga-dev/src/routing_fabric.c:215-241 | three pushes in order of cost and one pop leave the dearest entry to come out next |
| AStar.RouteAstar | mini-fpga-dev/src/routing_fabric.c:247-318 | returns 0 exactly when the sink is reachable over fanout edges; then the buffer is the tail of a simple walk whose edge delays sum to the cost; the arrays are those after the turns of the search loop, and at most one push more than there are edges was made |
| AStar.TreePathIsExact | mini-fpga-dev/src/routing_fabric.c:282-291 | at any moment the predecessors of a visited node give a simple walk over fanout edges costing exactly its recorded cost |
| AStar.ReachedIsVisited | mini-fpga-dev/src/routing_fabric.c:272-292 | once the heap is empty every reachable node has been visited, whatever the pop order |
| AStar.RelaxKeepsTree | mini-fpga-dev/src/routing_fabric.c:280-291 | relaxing an edge into an unvisited node keeps the search tree |
| AStar.DropStale | mini-fpga-dev/src/routing_fabric.c:274 | dropping an entry of a visited node loses no pending node |
| AStarKeys.ManhattanIsLeast | mini-fpga-dev/src/routing_fabric.c:243-245 | the estimate is the least number of unit steps in x or y that lead from one position to the other |
| AStarKeys.WalkDelayAdds | mini-fpga-dev/src/routing_fabric.c:282-287 | an edge adds 1 to the cost of a walk, or the resistance of its source times the capacitance of its target |
| AStarKeys.RelaxSpreads | mini-fpga-dev/src/routing_fabric.c:280-291 | trying all edges of a node lowers the labels of exactly the unvisited successors whose label exceeds its own and the edge, links them to it, and pushes each of them once, keyed with the new label plus the least steps to the sink |
| AStarKeys.TurnSpreads | mini-fpga-dev/src/routing_fabric.c:272-292 | a turn takes out the first entry; that is all when its node is visited or the sink, and otherwise its edges are tried |
| AStarKeys.HeapIsKeyed | mini-fpga-dev/src/routing_fabric.c:272-292 | after any number of turns every entry costs a label that its node had after one of them plus the least steps from the node to the sink, and every labelled node not visited yet has an entry with the label it has now |
| AStarRoom.RelaxPushes | mini-fpga-dev/src/routing_fabric.c:280-291 | trying all edges of a node pushes each unvisited node at most once, however often an edge is repeated |
| AStarRoom.BookedRun | mini-fpga-dev/src/routing_fabric.c:272-292 | after k turns a heap that is not empty holds all pushes but k, at most k nodes are visited, and no more was pushed than the source and, for each node visited, those unvisited then |
| AStarRoom.AlwaysRoomIff | mini-fpga-dev/src/routing_fabric.c:255-292 | one heap slot per node is enough at every turn of every search on every graph of n nodes and at most e edges, whatever its delays, exactly when n is at most 4 or e at most n + 1 |
| AStarRoom.DetourSecond | mini-fpga-dev/src/routing_fabric.c:272-292 | when the first successor of the source is the nearest and shortens the way to the others, the heap holds after two turns as many entries as source and successor have edges together, less one |
| AStarRoom.HeapOutgrows | mini-fpga-dev/src/routing_fabric.c:255-292 | for every n from 5 on, a graph of n nodes and n + 2 edges on which two turns of a timed search leave n + 1 entries; the resistances and capacitances are public fields that a caller may set, and adding a node sets them to 10.0 and 1e-14 |
| AStarEven.TallyKept | mini-fpga-dev/src/routing_fabric.c:272-292 | until the sink comes out, with equal delays each label is the delay of a number l of edges, and an unvisited node pushed c times has been so no sooner than with l + 2(c - 1) nodes visited |
| AStarEven.AlwaysEvenRoomIff | mini-fpga-dev/src/routing_fabric.c:255-292 | with equal delays, as in untimed routing, one slot per node is enough at every turn of every search on every graph of n nodes and at most e edges exactly when n is at most 8 or e at most n + 3 |
| AStarEven.EvenOutgrows | mini-fpga-dev/src/routing_fabric.c:255-292 | for every n from 9 on, a graph of n nodes and n + 4 edges on which four turns leave n + 1 entries; in untimed routing its nodes are just as they are added |
| TimingFpga.TimingGraph.AddNode | mini-fpga-dev/src/timing_fpga.c:45-64 | appends a node with the initial times and no edges, or refuses when full; the graph stays wired |
| TimingFpga.TimingGraph.AddEdge | mini-fpga-dev/src/timing_fpga.c:66-98 | appends the edge and lists it once at either end, or refuses when full; the graph stays wired |
| TimingFpga.ComputeArrival | mini-fpga-dev/src/timing_fpga.c:146-206 | returns 0 exactly on a non-empty graph without cycles, and then every node holds the latest arrival over all paths into it |
| TimingPaths.RelaxKeeps | mini-fpga-dev/src/timing_fpga.c:179-195 | relaxing one more edge keeps counters, queue, values and order of the propagation |
| TimingPaths.AllQueuedIffAcyclic | mini-fpga-dev/src/timing_fpga.c:201-205 | every node gets queued exactly when the edges have no cycle |
| TimingPaths.FinishedIsLongest | mini-fpga-dev/src/timing_fpga.c:185-189 | a finished propagation on an acyclic graph holds at each node the largest start plus delay over all paths into it |
| TimingPaths.LongPathHasCycle | mini-fpga-dev/src/timing_fpga.c:201-204 | a path of more edges than there are nodes comes back to a node it left |
| TimingRequired.ComputeRequired | mini-fpga-dev/src/timing_fpga.c:214-265 | on a graph without cycles every node ends with the least period minus delay over all paths to endpoints; on any graph an endpoint ends with the period of its clock domain when there is one and it is positive, and with the default period otherwise |
| TimingFpga.GetClockPeriod | mini-fpga-dev/src/timing_fpga.c:443-449 | the period recorded for the domain, or the default period without such a domain |
| TimingRequired.EndpointsKeepPeriods | mini-fpga-dev/src/timing_fpga.c:229-260 | nothing tightens an endpoint: on any graph it keeps the positive period of its clock domain, or else the default period |
| TimingRequired.FlippedLongestIsTightest | mini-fpga-dev/src/timing_fpga.c:239-260 | the backward pass is the forward pass on reversed edges: longest negated requirement is tightest requirement |
| TimingRequired.ReachesEndpoint | mini-fpga-dev/src/timing_fpga.c:230-237 | without cycles, every node has a path to an endpoint |
| TimingAnalysis.ComputeSlack | mini-fpga-dev/src/timing_fpga.c:270-276 | slack is requirement minus arrival at every node, and nothing else changes |
| TimingAnalysis.SummarizeSlack | mini-fpga-dev/src/timing_fpga.c:289-305 | the first node of least slack, the sum of negative slacks and the number of violations |
| TimingAnalysis.CriticalPathDelay | mini-fpga-dev/src/timing_fpga.c:325-339 | the largest arrival, found whenever some arrival exceeds -1 |
| TimingAnalysis.Analyze | mini-fpga-dev/src/timing_fpga.c:279-320 | succeeds exactly on a non-empty acyclic graph; then nodes hold latest arrival, tightest requirement and their difference, endpoints are required by the period of their clock domain, and the result holds the summary figures |
| TimingAnalysis.WorstSlackIsLeastMargin | mini-fpga-dev/src/timing_fpga.c:289-300 | the worst slack is the least margin over all paths to endpoints, whatever the periods and delays |
| TimingAnalysis.CriticalDelayIsLongest | mini-fpga-dev/src/timing_fpga.c:328-339 | from zeroed arrivals the critical delay is that of the longest path in the graph |
| TimingAnalysis.WorstSlackIsPeriodMinusCritical | mini-fpga-dev/src/timing_fpga.c:279-339 | when every endpoint is due at one period, by its clock domain or by default, delays are not negative and arrivals zeroed, the worst slack is that period minus the critical delay |
| TimingAnalysis.NoViolationsIffFits | mini-fpga-dev/src/timing_fpga.c:296-305 | no setup violation is counted exactly when the longest path fits in the period |
| TimingAnalysis.ViolationsAreCounted | mini-fpga-dev/src/timing_fpga.c:296-305 | the violations are as many as there are nodes of negative slack |
| TimingAnalysis.NegativeSlackMoves | mini-fpga-dev/src/timing_fpga.c:296-305 | changing one slack changes the total negative slack by what changed below zero |
| TimingAnalysis.DelaysAdd | mini-fpga-dev/src/timing_fpga.c:307-310 | one edge more adds its wire and its logic delay to the totals |
| TimingAnalysis.ReanalysisIsStable | mini-fpga-dev/src/timing_fpga.c:161-189 | analysing again from the arrivals left behind gives the same arrivals |
| DmaEngine.Engine.Submit | mini-ai-accel-design/src/buffer_hierarchy.c:141-155 | the least free channel takes the transfer, or -1 and no change when all are busy |
| DmaEngine.Engine.Prefetch | mini-ai-accel-design/src/buffer_hierarchy.c:227-236 | queues the transfer behind the others, or -1 and no change when 32 wait |
| DmaEngine.Engine.Tick | mini-ai-accel-design/src/buffer_hierarchy.c:157-210 | one cycle for every channel in order, then one waiting prefetch issued if a channel is free; how long a transfer takes is told by DmaTiming.Takes |
| DmaEngine.Engine.WaitAll | mini-ai-accel-design/src/buffer_hierarchy.c:220-225 | comes to an end; entered busy, it leaves no channel busy and no prefetch queued and has moved exactly the bytes in flight and queued |
| DmaEngine.Engine.Reset | mini-ai-accel-design/src/buffer_hierarchy.c:238-246 | clears channels and queue, keeps the totals |
| DmaSpec.StepKeeps | mini-ai-accel-design/src/buffer_hierarchy.c:141-246 | every submit, prefetch, tick and reset keeps: active count is the number of busy channels, busy means in flight, tail is head plus count modulo 32 |
| DmaSpec.RunConservesBytes | mini-ai-accel-design/src/buffer_hierarchy.c:141-246 | over any run, bytes moved, in flight, queued and forgotten by resets are those there were plus those accepted |
| DmaSpec.SinceResetConserved | mini-ai-accel-design/src/buffer_hierarchy.c:238-246 | from a reset on, growth of the byte total plus bytes in flight or queued is the bytes accepted |
| DmaSpec.PrefetchesAreFifo | mini-ai-accel-design/src/buffer_hierarchy.c:196-208 | over any run without reset, issued prefetches followed by the waiting ones are the ones that waited followed by those accepted |
| DmaSpec.TickProgresses | mini-ai-accel-design/src/buffer_hierarchy.c:157-210 | a tick of a busy engine shortens the queue, or else brings the transfers nearer to their end |
| DmaSpec.WaitAllDrains | mini-ai-accel-design/src/buffer_hierarchy.c:220-225 | draining from a busy state ends idle with an empty queue and every byte moved |
| DmaSpec.WaitAllEmptiesQueueIff | mini-ai-accel-design/src/buffer_hierarchy.c:222 | draining empties the queue exactly when it is entered busy or the queue is empty already |
| DmaTiming.TransferCyclesTakes | mini-ai-accel-design/src/buffer_hierarchy.c:168-176 | with bandwidth w, c channels and a size s a transfer takes t ticks with t w <= s c < (t + 1) w; 1 tick without bandwidth or with s c < w, and 2^32 - 1 from s c >= (2^32 - 1) w on |
| DmaTiming.TakesIsUnique | mini-ai-accel-design/src/buffer_hierarchy.c:168-176 | these inequalities leave only one number of ticks |
| DmaTiming.TickPerChannel | mini-ai-accel-design/src/buffer_hierarchy.c:161-208 | what a tick does to each channel: a transfer goes one tick on, ends when it has had its ticks, and the first channel free then receives the oldest prefetch |
| DmaTiming.TickTakesOne | mini-ai-accel-design/src/buffer_hierarchy.c:199-208 | a tick takes the oldest prefetch off the queue exactly when some channel receives it, and otherwise leaves the queue alone |
| DmaTiming.StaysInFlight | mini-ai-accel-design/src/buffer_hierarchy.c:161-181 | a transfer with c ticks done is in flight with c + k done after k more ticks, for as long as that is less than it takes, whatever the other channels do |
| DmaTiming.CompletesAfter | mini-ai-accel-design/src/buffer_hierarchy.c:161-208 | with its last tick it is complete, and its channel is free or has received the oldest prefetch |
| DmaTiming.SubmittedTakes | mini-ai-accel-design/src/buffer_hierarchy.c:141-193 | a transfer submitted with no tick done is in flight after each of the first t - 1 ticks and complete after tick t, t given by the inequalities |
| DmaTiming.TickAdds | mini-ai-accel-design/src/buffer_hierarchy.c:178-183 | a tick adds the sizes and the ticks of the transfers that end in it to the totals |
| DmaTiming.LoneTransfer | mini-ai-accel-design/src/buffer_hierarchy.c:141-210 | a transfer submitted to an idle engine keeps one channel busy for exactly t ticks and then adds its size to the bytes and t to the cycles |
| BufferLevel.Buffer.Allocate | mini-ai-accel-design/src/buffer_hierarchy.c:54-84 | the first usable segment is given out, split when 256 bytes or more (in 32-bit arithmetic) are left and a slot is free; soundness is kept and success means the free bytes sufficed |
| BufferLevel.Buffer.Release | mini-ai-accel-design/src/buffer_hierarchy.c:86-94 | clears the segment and adds its size to the free bytes; soundness is kept when the segment was allocated |
| BufferLevel.Buffer.Fits | mini-ai-accel-design/src/buffer_hierarchy.c:96-99 | whether the free bytes reach the size |
| BufferLevel.RunIsSound | mini-ai-accel-design/src/buffer_hierarchy.c:28-94 | every run that frees only allocated segments keeps segments disjoint and inside the level, free bytes equal to total minus allocated, and free segments within the free bytes |
| BufferLevel.AllocGives | mini-ai-accel-design/src/buffer_hierarchy.c:58-80 | a successful allocation had enough free bytes, gives a range of that size apart from all allocated ones, and changes no other segment |
| BufferLevel.AllocFailsIff | mini-ai-accel-design/src/buffer_hierarchy.c:55-83 | it fails exactly when the size is 0 or no single free segment is large enough, and then changes nothing |
| BufferLevel.AllocLeaves | mini-ai-accel-design/src/buffer_hierarchy.c:54-75 | on any level a successful allocation gives out the first segment that is free and large enough, and leaves one new free segment behind it, of the bytes and at the address that follow, exactly when size + 256 modulo 2^32 is at most its size and there are fewer than 16 segments; nothing else changes but the free bytes |
| BufferLevel.UsableFalls | mini-ai-accel-design/src/buffer_hierarchy.c:58-74 | the bytes of free segments fall by the size when the rest is split off, and by the whole segment when it is not |
| BufferLevel.FreshServesTwoIff | mini-ai-accel-design/src/buffer_hierarchy.c:54-79 | a fresh level serves a second request, from the new segment, exactly when one was split off and is large enough; so always with 256 bytes more than both |
| BufferLevel.FreeKeepsAccountIff | mini-ai-accel-design/src/buffer_hierarchy.c:86-94 | freeing keeps the byte count right exactly when the segment does not exist, is allocated, or is empty |
| BufferLevel.AllocThenFree | mini-ai-accel-design/src/buffer_hierarchy.c:54-94 | freeing what was just allocated gives every byte back |
| BufferLevel.CanFitIsNotEnough | mini-ai-accel-design/src/buffer_hierarchy.c:63-77 | a fresh level that gave out all but at most 255 bytes refuses every further request although the bytes count as free |
| CrcRegister.ShiftsLinear | mini-chiplet-design/src/ucie_d2d.c:10-15 | shifting commutes with exclusive or, over any number of steps |
| CrcRegister.ShiftKernel | mini-chiplet-design/src/ucie_d2d.c:11-14 | a shift sends exactly two values to zero |
| CrcRegister.DiesIff | mini-chiplet-design/src/ucie_d2d.c:10-15 | a difference of at most 30 bits vanishes, after any number of shifts, exactly when it is zero or the one lost pattern |
| CrcRegister.BurstMissedIff | mini-chiplet-design/src/ucie_d2d.c:8-24 | two streams that differ within 30 bits leave the same register exactly when they are equal or differ by the one lost pattern |
| CrcRegister.ShortBurstNoticed | mini-chiplet-design/src/ucie_d2d.c:8-24 | two streams that differ within 29 bits and leave the same register are equal |
| FlitCrc.Crc32Byte | mini-chiplet-design/src/ucie_d2d.c:8-17 | folds the byte in and shifts eight times |
| FlitCrc.Crc32Buffer | mini-chiplet-design/src/ucie_d2d.c:19-24 | the register after all bytes from all ones, complemented |
| FlitCrc.ChecksumIsComplement | mini-chiplet-design/src/ucie_d2d.c:19-24 | checksum and register add up to all ones: the register started at all ones, fed bit by bit |
| FlitCrc.BytesAreBits | mini-chiplet-design/src/ucie_d2d.c:8-24 | the byte loops compute the register after the bits of the message, lowest bit of each byte first |
| FlitCrc.FlitCrc32 | mini-chiplet-design/src/ucie_d2d.c:110-115 | the checksum of the flit's image with its checksum bytes zeroed |
| FlitCrc.LaidReads | mini-chiplet-design/src/ucie_d2d.c:110-115 | each field of the flit is read back from its own place in the 56-byte image |
| FlitCrc.FlitVerify | mini-chiplet-design/src/ucie_d2d.c:128-132 | true exactly when the stored checksum is the computed one |
| FlitCrc.FlitPack | mini-chiplet-design/src/ucie_d2d.c:117-126 | stores protocol, length and at most 32 bytes, zeroes the rest, and leaves a flit that verifies; without data the length is stored over a payload of zeros |
| FlitCrc.BurstPassesIff | mini-chiplet-design/src/ucie_d2d.c:110-132 | a flit that differs from a verifying one by a burst within 30 covered bits verifies exactly when the burst is the lost pattern or nothing |
| FlitCrc.ShortBurstDetected | mini-chiplet-design/src/ucie_d2d.c:110-132 | two flits with the same checksum that differ within 29 covered bits do not both verify |
| FlitCrc.OneByteDetected | mini-chiplet-design/src/ucie_d2d.c:110-132 | two flits that differ within one byte, of the checksum or not, do not both verify |
| FlitCrc.ThreeBytesDetected | mini-chiplet-design/src/ucie_d2d.c:110-132 | two flits that differ within three consecutive bytes outside the checksum do not both verify |
| FlitCrc.FourBytesCanPass | mini-chiplet-design/src/ucie_d2d.c:110-132 | any verifying flit can be changed in any four consecutive covered bytes and still verify |
| FlitCrc.LeRoundTrip | mini-chiplet-design/src/ucie_d2d.c:111-113 | reading a number from little-endian bytes and storing it again gives the bytes |
| FlitCrc.LeReads | mini-chiplet-design/src/ucie_d2d.c:111-113 | storing a number that fits in little-endian bytes and reading it back gives the number |
| Prbs.LfsrAdvance | mini-chiplet-design/src/d2d_phy.c:213-221 | the parity of the tapped bits enters behind the register, which keeps 31 bits |
| Prbs.Generate | mini-chiplet-design/src/d2d_phy.c:223-250 | returns the length, fills the first bits with the pattern of the seed (0x7E for 0), clears the rest of the last byte it writes, and leaves later bytes alone |
| Prbs.ByteOfPattern | mini-chiplet-design/src/d2d_phy.c:237-246 | each byte of a buffer that carries the pattern is eight bits of it, the earliest weighing least |
| Prbs.Verify | mini-chiplet-design/src/d2d_phy.c:252-280 | returns the length and the number of first bits that differ from the pattern of seed 0x7E; without a buffer or bits it returns 0 and leaves the caller's counter as it was |
| Prbs.ErrorsAreDifferences | mini-chiplet-design/src/d2d_phy.c:265-277 | against a buffer generated with the default seed, the error count is the number of first bits in which the two buffers differ |
| Prbs.NoErrorsIff | mini-chiplet-design/src/d2d_phy.c:252-280 | no error is counted exactly when the buffer carries the pattern |
| Prbs.Repeats | mini-chiplet-design/src/d2d_phy.c:213-235 | with its one tap, pattern PRBSn repeats after n bits for ever |
| Prbs.PatternsRepeat | mini-chiplet-design/src/d2d_phy.c:227-235 | in numbers: tap word 0x40 repeats after 7 bits, 0x100 after 9, 0x4000 after 15, 0x400000 after 23, 0x40000000 after 31, and an unlisted pattern is that of 0x4000 |
| Prbs.FirstBits | mini-chiplet-design/src/d2d_phy.c:213-245 | the first period is the seed's lowest bit, then its bits from the tap down |
| Prbs.SameStreamIff | mini-chiplet-design/src/d2d_phy.c:213-250 | over at least one period two seeds give the same pattern exactly when their bits up to the tap agree |
| Prbs.OtherSeedPassesIff | mini-chiplet-design/src/d2d_phy.c:237-277 | a pattern from another seed passes the check exactly when that seed agrees with 0x7E up to the tap |
| Prbs.Phy.SelfTest | mini-chiplet-design/src/d2d_phy.c:282-296 | always returns 0 with no errors, and counts an eighth of the bits asked for, plus one, in 32-bit arithmetic |
| Netlist.BypassKeepsMeaning | mini-eda-tools/src/synthesis.c:171-197 | moving the readers of one buffer or double inverter keeps exactly the consistent valuations |
| Netlist.OptimizationKeepsMeaning | mini-eda-tools/src/synthesis.c:164-202 | a valuation satisfies the netlist before exactly when it satisfies it after, cyclic netlists included, for any gate library |
| Netlist.OptimizationRetires | mini-eda-tools/src/synthesis.c:167-200 | afterwards the only buffers still read by other gates are those that feed on themselves |
| Netlist.AcyclicReadsNoBuffer | mini-eda-tools/src/synthesis.c:164-202 | an acyclic netlist stays acyclic with the same ranks, and no gate reads a driven buffer any more |
| Netlist.AcyclicReadsNoDouble | mini-eda-tools/src/synthesis.c:164-202 | after two sweeps or more no gate of an acyclic netlist reads an inverter driven by an inverter any more |
| Netlist.OptimizedIsClean | mini-eda-tools/src/synthesis.c:164-202 | after two sweeps or more the only buffers still read by other gates feed on themselves; and a netlist in which some rank grows along all inputs still is one, and reads neither a driven buffer nor a double inverter |
| Netlist.Circuit.AddGate | mini-eda-tools/src/synthesis.c:23-40 | appends a gate without ports |
| Netlist.Circuit.Connect | mini-eda-tools/src/synthesis.c:42-60 | stores the two ends of a connection at any ports and keeps the other ports and gates, slots skipped being left unset, or refuses an identifier past the end |
| Netlist.Circuit.RunBooleanOptimize | mini-eda-tools/src/synthesis.c:164-202 | the gates become the optimised ones: sweeps until one changes nothing, ten at most; for every library the consistent valuations stay, only self-feeding buffers keep other readers, and an acyclic netlist stays acyclic and reads no driven buffer and no double inverter |
| QuineMcCluskey.MintermTable.Add | mini-eda-tools/src/logic_synth.c:116-123 | appends the padded cube, or nothing when 128 are there |
| QuineMcCluskey.MintermTable.AddDontCare | mini-eda-tools/src/logic_synth.c:125-132 | the same with the don't-care mark |
| QuineMcCluskey.MintermTable.CountDiffBits | mini-eda-tools/src/logic_synth.c:134-141 | the number of differing literals, or -1 when either cube has a dash |
| QuineMcCluskey.MergeableIff | mini-eda-tools/src/logic_synth.c:134-141 | two cubes merge exactly when neither has a dash and they differ in exactly one literal |
| QuineMcCluskey.MintermTable.Reduce | mini-eda-tools/src/logic_synth.c:143-177 | the table becomes the reduced one, within its bounds, for every table whose pass fits; false exactly below two cubes |
| QuineMcCluskey.MintermTable.Minimize | mini-eda-tools/src/logic_synth.c:217-225 | up to twenty passes give the table after one, and the return says whether it has a cube |
| QuineMcCluskey.AlwaysFitsIff | mini-eda-tools/src/logic_synth.c:143-177 | every table of at most t cubes with literals 0, 1 and dash can be passed over within the 128 entries of the new table exactly when t is at most 22 |
| QuineMcCluskey.RowsMake | mini-eda-tools/src/logic_synth.c:152-168 | a pass makes no more mergers than there are pairs of merged cubes with an odd and an even number of ones |
| QuineMcCluskey.CoverKept | mini-eda-tools/src/logic_synth.c:143-177 | with literals 0, 1 and dash, a point is covered after the pass exactly when it was before |
| QuineMcCluskey.DemandKept | mini-eda-tools/src/logic_synth.c:154-172 | the cubes that are not don't-cares cover at least the old on-set and at most the old table |
| QuineMcCluskey.DemandIs | mini-eda-tools/src/logic_synth.c:154-172 | after a pass that does not fill the table, the cubes that are not don't-cares cover what such cubes covered before, and the don't-cares that merge with one of them |
| QuineMcCluskey.OnePassIsEnough | mini-eda-tools/src/logic_synth.c:220-223 | the pass is idempotent on every table it fits, so the loop is at its fixpoint after one |
| QuineMcCluskey.MergeCovers | mini-eda-tools/src/logic_synth.c:154-161 | a merged cube covers exactly what its two cubes cover |
| QuineMcCluskey.MergeIsExactIff | mini-eda-tools/src/logic_synth.c:134-161 | on any literals, a merged cube covers exactly what its two cubes cover just when they differ in a 0 and a 1, or no point is covered at all |
| QuineMcCluskey.OddLiteralGrowsCover | mini-eda-tools/src/logic_synth.c:154-161 | with any literal besides 0, 1 and dash a merger may cover a point no cube covered |
| QuineMcCluskey.AlwaysSameCoverIff | mini-eda-tools/src/logic_synth.c:143-177 | tables with literals 0, 1, dash and v all keep their cover exactly when v is one of 0, 1 and dash |
| LogicNetwork.Network.AddGate | mini-eda-tools/src/logic_synth.c:13-22 | appends a gate with its first four inputs and a wire of its own, or refuses when full |
| LogicNetwork.Network.Optimize | mini-eda-tools/src/logic_synth.c:24-44 | keeps exactly the wire valuations, and leaves no inverter behind an inverter it reads and no one-input AND or OR; each inverter behind a remaining inverter becomes a buffer of what the first such one reads, each one-input AND or OR a buffer, and no other gate changes |
| LogicNetwork.BypassKeepsMeaning | mini-eda-tools/src/logic_synth.c:27-35 | turning a second inverter into a buffer of the first one's input keeps the valuations |
| Placement.Placement.AddBlock | mini-fpga-dev/src/place_fpga.c:29-40 | seats the next block row by row, or refuses when 1024 are there |
| Placement.Placement.FixBlock | mini-fpga-dev/src/place_fpga.c:42-47 | moves the block and marks it fixed |
| Placement.Placement.BoundingBox | mini-fpga-dev/src/place_fpga.c:67-98 | the box grown pin by pin from the inverted grid box, unplaced pins skipped |
| Placement.BoxIsTight | mini-fpga-dev/src/place_fpga.c:67-98 | inside the grid it is the bounding box of the placed pins; with none it stays inverted |
| Placement.BoxSides | mini-fpga-dev/src/place_fpga.c:67-98 | on any placement, inside the grid or not, each side of the box is the extreme of where it starts and of the placed pins |
| Placement.NetIsSpread | mini-fpga-dev/src/place_fpga.c:100-109 | a net is as long as these extremes are apart in x and in y |
| Placement.WeightedAdds | mini-fpga-dev/src/place_fpga.c:325-397 | one net more adds its length times its weight to the weighted wirelength |
| Placement.Placement.TotalWirelength | mini-fpga-dev/src/place_fpga.c:100-109 | the sum of half perimeters over all nets |
| Placement.Placement.TryMove | mini-fpga-dev/src/place_fpga.c:153-179 | one draw: two movable blocks change places for good when that costs no more than before, and otherwise for good or not at all; the cost is the recomputed one, and the draw tells the new placement |
| Placement.Placement.SimulatedAnnealing | mini-fpga-dev/src/place_fpga.c:142-185 | followed for any number of temperatures, whether it cools or not, the placement is the one its draws give, `movesPerTemp` of them a temperature, and so one reached by swaps of movable blocks; the loop has ended exactly when the temperature is down or enough moves were tried, and then wirelength and cost are the recomputed wirelength |
| Placement.Placement.TimingDriven | mini-fpga-dev/src/place_fpga.c:325-397 | the same for weighted nets: the placement is the one the draws give, wirelength recomputed, cost equal to the weighted wirelength, for every schedule on which the loop ends |
| Placement.ReachedIffRearranged | mini-fpga-dev/src/place_fpga.c:152-179 | swap runs reach exactly the placements that differ in positions only, keep fixed blocks, and give each position to as many movable blocks |
| Placement.RunsStayInGrid | mini-fpga-dev/src/place_fpga.c:157-178 | no run leaves the grid |
| Placement.AlwaysLegalIff | mini-fpga-dev/src/place_fpga.c:152-179 | every run stays legal exactly when no two blocks with one sub-block number can ever be brought to one position |
| Placement.LegalStartMayTurnIllegal | mini-fpga-dev/src/place_fpga.c:444-457 | a legal placement that one swap makes illegal |
| Placement.SeatsFit | mini-fpga-dev/src/place_fpga.c:29-40 | blocks as added are at different positions, and inside the grid exactly when they are at most width times height |
| Placement.SeatsRowByRow | mini-fpga-dev/src/place_fpga.c:29-40 | seats fill one row after the other from the corner |
| Placement.BuiltBoardStaysLegal | mini-fpga-dev/src/place_fpga.c:29-40 | a board of at most width times height added blocks is legal and inside the grid after every run |
| Placement.CoolsIff | mini-fpga-dev/src/place_fpga.c:152-179 | for every start, end and rate, the temperature comes down to the end exactly when it starts there; or starts above 0 with a rate between 0 and 1 and an end above 0, or with a rate of at most 0 that takes it there in one step; or falls without bound, a negative start with a rate above 1 or any start but 0 with a rate below -1 |
| Placement.Placement.IsLegal | mini-fpga-dev/src/place_fpga.c:444-457 | true exactly when no two blocks share position and sub-block number |
| ClbPack.FindSeed | mini-fpga-dev/src/clb_pack.c:161-173 | the first unpacked LUT or flip-flop of greatest affinity, or none exactly when all are packed |
| ClbPack.FindBest | mini-fpga-dev/src/clb_pack.c:196-211 | the first fitting atom of greatest attraction above -1, or none |
| ClbPack.Attraction | mini-fpga-dev/src/clb_pack.c:74-97 | shared nets plus weighted criticality, never negative for a non-negative weight |
| ClbPack.SharedIs | mini-fpga-dev/src/clb_pack.c:77-92 | the nets shared are a common output, the inputs the seed drives, and the pairs of inputs on one net, counted as sets |
| ClbPack.AttractionIs | mini-fpga-dev/src/clb_pack.c:74-97 | the attraction is these counts plus the weight times a tenth of a positive affinity |
| ClbPack.FillClb | mini-fpga-dev/src/clb_pack.c:183-232 | one block: the seed and then, pick by pick, the first fitting atom of greatest attraction to it, carry atoms included; the counters are those of the atoms picked and within capacity, at most nine with the carry atoms; it closes with nine or when nothing fits |
| ClbPack.ClosedHoldsEight | mini-fpga-dev/src/clb_pack.c:192-232 | a block that closes with LUTs or flip-flops left over holds at least eight |
| ClbPack.CarryAlwaysFits | mini-fpga-dev/src/clb_pack.c:99-119 | carry atoms take no room: another one fits a block whatever it holds |
| ClbPack.Fabric.Pack | mini-fpga-dev/src/clb_pack.c:150-254 | block after block from the first unpacked LUT or flip-flop of greatest affinity, each filled as above and put on the next tile, row by row; within capacity, each atom at most once, totals equal to the packed atoms and, on an unused fabric, to a recount; stops only when all is packed or the grid is full; at least n/9 blocks for n LUTs and flip-flops, at most (n + c)/8 with c carry atoms, rounded up, and exactly n/8 for LUTs only or flip-flops only |
| ClbPack.Fabric.Recount | mini-fpga-dev/src/clb_pack.c:268-287 | blocks, LUTs and flip-flops in use, summed over the grid |
| ClbPack.BlockCount | mini-fpga-dev/src/clb_pack.c:157-177 | from the density of the blocks to their number |
| ClbPack.GridUpdated | mini-fpga-dev/src/clb_pack.c:273-284 | changing one tile changes a recount by that tile's difference |
| ChipletPartition.Plan.AddBlock | mini-chiplet-design/src/chiplet_partition.c:13-19 | appends the block in part 0, or refuses when 32 are there |
| ChipletPartition.Plan.Partition | mini-chiplet-design/src/chiplet_partition.c:22-34 | -1 and no change without parts; else each block, in order, goes to the first part with the least area so far, and only partition fields change |
| ChipletPartition.Plan.Recount | mini-chiplet-design/src/chiplet_partition.c:36-43 | the area of each part, recounted from the assignment |
| ChipletPartition.LoadAdds | mini-chiplet-design/src/chiplet_partition.c:36-43 | one block more adds its area to the part chosen for it, and to no other |
| ChipletPartition.LoadsAddUp | mini-chiplet-design/src/chiplet_partition.c:36-43 | however blocks are assigned, the part areas add up to the total |
| ChipletPartition.GreedyIsBalanced | mini-chiplet-design/src/chiplet_partition.c:22-34 | no two part areas differ by more than the largest block |
| ChipletPartition.GreedyWithinGraham | mini-chiplet-design/src/chiplet_partition.c:22-34 | m times the greedy maximum is at most 2m-1 times the maximum of any other assignment |
| TechMap.BoolNetwork.AddNode | mini-fpga-dev/src/techmap_fpga.c:22-36 | appends a gate of the kind with unset inputs, no references and level -1, or refuses when 1024 are there |
| TechMap.BoolNetwork.AddEdge | mini-fpga-dev/src/techmap_fpga.c:38-48 | sets the slot, raises the input count to cover it, and counts the reference at the driving node |
| TechMap.BoolNetwork.SetPrimaryInput | mini-fpga-dev/src/techmap_fpga.c:50-54 | marks the node, and counts it even when it was marked before |
| TechMap.BoolNetwork.Levelize | mini-fpga-dev/src/techmap_fpga.c:67-108 | nodes are levelled in an order in which each follows its inputs; the others keep their level and still wait for an input; all are reached exactly when a rank grows along all inputs and no slot is unset |
| TechMap.AllLeveledIff | mini-fpga-dev/src/techmap_fpga.c:73-104 | every node is reached exactly when the network is acyclic and no input slot is unset |
| TechMap.LevelIsLongestChain | mini-fpga-dev/src/techmap_fpga.c:87-93 | the level of a reached node is the length of the longest chain of inputs that ends in it |
| TechMap.BoolNetwork.FlowmapLabel | mini-fpga-dev/src/techmap_fpga.c:321-374 | every node that gets a level gets the label of the rule, whether or not all do; of the others primary inputs get 0, and without a level in range none gets a label |
| TechMap.LabelAtMostLevel | mini-fpga-dev/src/techmap_fpga.c:334-372 | labels lie between 0 and the level |
| TechMap.LabelsRise | mini-fpga-dev/src/techmap_fpga.c:356-371 | a label is at least that of each input, primary inputs aside |
| TechMap.LabelIs | mini-fpga-dev/src/techmap_fpga.c:352-372 | a label is 0 at primary inputs and gates without inputs; else the largest label of an input, or one more when at least as many inputs as the table has carry just that label |
| TechMap.LargeTablesLabelNothing | mini-fpga-dev/src/techmap_fpga.c:366-371 | for tables of more than four inputs every label is 0 |
| TechMap.AllZeroIff | mini-fpga-dev/src/techmap_fpga.c:321-374 | the labels are 0 on every network with levels exactly when tables have more than four inputs |
| DnnIsa.LatencyBound | mini-ai-accel-design/src/dnn_isa.c:41-108 | no listed opcode takes more than 64 cycles |
| DnnIsa.Program.AddInstr | mini-ai-accel-design/src/dnn_isa.c:161-176 | appends an instruction with its table latency, or refuses a full program or unlisted opcode |
| DnnIsa.Program.Emit | mini-ai-accel-design/src/dnn_isa.c:243-343 | appends an instruction with operands and target; only LOOP and JMP branch |
| DnnIsa.Program.EmitScalarOp | mini-ai-accel-design/src/dnn_isa.c:243-256 | two register operands, and a third unless the second source is negative |
| DnnIsa.AppendedValidates | mini-ai-accel-design/src/dnn_isa.c:502-537 | a program that validates still does after an instruction is appended exactly when the instruction is refused or is itself in range |
| DnnIsa.Program.EmitVectorOp | mini-ai-accel-design/src/dnn_isa.c:258-268 | three vector operands and the length; the program still validates exactly when the opcode allows four operands or nothing is appended, whatever the vector registers |
| DnnIsa.Program.EmitLoad | mini-ai-accel-design/src/dnn_isa.c:270-279 | register, address and size; the program still validates exactly when the register is in range or the program is full |
| DnnIsa.Program.EmitStore | mini-ai-accel-design/src/dnn_isa.c:281-290 | register, address and size; the program still validates exactly when the register is in range or the program is full |
| DnnIsa.Program.EmitConv2d | mini-ai-accel-design/src/dnn_isa.c:307-322 | six operands, the channel counts packed into one signed 64-bit immediate |
| DnnIsa.PackedChannelsRoundTrip | mini-ai-accel-design/src/dnn_isa.c:321 | both channel counts can be read back from the immediate, which is negative exactly for output counts of 2^31 and more |
| DnnIsa.Program.EmitLoop | mini-ai-accel-design/src/dnn_isa.c:324-333 | a taken branch to the start of the body; the program still validates exactly when the counter is a register and the body starts no later than the loop itself, or the program is full |
| DnnIsa.Program.EmitJmp | mini-ai-accel-design/src/dnn_isa.c:335-343 | a taken branch to the target, without registers |
| DnnIsa.Program.EmitHalt | mini-ai-accel-design/src/dnn_isa.c:345-347 | an instruction without operands, after which a program that validated still does |
| DnnIsa.Program.EmitMatmul | mini-ai-accel-design/src/dnn_isa.c:292-305 | six operands against a maximum of five: the program does not validate any more |
| DnnIsa.Context.ExecStep | mini-ai-accel-design/src/dnn_isa.c:373-441 | one instruction, or the stop at the end of the program; returns its table latency, 1 for an unlisted opcode, and 0 when nothing runs |
| DnnIsa.Context.ExecRun | mini-ai-accel-design/src/dnn_isa.c:443-449 | ends in the first state, step by step, that has halted or used up the budget |
| DnnIsa.RunStops | mini-ai-accel-design/src/dnn_isa.c:443-449 | every built program stops for every budget up to 2^32 - 64, from any state |
| DnnIsa.AllStopIff | mini-ai-accel-design/src/dnn_isa.c:443-449 | all built programs stop within a budget exactly when it is at most 2^32 - 64 |
| DnnIsa.NeverStops | mini-ai-accel-design/src/dnn_isa.c:433-447 | for any larger budget one program of seven instructions never stops |
| DnnIsa.EmitEndless | mini-ai-accel-design/src/dnn_isa.c:243-343 | six scalar emits and a jump make that program |
| DnnIsa.EndlessValidates | mini-ai-accel-design/src/dnn_isa.c:502-537 | that program is a built one and validates |
| DnnIsa.Overshoot | mini-ai-accel-design/src/dnn_isa.c:443-449 | a run within such a budget ends less than one instruction beyond it |
| DnnIsa.PcStaysInside | mini-ai-accel-design/src/dnn_isa.c:502-537 | the program counter of a validated program is never larger than the number of instructions |
| DnnIsa.StraightRun | mini-ai-accel-design/src/dnn_isa.c:373-449 | a program without branches and with HALT only at its end halts exactly when its static cycle count is below the budget, having taken that many cycles and every instruction once |
| DnnRuns.StepMoves | mini-ai-accel-design/src/dnn_isa.c:373-441 | one instruction of any program leads to its branch target, in either direction, or to the next position, takes its table latency, and stops the machine exactly when it is HALT |
| DnnRuns.PathSteps | mini-ai-accel-design/src/dnn_isa.c:373-449 | along any path of branch targets and next positions, backward branches included, a built program is at each position with the cycles, instructions and branches of the path so far |
| DnnRuns.ForwardRun | mini-ai-accel-design/src/dnn_isa.c:373-449 | a built program whose branches all go forward executes exactly the chain of positions its branches give, as far as the budget allows: it halts exactly when the cycles of the whole chain are below the budget, and otherwise stops with the first instruction that uses the budget up |
| DnnIsa.Program.CollectStats | mini-ai-accel-design/src/dnn_isa.c:455-478 | counts by category and the static cycle sum |
| DnnIsa.CategoriesPartition | mini-ai-accel-design/src/dnn_isa.c:461-476 | in a built program the category counts add up to the number of instructions |
| DnnIsa.Program.Validate | mini-ai-accel-design/src/dnn_isa.c:502-537 | true exactly when every opcode, operand count, register and branch target is in range; then register and matrix operands are below 64 |

## Left out

- Printing, reports, file reading and writing, names and labels, and allocation failures: no property beyond input and output.
- Floating-point rounding: delays, areas, costs, temperatures and attractions are reals. Annealing that ends only because a temperature underflows to zero is not covered.
- Physics and estimates (thermal, power, yield, eye diagrams, statistical timing, bandwidth): formulas without a discrete property. The yield term of the partition cost is one of them.
- A* optimality: the heap loses its order.
- AStar.RouteAstar: the heap buffer is modelled as growable, where the code gives it one entry per node; AStarRoom.AlwaysRoomIff and AStarEven.AlwaysEvenRoomIff say for which sizes of graph that is enough.
- Negotiated congestion and path diversity: the code ignores its congestion state, so nothing is claimed about them.
- The node list of the critical path: it follows the largest source arrival and not the path. Only the delay is modelled. False-path edges, which the interface never creates, are left out.
- DMA completion callbacks, the per-level byte counters, and 64-bit wrap of the byte and cycle totals. A transfer duration beyond 32 bits is taken as the largest 32-bit count, where the conversion is undefined in C.
- The flit's position in memory is its natural little-endian layout of 56 bytes with four bytes of padding.
- DnnIsa.Context.ExecStep: the counters of floating-point operations and bytes are not modelled, since nothing depends on them; the count of executed instructions is unbounded.
- DnnIsa.Program.CollectStats: the ratios derived from the counts are not modelled.
- Placement.Placement.TimingDriven: the power function behind the weights is a parameter, and the critical path delay it computes is never used.
- Quadratic placement, the single-move estimate and the multi-device split: the first needs rounding, the others add easy members.
- ClbPack.Fabric.Pack: the utilisation ratios.
- Fracturable packing, cut enumeration, mapping generation and Shannon decomposition: they do not keep meaning as written.
- Constant folding and factoring of logic networks: neither preserves valuations.
- Essential primes: the selection compares cubes with dashes on both sides and promises nothing about cover.
- Systolic arrays, bitstream generation, lithography and the other tools of the repository.
