# Verified models of INET common algorithms

This project models the self-contained algorithmic classes under
`src/inet/common` of the INET framework (the INETMANET 4.x branch) and proves
properties of them. `dafny verify dfyconfig.toml` checks it.

| files | models |
|---|---|
| `IntervalNodes`, `IntervalHeap`, `IntervalColours`, `IntervalQuery`, `IntervalTree` | `IntervalTree`: a red-black tree of intervals with parent links, two sentinels and the highest end of each subtree, and its query with an explicit stack |
| `Graphs`, `Dijkstra` | `Dijkstra`: labels, routes, and the search for bridges |
| `KShortest` | `DijkstraKshortest`: up to K loop-free routes to every node |
| `Topology` | `Topology`: weighted and unweighted shortest paths to a target |
| `MachoStates`, `Macho` | `Macho`: the hierarchical state machine engine |
| `PatternMatcher`, `PatternParser`, `PatternMeaning`, `PatternGrammar`, `PatternNumbers` | `PatternMatcher`: glob patterns, how they are matched, how they are parsed, what their texts mean, which texts are patterns, and what their numbers and wildcards match |
| `InitStageRegistry` | `InitStageRegistry`: numbering by dependencies |
| `Bits`, `WideWords`, `Int128` | `Int128`: 128-bit arithmetic and decimal text |
| `BitStreams`, `MemoryStreams`, `RoundTrip` | `MemoryOutputStream` and `MemoryInputStream` |
| `Options`, `Sequences`, `Powers` | what several of these share |

## How it is built

Classes whose methods change fields are classes here, with the same fields and
loops. Each has a functional account beside it: the interval tree a datatype
`Tree` with zippers for the place a loop has climbed to, the searches walks and
ways as datatypes, the state machine its trace, the streams their sequence of
bits. The methods are proved against these, and the main results are lemmas
about them. Where a loop of the source is long, its body is a method of its own.

Results that depend on a choice the source leaves open hold for every choice:
the order of the queue of `DijkstraKshortest` (its comparison is no order: `LessIsNoOrder`), the
order of the keys of a map, and everything the actions of a state machine's user
ask for, which are a sequence of answers.

Simulation time is an integer between plus and minus its maximum; `double` is
`real`, with infinity where the source uses it; machine words are integers with
the wrap-around written out.

## What the code does not keep

Where the code and its documentation differ, the model follows the code:

- `IntervalTree::query` misses hits when `low` is the least time (`FoundComplete`).
- `MemoryOutputStream::writeByte` is wrong unless the length is a multiple of
  four bits: the two shift amounts are exchanged (`PutByteExactly`).
- `writeNBitsOfUint64Be` and `readNBitsToUint64Be` build their mask from an
  `int`; they write and read the n lowest bits just if the first mask is bit
  n - 1 alone (`MaskedExactly`, `GatheredExactly`), which for n = 32 it is not
  (`FirstMaskRight`).
- `PatternMatcher`: a backslash takes away the special meaning of `[` just if no
  numeric range begins there (`EscapedBracket`; `QuotedMatchesItself` for whole
  texts), and a substring match finds a part that ends in a number just if no
  digit follows it in the line (`SubstringMatch`).
- `Int128`: the least integer is divided wrongly (`MinDividedWrongly`), a
  division by it does not end (`MinDivisorRepeats`), its text is `-0`
  (`WrittenAndRead`); two negative numbers are compared wrongly when only the
  top bits of their low words decide (`LessExactly`); `set` reads the letter A as
  a digit of decimal numbers and G as one of hexadecimal numbers (`OneDigitTooMany`).
- `Topology` lists in `outPaths` every enabled link to a node with a distance,
  not only those on shortest paths, which `getNumPaths` is said to count
  (`Concluded`, `OnShortest`; `DetourListed` is an instance). All are on shortest
  paths just if no node has two ways to the target of different costs
  (`AllOnShortest`); the first always is (`FirstLinksLead`).
- `InitStageRegistry` raises the circle error also for a stage registered twice,
  and after the error was caught once gives a partial count (`GetNumInitStages`).
- `DijkstraKshortest` gives up a tentative state only if its cost exceeds
  `maximumCost`, so with the default maximum it never does (`DefaultMaximumStands`).

## Model

| member | source | states |
|---|---|---|
| IntervalTrees.IntervalTree.constructor | omnetpp/inetmanet-4.x-master/src/inet/common/IntervalTree.cc:58-77 | a new tree is empty and valid: two sentinels, no node, the query stack at its bottom |
| IntervalTrees.IntervalTree.LeftRotateAt | omnetpp/inetmanet-4.x-master/src/inet/common/IntervalTree.cc:110-132 | rotates at a node anywhere in the tree: the links, parents and every max_high are again those of one tree, with the rotated part in place |
| IntervalTrees.IntervalTree.RightRotateAt | omnetpp/inetmanet-4.x-master/src/inet/common/IntervalTree.cc:134-155 | the mirror image |
| IntervalNodes.RotLKeeps | omnetpp/inetmanet-4.x-master/src/inet/common/IntervalTree.cc:110-132 | a left rotation keeps the in-order sequence, the nodes and the highest end of the subtree |
| IntervalNodes.RotRKeeps | omnetpp/inetmanet-4.x-master/src/inet/common/IntervalTree.cc:134-155 | so does a right rotation |
| IntervalHeap.LeftRotatedShape | omnetpp/inetmanet-4.x-master/src/inet/common/IntervalTree.cc:110-132 | the field updates of a rotation turn links that spell a tree into links that spell the rotated tree |
| IntervalHeap.LeftRotatedHigh | omnetpp/inetmanet-4.x-master/src/inet/common/IntervalTree.cc:130-131 | the two recomputed max_high values are the exact ones |
| IntervalTrees.IntervalTree.RecursiveInsert | omnetpp/inetmanet-4.x-master/src/inet/common/IntervalTree.cc:158-178 | hangs the node below the place its key belongs to: after all equal keys, before all greater ones |
| IntervalTrees.IntervalTree.FixupMaxHigh | omnetpp/inetmanet-4.x-master/src/inet/common/IntervalTree.cc:180-186 | makes max_high exact from a node up to the root, when it was exact everywhere else |
| IntervalColours.RedUncle | omnetpp/inetmanet-4.x-master/src/inet/common/IntervalTree.cc:203-208 | with a red uncle the repainting moves the only possible red-red pair two levels up and keeps black heights |
| IntervalColours.InnerGrandchild | omnetpp/inetmanet-4.x-master/src/inet/common/IntervalTree.cc:210-213 | an inner grandchild is rotated outwards, with the same red-red pair |
| IntervalColours.OuterGrandchild | omnetpp/inetmanet-4.x-master/src/inet/common/IntervalTree.cc:214-216 | repainting and rotating an outer grandchild leaves no red-red pair and the same black height |
| IntervalTrees.IntervalTree.InsertFixup | omnetpp/inetmanet-4.x-master/src/inet/common/IntervalTree.cc:199-238 | terminates, restores the red-black rules and keeps order, links and max_high |
| IntervalTrees.IntervalTree.Insert | omnetpp/inetmanet-4.x-master/src/inet/common/IntervalTree.cc:188-240 | keeps the whole invariant, and the in-order sequence gains just the new node, behind the nodes whose keys are not greater |
| IntervalTrees.IntervalTree.DeleteUndoesInsert | omnetpp/inetmanet-4.x-master/src/inet/common/IntervalTree.cc:188-240 | inserting a node and deleting it gives back the sequence of nodes |
| IntervalTrees.IntervalTree.GetMinimum | omnetpp/inetmanet-4.x-master/src/inet/common/IntervalTree.cc:242-247 | finds the leftmost node of a subtree |
| IntervalTrees.IntervalTree.GetSuccessor | omnetpp/inetmanet-4.x-master/src/inet/common/IntervalTree.cc:256-270 | finds the next node in order, or the root sentinel after the last |
| IntervalTrees.IntervalTree.SpliceOut | omnetpp/inetmanet-4.x-master/src/inet/common/IntervalTree.cc:418-428 | unlinks a node with at most one child, and leaves the child in its place |
| IntervalTrees.IntervalTree.TakePlace | omnetpp/inetmanet-4.x-master/src/inet/common/IntervalTree.cc:434-441 | puts the spliced successor into the place of the deleted node, children and parent included |
| IntervalHeap.ReplacedShape | omnetpp/inetmanet-4.x-master/src/inet/common/IntervalTree.cc:434-441 | the field updates of the replacement spell the tree with the successor in the place of the deleted node |
| IntervalColours.SuccessorOrder | omnetpp/inetmanet-4.x-master/src/inet/common/IntervalTree.cc:416-441 | replacing a node by its in-order successor removes just that node from the sequence |
| IntervalColours.SuccessorColours | omnetpp/inetmanet-4.x-master/src/inet/common/IntervalTree.cc:444-449 | with the inherited colour, the tree is red-black again but for at most one missing black at the splice |
| IntervalColours.RedSiblingShort | omnetpp/inetmanet-4.x-master/src/inet/common/IntervalTree.cc:332-337 | a red sibling is turned into a black one, with black still missing at the same place |
| IntervalColours.PaleSiblingShort | omnetpp/inetmanet-4.x-master/src/inet/common/IntervalTree.cc:338-341 | a sibling without red children is painted red, and black is missing one level up |
| IntervalColours.NearRedShort | omnetpp/inetmanet-4.x-master/src/inet/common/IntervalTree.cc:343-348 | a near red nephew is turned into a far red one |
| IntervalColours.FarRedDone | omnetpp/inetmanet-4.x-master/src/inet/common/IntervalTree.cc:349-352 | a far red nephew ends it: no black is missing and the red-black rules hold |
| IntervalTrees.IntervalTree.DeleteFixup | omnetpp/inetmanet-4.x-master/src/inet/common/IntervalTree.cc:324-384 | terminates although the root it compares with is the one captured at the start, and restores the red-black rules |
| IntervalTrees.IntervalTree.RemoveBySuccessor | omnetpp/inetmanet-4.x-master/src/inet/common/IntervalTree.cc:432-451 | deletes a node with two children: order, colours, links and max_high are those of a valid tree without it |
| IntervalTrees.IntervalTree.DeleteNode | omnetpp/inetmanet-4.x-master/src/inet/common/IntervalTree.cc:410-460 | keeps the whole invariant and removes just the given node from the in-order sequence |
| IntervalTrees.IntervalTree.RecursiveSearch | omnetpp/inetmanet-4.x-master/src/inet/common/IntervalTree.cc:393-408 | returns a node below the start that holds the interval, or nil if there is none |
| IntervalTrees.IntervalTree.DeleteInterval | omnetpp/inetmanet-4.x-master/src/inet/common/IntervalTree.cc:386-391 | removes one node holding the interval if there is one, and nothing otherwise |
| IntervalColours.HeightBounds | omnetpp/inetmanet-4.x-master/src/inet/common/IntervalTree.cc:188-240 | a tree with black height h has at least 2^h - 1 nodes and at most twice the height |
| IntervalTrees.IntervalTree.HeightIsLogarithmic | omnetpp/inetmanet-4.x-master/src/inet/common/IntervalTree.cc:188-460 | after any inserts and deletes the height is at most twice the logarithm of the number of nodes |
| IntervalQuery.OverlapIsIntersection | omnetpp/inetmanet-4.x-master/src/inet/common/IntervalTree.cc:463-471 | two proper intervals overlap just if they share a point |
| IntervalQuery.HeldByHolders | omnetpp/inetmanet-4.x-master/src/inet/common/IntervalTree.cc:473-514 | each interval is among the hits as often as nodes that have a point in common with [low, high] hold it |
| IntervalQuery.FoundSound | omnetpp/inetmanet-4.x-master/src/inet/common/IntervalTree.cc:473-514 | what the pruned search finds are stored nodes that overlap, each at most as often as it is stored |
| IntervalQuery.FoundComplete | omnetpp/inetmanet-4.x-master/src/inet/common/IntervalTree.cc:473-514 | it finds them all just if low is above the sentinel value, or no node without a left child has a hit on its right |
| IntervalQuery.SentinelQueryMisses | omnetpp/inetmanet-4.x-master/src/inet/common/IntervalTree.cc:486-501 | a two-node valid tree in which the search misses a hit when low is the sentinel value |
| IntervalQuery.LeftStep | omnetpp/inetmanet-4.x-master/src/inet/common/IntervalTree.cc:481-499 | going left keeps: found so far, in this subtree and pending on the stack are together the whole search |
| IntervalQuery.RightStep | omnetpp/inetmanet-4.x-master/src/inet/common/IntervalTree.cc:500-501 | so does going right |
| IntervalQuery.PopStep | omnetpp/inetmanet-4.x-master/src/inet/common/IntervalTree.cc:504-511 | so does popping a frame, whose right branch is taken just if its left one had a hit |
| IntervalTrees.IntervalTree.Query | omnetpp/inetmanet-4.x-master/src/inet/common/IntervalTree.cc:473-514 | the explicit-stack loop gives the pruned search in its order and restores the stack; with proper intervals, low at most high, and low above the sentinel value (or under the condition of FoundComplete), an interval is in the result as often as there are nodes that hold it and have a point in common with [low, high] |
| ShortestPaths.Settled | omnetpp/inetmanet-4.x-master/src/inet/common/DijktraKShortest.cc:1048-1174 | no walk beats a final label, and no walk that leaves the expanded nodes is cheaper than the cheapest open label |
| ShortestPaths.PoppedIsOptimal | omnetpp/inetmanet-4.x-master/src/inet/common/DijktraKShortest.cc:1048-1090 | the cheapest queue element, even one pushed again without its bottleneck, makes an optimal label final |
| ShortestPaths.Improve | omnetpp/inetmanet-4.x-master/src/inet/common/DijktraKShortest.cc:1113-1171 | labelling a node through an edge keeps the invariant of the search |
| ShortestPaths.Pass | omnetpp/inetmanet-4.x-master/src/inet/common/DijktraKShortest.cc:1133-1135 | so does leaving it alone |
| ShortestPaths.Dijkstra.FindMin | omnetpp/inetmanet-4.x-master/src/inet/common/DijktraKShortest.cc:1049-1076 | the first element that none beats, by the order of the method |
| ShortestPaths.NextIsNearest | omnetpp/inetmanet-4.x-master/src/inet/common/DijktraKShortest.cc:1048-1093 | for suited costs no walk to a node not yet expanded costs less than the label of the node taken from the queue |
| ShortestPaths.Dijkstra.RunUntil | omnetpp/inetmanet-4.x-master/src/inet/common/DijktraKShortest.cc:1029-1175 | terminates for all costs and all methods, every label belonging to a walk; run to the end it labels just the reachable nodes, and then each of them has a link entry; for costs that suit the method no walk costs less than a permanent label or, for widestshortest, costs as much and is wider; NodeNotFound means just that the root has no link entry; LinkNotFound means that a reachable node other than the target has none, and for suited costs one no farther than the target, and on success none is nearer; it is Done if all reachable nodes but the target have one |
| ShortestPaths.Dijkstra.Run | omnetpp/inetmanet-4.x-master/src/inet/common/DijktraKShortest.cc:1007-1020 | unless the undefined address is reachable: the routes are those of just the reachable nodes, optimal for suited costs, and the error comes just if one of these nodes has no link entry |
| ShortestPaths.Dijkstra.GetRoute | omnetpp/inetmanet-4.x-master/src/inet/common/DijktraKShortest.cc:1202-1231 | the stored predecessors give the walk that the label belongs to, from the root to the node, or the node has no label |
| ShortestPaths.Dijkstra.RemoveEdge | omnetpp/inetmanet-4.x-master/src/inet/common/DijktraKShortest.cc:951-965 | takes the first edge to the node out of the list, or changes nothing |
| ShortestPaths.Dijkstra.AddEdge | omnetpp/inetmanet-4.x-master/src/inet/common/DijktraKShortest.cc:928-942 | gives a listed link the cost of the edge, or lists the edge last |
| Graphs.BridgeByOneCut | omnetpp/inetmanet-4.x-master/src/inet/common/DijktraKShortest.cc:1350-1359 | an edge is a bridge just if its end is out of reach once one direction is cut |
| Graphs.BridgeBothWays | omnetpp/inetmanet-4.x-master/src/inet/common/DijktraKShortest.cc:1356-1357 | in a symmetric graph an edge is a bridge in both directions or in none |
| ShortestPaths.PutBack | omnetpp/inetmanet-4.x-master/src/inet/common/DijktraKShortest.cc:1350-1359 | removing an edge and adding it again leaves the same edges |
| ShortestPaths.Dijkstra.TestLink | omnetpp/inetmanet-4.x-master/src/inet/common/DijktraKShortest.cc:1350-1359 | one remove, run, re-add round finds whether the edge is a bridge and leaves the same edges |
| ShortestPaths.Dijkstra.DiscoverAllPartitionedLinks | omnetpp/inetmanet-4.x-master/src/inet/common/DijktraKShortest.cc:1337-1364 | adds both directions of every bridge, each once, and nothing else |
| KShortest.IsLess | omnetpp/inetmanet-4.x-master/src/inet/common/DijktraKShortest.cc:51-70 | the comparison of cost vectors: better in some component |
| KShortest.LessIsNoOrder | omnetpp/inetmanet-4.x-master/src/inet/common/DijktraKShortest.cc:51-70 | between vectors of the same metrics, the comparison never holds both ways just if they have at most one component |
| KShortest.AddCost | omnetpp/inetmanet-4.x-master/src/inet/common/DijktraKShortest.cc:97-119 | component-wise: sums of additive costs, the lesser of two for concaveMin and the greater for concaveMax, which is one of the two |
| KShortest.PathGenuine | omnetpp/inetmanet-4.x-master/src/inet/common/DijktraKShortest.cc:421-445 | the nodes of a chain of states are distinct, without the root, each linked from the one before |
| KShortest.WithinLimits | omnetpp/inetmanet-4.x-master/src/inet/common/DijktraKShortest.cc:494-499 | no component of the cost of a path is beyond its limit |
| KShortest.Stepped | omnetpp/inetmanet-4.x-master/src/inet/common/DijktraKShortest.cc:503-546 | giving a node a new state, or one of its tentative states a new value, keeps the invariant of the search |
| KShortest.Labelled | omnetpp/inetmanet-4.x-master/src/inet/common/DijktraKShortest.cc:447-474 | so does recording a route and making its state permanent |
| KShortest.RoomForRoute | omnetpp/inetmanet-4.x-master/src/inet/common/DijktraKShortest.cc:466-467 | while a state of a node is tentative, there is room for one more route |
| KShortest.AllExtended | omnetpp/inetmanet-4.x-master/src/inet/common/DijktraKShortest.cc:481-547 | without limits, a recorded route is recorded with every further link that closes no loop, unless all K states of the node it leads to are taken |
| KShortest.EveryRouteFound | omnetpp/inetmanet-4.x-master/src/inet/common/DijktraKShortest.cc:481-547 | so every loop-free route is recorded if no node on it has all its K states taken |
| KShortest.AllFound | omnetpp/inetmanet-4.x-master/src/inet/common/DijktraKShortest.cc:383-549 | when the queue is empty, the recorded routes are genuine, and without limits every reachable node has one |
| KShortest.DijkstraKshortest.RecordRoute | omnetpp/inetmanet-4.x-master/src/inet/common/DijktraKShortest.cc:447-469 | adds a route that is not there yet |
| KShortest.WorstIs | omnetpp/inetmanet-4.x-master/src/inet/common/DijktraKShortest.cc:518-527 | the state to give up is tentative; there is none just if no tentative state exceeds the maximum cost |
| KShortest.DefaultMaximumStands | omnetpp/inetmanet-4.x-master/src/inet/common/DijktraKShortest.cc:138-151 | with the default maximum cost and bandwidths that are not negative no state is ever given up |
| KShortest.DijkstraKshortest.FindWorst | omnetpp/inetmanet-4.x-master/src/inet/common/DijktraKShortest.cc:518-527 | finds that state |
| KShortest.DijkstraKshortest.GiveUpWorst | omnetpp/inetmanet-4.x-master/src/inet/common/DijktraKShortest.cc:516-547 | gives the state up for the new cost if that beats it, and changes nothing else; the invariant of the search is kept |
| KShortest.DijkstraKshortest.DropWorse | omnetpp/inetmanet-4.x-master/src/inet/common/DijktraKShortest.cc:537-544 | takes out one queue element of the same state that the new one beats |
| KShortest.DijkstraKshortest.GetRoute | omnetpp/inetmanet-4.x-master/src/inet/common/DijktraKShortest.cc:686-712 | the chain of the k-th state of a node as a list of nodes, a genuine route from the root |
| KShortest.DijkstraKshortest.Run | omnetpp/inetmanet-4.x-master/src/inet/common/DijktraKShortest.cc:361-550 | terminates in any queue order; every node has between one and K routes, all different, loop-free, along links and within the limits; without limits just the reachable nodes have routes, the routes are extended as AllExtended says, and the error comes just if a reachable node has no link entry |
| Topologies.Improve | omnetpp/inetmanet-4.x-master/src/inet/common/Topology.cc:458-473 | a shorter way through a link keeps the invariant: ordered list, distances with ways of just that cost |
| Topologies.Pass | omnetpp/inetmanet-4.x-master/src/inet/common/Topology.cc:474-475 | so does a link that is only listed |
| Topologies.WaysCostNoLess | omnetpp/inetmanet-4.x-master/src/inet/common/Topology.cc:435-477 | no way along enabled links and nodes costs less than the distance |
| Topologies.WayIs | omnetpp/inetmanet-4.x-master/src/inet/common/Topology.cc:440-450 | a way is a chain of enabled links that leave enabled nodes, each ending where the next begins, the last one at the target |
| Topologies.CostIs | omnetpp/inetmanet-4.x-master/src/inet/common/Topology.cc:450-458 | a way costs what its links and the nodes it passes on the way to the target cost together |
| Topologies.FirstLinkLeads | omnetpp/inetmanet-4.x-master/src/inet/common/Topology.cc:462-464 | the first of outPaths leads strictly nearer to the target, by just its own cost, and the way kept for a node goes on as the one kept for the end of that link |
| Topologies.FirstLinksLead | omnetpp/inetmanet-4.x-master/src/inet/common/Topology.h:195-211 | taking the first of outPaths again and again, the target is reached at the cost of just the distance |
| Topologies.OnlyFirst | omnetpp/inetmanet-4.x-master/src/inet/common/Topology.cc:462-464 | there is only one way that takes the first link everywhere |
| Topologies.Concluded | omnetpp/inetmanet-4.x-master/src/inet/common/Topology.cc:435-477 | what a finished search leaves: optimal distances, ways of that cost by the first links of outPaths up to the target, and in outPaths just the enabled links to nodes with a distance |
| Topologies.OnShortest | omnetpp/inetmanet-4.x-master/src/inet/common/Topology.h:200-212 | a link of outPaths leads nearer to the target just if a way of least cost begins with it |
| Topologies.AllOnShortest | omnetpp/inetmanet-4.x-master/src/inet/common/Topology.h:200-212 | all links of outPaths are on shortest paths, as they are said to be, just if no node has two ways to the target of different costs |
| Topologies.DetourListed | omnetpp/inetmanet-4.x-master/src/inet/common/Topology.h:200-212 | for instance, a node with a link of cost 5 to the target and a way of cost 2 beside it has both in outPaths |
| Topologies.Topology.Enter | omnetpp/inetmanet-4.x-master/src/inet/common/Topology.cc:466-472 | inserts before the first node that is farther away |
| Topologies.Topology.TakeLink | omnetpp/inetmanet-4.x-master/src/inet/common/Topology.cc:458-473 | relabels the node and moves it to its place in the list |
| Topologies.Topology.CalculateWeightedSingleShortestPathsTo | omnetpp/inetmanet-4.x-master/src/inet/common/Topology.cc:417-478 | dist is the least cost of a way over enabled links and nodes, link weights plus the weights of the nodes passed, or infinity; the way kept for a node, of that cost, is the one by the first links of outPaths (FirstLinksLead) |
| Topologies.UnitCost | omnetpp/inetmanet-4.x-master/src/inet/common/Topology.cc:406-407 | with unit weights the cost of a way is its number of links |
| Topologies.FirstMet | omnetpp/inetmanet-4.x-master/src/inet/common/Topology.cc:406-412 | a node met for the first time is one hop farther than the node at the head of the queue, and at most one hop spans the queue |
| Topologies.Topology.CalculateUnweightedSingleShortestPathsTo | omnetpp/inetmanet-4.x-master/src/inet/common/Topology.cc:375-415 | dist is the least number of hops, with the same statement about outPaths |
| MachoStates.MovesLead | omnetpp/inetmanet-4.x-master/src/inet/common/Macho.cc:354-371 | the exits and entries of a transition are possible one after the other and end with the target innermost |
| MachoStates.ExitsAre | omnetpp/inetmanet-4.x-master/src/inet/common/Macho.cc:156-173 | exited are the states the machine is in that are not properly above the target |
| MachoStates.ExitsBottomUp | omnetpp/inetmanet-4.x-master/src/inet/common/Macho.cc:156-173 | innermost first, each next to the one before |
| MachoStates.EntriesAre | omnetpp/inetmanet-4.x-master/src/inet/common/Macho.cc:139-154 | entered are the target and the states above it the machine was not in |
| MachoStates.EntriesTopDown | omnetpp/inetmanet-4.x-master/src/inet/common/Macho.cc:139-154 | outermost first |
| MachoStates.ActiveAre | omnetpp/inetmanet-4.x-master/src/inet/common/Macho.cc:139-173 | counting entries and exits of any possible run, the active states are the current one and all above it |
| MachoStates.RememberedBelow | omnetpp/inetmanet-4.x-master/src/inet/common/Macho.h:276-297 | a recorded history is a proper substate of its owner, and a direct one if the history is shallow |
| MachoStates.MovesRemembered | omnetpp/inetmanet-4.x-master/src/inet/common/Macho.h:276-297 | a transition records the state left in all superstates with deep history, its substate on the way in those with shallow history, and changes no other record |
| MachoStates.HistoryReturns | omnetpp/inetmanet-4.x-master/src/inet/common/Macho.h:727-739 | leaving for a state outside and coming back finds the state left, or the substate it was in |
| MachoStates.MemoryLasts | omnetpp/inetmanet-4.x-master/src/inet/common/Macho.cc:339-400 | a memory begins empty, lasts while the state is not initialized and no state below it is left, and is gone after an initialization, unless that has parameters |
| Macho.Machine.Entry | omnetpp/inetmanet-4.x-master/src/inet/common/Macho.cc:139-154 | performs the entries, top-down, and creates the missing boxes |
| Macho.Machine.Leave | omnetpp/inetmanet-4.x-master/src/inet/common/Macho.cc:156-173 | performs the exits, bottom-up, and deletes the boxes that do not survive |
| Macho.Machine.SaveHistory | omnetpp/inetmanet-4.x-master/src/inet/common/Macho.h:276-297 | records the state left in this and every higher superstate with history, and nowhere else, although it stops where no history is left above |
| Macho.Machine.SetHistorySuper | omnetpp/inetmanet-4.x-master/src/inet/common/Macho.h:734-739 | the same, from the superstate on |
| Macho.Machine.Transit | omnetpp/inetmanet-4.x-master/src/inet/common/Macho.cc:354-371 | one transition: the actions are those of the transition, and active states, boxes and history fit the run so far |
| Macho.Machine.Initialize | omnetpp/inetmanet-4.x-master/src/inet/common/Macho.cc:175-187 | recalls the history, which is always a proper substate, or runs the init action; the history is forgotten, unless the init has parameters |
| Macho.Machine.Perform | omnetpp/inetmanet-4.x-master/src/inet/common/Macho.cc:345-392 | a pending transition with its initialization is one step of the engine |
| Macho.Machine.HandleEvent | omnetpp/inetmanet-4.x-master/src/inet/common/Macho.cc:395-400 | handling an event is one step of the engine: it is logged, and what the answer asks for is pending |
| Macho.Machine.RattleOn | omnetpp/inetmanet-4.x-master/src/inet/common/Macho.cc:339-402 | the loops terminate; what happens is a sequence of engine steps, inits going to proper substates only; it fails just when an init of the user asks for another state |
| Macho.RunReached | omnetpp/inetmanet-4.x-master/src/inet/common/Macho.cc:339-400 | whatever the answers, each action of a run is followed by what it asks for: a transition asked for with the initialization of its target, before an event raised, and an end if there is neither |
| Macho.RunTold | omnetpp/inetmanet-4.x-master/src/inet/common/Macho.cc:339-400 | a run that ends, for want of more to do or at an init that may not ask for what it asks, has done just what was asked for |
| Macho.HandlerObeyed | omnetpp/inetmanet-4.x-master/src/inet/common/Macho.h:1906-1915 | wherever in a run an event is handled, the answer is obeyed: the state asked for is entered and initialized, else the event raised is handled next, else the run ends there |
| Macho.InitObeyed | omnetpp/inetmanet-4.x-master/src/inet/common/Macho.cc:379-389 | wherever in a run a state has its init, the proper substate asked for is entered and initialized next; anything else asked for ends the run as a failure; otherwise a pending event is handled, or the run ends |
| Macho.RecallObeyed | omnetpp/inetmanet-4.x-master/src/inet/common/Macho.cc:379-389 | wherever in a run a state is initialized from its history, the transition to the state recalled and its init come next |
| Macho.Machine.Start | omnetpp/inetmanet-4.x-master/src/inet/common/Macho.cc:248-256 | from the root to the start state, whose plain init comes next; the whole run is told by the answers (Told) |
| Macho.Machine.Dispatch | omnetpp/inetmanet-4.x-master/src/inet/common/Macho.h:1906-1915 | a handler and all that it asks for: the log goes on with the handling of the event; if the handler asks for a state, with the transition to it and its initialization; if for nothing, with nothing, in the same state; if for an event alone, with the handling of that; if the init of the state asked for asks for nothing either, the machine ends there; and the whole run is told by the answers (Told) |
| Macho.Machine.Shutdown | omnetpp/inetmanet-4.x-master/src/inet/common/Macho.cc:268-278 | exits every active state, bottom-up, and leaves no box of a state that has its own |
| Macho.MovedBoxes | omnetpp/inetmanet-4.x-master/src/inet/common/Macho.cc:139-173 | boxes of their own exist just for active states, shared and persistent ones for every state that was entered |
| Macho.Narrower | omnetpp/inetmanet-4.x-master/src/inet/common/Macho.cc:384-386 | inits to proper substates only can follow each other finitely often |
| PatternMatching.SplitsFirst | omnetpp/inetmanet-4.x-master/src/inet/common/PatternMatcher.cc:257-352 | a line splits among elements just if a first piece fits and the rest splits among the others |
| PatternMatching.NumberPiece | omnetpp/inetmanet-4.x-master/src/inet/common/PatternMatcher.cc:303-311 | a numeric range takes the whole run of digits |
| PatternMatching.SequencePiece | omnetpp/inetmanet-4.x-master/src/inet/common/PatternMatcher.cc:313-340 | a sequence takes nothing or one more character |
| PatternMatching.LastSequence | omnetpp/inetmanet-4.x-master/src/inet/common/PatternMatcher.cc:317-318 | a last "**" matches whatever is left |
| PatternMatching.SequenceAndLiteral | omnetpp/inetmanet-4.x-master/src/inet/common/PatternMatcher.cc:319-320 | "**" before a last literal matches what ends in the literal |
| PatternMatching.EndsInLiteral | omnetpp/inetmanet-4.x-master/src/inet/common/PatternMatcher.cc:364-373 | a line matched by a pattern ending in a literal ends in it |
| PatternMatching.PatternMatcher.IsInSet | omnetpp/inetmanet-4.x-master/src/inet/common/PatternMatcher.cc:244-255 | the character is in one of the ranges |
| PatternMatching.PatternMatcher.DoMatch | omnetpp/inetmanet-4.x-master/src/inet/common/PatternMatcher.cc:257-352 | true just if the line splits into pieces that fit the remaining elements, one each |
| PatternMatching.PatternMatcher.TryAll | omnetpp/inetmanet-4.x-master/src/inet/common/PatternMatcher.cc:322-340 | the loops of the two kinds of sequences find a split if there is one |
| PatternMatching.PatternMatcher.Matches | omnetpp/inetmanet-4.x-master/src/inet/common/PatternMatcher.cc:354-378 | the same for the whole pattern; the check of the last two characters rejects no match |
| PatternParsing.ParseNumRange | omnetpp/inetmanet-4.x-master/src/inet/common/PatternMatcher.cc:163-190 | reads just what NumRangeAt gives, which RangeIs characterises |
| PatternMeaning.RangeIs | omnetpp/inetmanet-4.x-master/src/inet/common/PatternMatcher.cc:163-190 | a numeric range is read just where digits or none, two dots, digits or none and the closing character are written, with the numbers these digits write as bounds |
| PatternNumbers.ValueByPlaces | omnetpp/inetmanet-4.x-master/src/inet/common/PatternMatcher.cc:173-188 | digits write the sum of each digit times the power of ten of its place; leading zeros change nothing (LeadingZero) |
| PatternNumbers.DecimalValue | omnetpp/inetmanet-4.x-master/src/inet/common/PatternMatcher.cc:173-188 | the decimal text of every number writes that number |
| PatternNumbers.BracesMatch | omnetpp/inetmanet-4.x-master/src/inet/common/PatternMatcher.h:43-43 | a range in braces, with or without its ends, matches just the texts of digits that write a number in it |
| PatternNumbers.BracketsMatch | omnetpp/inetmanet-4.x-master/src/inet/common/PatternMatcher.h:44-44 | a range in brackets matches just the same texts in brackets, among all texts in brackets |
| PatternNumbers.DecimalBetween | omnetpp/inetmanet-4.x-master/src/inet/common/PatternMatcher.h:43-43 | a range matches the decimal text of a number just if the number is in it |
| PatternNumbers.WildcardsMatch | omnetpp/inetmanet-4.x-master/src/inet/common/PatternMatcher.h:38-40 | a question mark matches one character and an asterisk any, but no dots in paths, and two asterisks match everything |
| PatternParsing.ParseLiteralString | omnetpp/inetmanet-4.x-master/src/inet/common/PatternMatcher.cc:147-161 | the literal up to the next special character or numeric range |
| PatternParsing.ParseSet | omnetpp/inetmanet-4.x-master/src/inet/common/PatternMatcher.cc:111-145 | reads just what SetTokenAt gives, which SetTokenIs characterises |
| PatternMeaning.SetTokenIs | omnetpp/inetmanet-4.x-master/src/inet/common/PatternMatcher.cc:111-145 | a set is read just where single characters and ranges are written up to a closing brace, a closing brace among them only first and a hyphen after a single character only last |
| PatternMeaning.BracesAre | omnetpp/inetmanet-4.x-master/src/inet/common/PatternMatcher.cc:70-77 | braces are a numeric range if they write one, and otherwise a set just if they write one |
| PatternMeaning.SetStandsFor | omnetpp/inetmanet-4.x-master/src/inet/common/PatternMatcher.h:41-42 | a set stands for just the characters written in it, alone or in a range, and with "^" for just the others |
| PatternParsing.SetPattern | omnetpp/inetmanet-4.x-master/src/inet/common/PatternMatcher.cc:48-109 | the elements of the text and an end mark, with "**" added at both ends for a substring match; fails just if a brace is not closed |
| PatternGrammar.LiteralBefore | omnetpp/inetmanet-4.x-master/src/inet/common/PatternMatcher.cc:147-161 | a literal written with any backslashes is read in a pattern as it is alone, up to a "?", "*" or "{", the end, or the range that begins with its last bracket |
| PatternGrammar.WrittenIsRead | omnetpp/inetmanet-4.x-master/src/inet/common/PatternMatcher.cc:48-95 | literals, ranges, sets and wildcards written one after the other are read as just these elements, if no two literals are neighbours, no asterisk stands before another and a range without braces is between brackets |
| PatternGrammar.PatternIs | omnetpp/inetmanet-4.x-master/src/inet/common/PatternMatcher.cc:48-95 | a text is a pattern with certain elements just if it is written so from parts that stand for them; so it is none just if it cannot be |
| PatternGrammar.Spellings | omnetpp/inetmanet-4.x-master/src/inet/common/PatternMatcher.h:45-45 | every literal can be written, with a backslash before each character, or only before the special ones if no numeric range begins in it |
| PatternMeaning.QuotedMatchesItself | omnetpp/inetmanet-4.x-master/src/inet/common/PatternMatcher.h:45-45 | any text, with a backslash before each special character, is a pattern that matches just this text if no numeric range begins in it, and does not match it if one does |
| PatternMeaning.TextMatchesItself | omnetpp/inetmanet-4.x-master/src/inet/common/PatternMatcher.h:45-45 | plain text, and any text with a backslash before each character, matches itself and nothing else |
| PatternMeaning.EscapedBracket | omnetpp/inetmanet-4.x-master/src/inet/common/PatternMatcher.cc:153-158 | a backslash takes away the special meaning of a bracket just if no numeric range begins there |
| PatternMeaning.EscapedBracketIsRange | omnetpp/inetmanet-4.x-master/src/inet/common/PatternMatcher.cc:153-158 | for instance, the escaped text of a range does not match that text |
| PatternMeaning.BetweenSequences | omnetpp/inetmanet-4.x-master/src/inet/common/PatternMatcher.cc:97-104 | the elements of a substring match match what the pattern between two "**" matches, also when it has them already |
| PatternMeaning.SubstringMatch | omnetpp/inetmanet-4.x-master/src/inet/common/PatternMatcher.h:56-58 | for every pattern, a substring match matches a line just if the pattern matches a part of it, and, if the last element that stands for something is a number, no digit follows that part |
| PatternMeaning.NumberCutShort | omnetpp/inetmanet-4.x-master/src/inet/common/PatternMatcher.h:56-58 | for instance, the number 3 in 39 is no match for a range from 3 to 5 |
| InitStages.FindCycle | omnetpp/inetmanet-4.x-master/src/inet/common/InitStageRegistry.cc:78-79 | if every stage of a set depends on one in it, the dependencies have a cycle |
| InitStages.IncreasingAcyclic | omnetpp/inetmanet-4.x-master/src/inet/common/InitStageRegistry.cc:70-73 | numbers that grow along all dependencies leave no cycle |
| InitStages.InitStageRegistry.GetInitStage | omnetpp/inetmanet-4.x-master/src/inet/common/InitStageRegistry.cc:26-32 | the first stage of that name, or none |
| InitStages.InitStageRegistry.AddInitStage | omnetpp/inetmanet-4.x-master/src/inet/common/InitStageRegistry.cc:34-38 | registers a stage and drops the numbering |
| InitStages.InitStageRegistry.AddInitStageDependency | omnetpp/inetmanet-4.x-master/src/inet/common/InitStageRegistry.cc:40-44 | adds a dependency and drops the numbering |
| InitStages.InitStageRegistry.Connect | omnetpp/inetmanet-4.x-master/src/inet/common/InitStageRegistry.cc:54-64 | each stage knows the stages it comes after and before, by the dependencies; fails just if a name is unknown |
| InitStages.InitStageRegistry.Pass | omnetpp/inetmanet-4.x-master/src/inet/common/InitStageRegistry.cc:67-77 | a pass numbers stages in a way that fits the dependencies, or every stage left waits for another |
| InitStages.InitStageRegistry.Stuck | omnetpp/inetmanet-4.x-master/src/inet/common/InitStageRegistry.cc:78-79 | then there is a cycle, or a stage is registered twice |
| InitStages.InitStageRegistry.Sort | omnetpp/inetmanet-4.x-master/src/inet/common/InitStageRegistry.cc:81-83 | the same stages in the order of their numbers |
| InitStages.InitStageRegistry.AssignInitStageNumbers | omnetpp/inetmanet-4.x-master/src/inet/common/InitStageRegistry.cc:52-88 | terminates; stages are numbered by their positions 0..n-1, for each dependency the first stage of the one name above the first of the other; or the circle error is raised, just if the dependencies have a cycle or a stage is registered twice |
| InitStages.InitStageRegistry.GetNumInitStages | omnetpp/inetmanet-4.x-master/src/inet/common/InitStageRegistry.h:49-52 | while there is no count: fails with StageNotFound just if a dependency names a stage that is not registered, with the circle error just if all are named and the dependencies have a cycle or a stage is registered twice, and otherwise returns the number of stages, the same as before, each numbered by its position and above those it comes after; while there is a count, which after a circle is a partial one, returns that and changes nothing |
| Wide.AddWords | omnetpp/inetmanet-4.x-master/src/inet/common/Int128.cc:204-214 | with the carry, the two words hold the sum modulo 2^128 |
| Wide.NegWords | omnetpp/inetmanet-4.x-master/src/inet/common/Int128.cc:162-168 | the two words hold the negative modulo 2^128 |
| Wide.LessExactly | omnetpp/inetmanet-4.x-master/src/inet/common/Int128.cc:382-392 | the comparison is right but just for two negative numbers with equal high words whose low words differ in the top bit |
| Wide.LeftWords | omnetpp/inetmanet-4.x-master/src/inet/common/Int128.cc:365-377 | shifting left by 1 to 63 bits multiplies by 2^n modulo 2^128 |
| Wide.LeftFar | omnetpp/inetmanet-4.x-master/src/inet/common/Int128.cc:359-363 | so does shifting by 64 to 127 bits |
| Wide.RightWords | omnetpp/inetmanet-4.x-master/src/inet/common/Int128.cc:335-347 | shifting right by 1 to 63 bits divides by 2^n, rounding down |
| Wide.RightFar | omnetpp/inetmanet-4.x-master/src/inet/common/Int128.cc:329-333 | so does shifting by 64 to 127 bits |
| Int128s.Int128.Negated | omnetpp/inetmanet-4.x-master/src/inet/common/Int128.cc:162-168 | the negative modulo 2^128 |
| Int128s.Int128.Add | omnetpp/inetmanet-4.x-master/src/inet/common/Int128.cc:204-214 | the sum modulo 2^128, even of a number with itself |
| Int128s.Int128.Sub | omnetpp/inetmanet-4.x-master/src/inet/common/Int128.h:128-131 | the difference modulo 2^128 |
| Int128s.Int128.ShiftLeft | omnetpp/inetmanet-4.x-master/src/inet/common/Int128.cc:352-380 | the product with 2^n modulo 2^128, for every n |
| Int128s.Int128.ShiftRight | omnetpp/inetmanet-4.x-master/src/inet/common/Int128.cc:321-350 | the quotient by 2^n, rounded down, for every n |
| Int128s.Int128.TestBit | omnetpp/inetmanet-4.x-master/src/inet/common/Int128.cc:291-300 | bit n of the two's complement, for every n |
| Int128s.Int128.SetBit | omnetpp/inetmanet-4.x-master/src/inet/common/Int128.cc:302-319 | sets or clears bit n and no other |
| Int128s.LowNext | omnetpp/inetmanet-4.x-master/src/inet/common/Int128.cc:229-234 | the product with the lowest bits of a number, one bit at a time |
| Int128s.Int128.Mul | omnetpp/inetmanet-4.x-master/src/inet/common/Int128.cc:216-237 | the product modulo 2^128 for all signed operands |
| Int128s.DivisionShift | omnetpp/inetmanet-4.x-master/src/inet/common/Int128.cc:267-275 | taking the next bit keeps the division of the leading bits, and the remainder fits into 127 bits |
| Int128s.DivisionTake | omnetpp/inetmanet-4.x-master/src/inet/common/Int128.cc:276-279 | taking the divisor away and setting the bit keeps it too |
| Int128s.Int128.TakeLeading | omnetpp/inetmanet-4.x-master/src/inet/common/Int128.cc:259-265 | the counter, which may wrap below 0, is again the number of bits left |
| Int128s.Int128.Div | omnetpp/inetmanet-4.x-master/src/inet/common/Int128.cc:239-289 | truncating division, for a divisor that is neither 0 nor the least integer; the least integer is not divided at all |
| Int128s.TruncatedIs | omnetpp/inetmanet-4.x-master/src/inet/common/Int128.cc:239-289 | quotient and remainder of truncating division are unique |
| Int128s.MinDividedWrongly | omnetpp/inetmanet-4.x-master/src/inet/common/Int128.cc:250-253 | for the least integer the result is never the truncated quotient |
| Int128s.MinDivisorRepeats | omnetpp/inetmanet-4.x-master/src/inet/common/Int128.cc:246-279 | a division by the least integer does not end: it begins, and in its second loop, after any number of rounds, the remainder is 0 or the divisor and the test for leaving is false |
| Int128s.Int128.DivAssign | omnetpp/inetmanet-4.x-master/src/inet/common/Int128.h:133-138 | the truncated quotient |
| Int128s.Int128.ModAssign | omnetpp/inetmanet-4.x-master/src/inet/common/Int128.h:140-144 | the remainder, although it is written over the dividend |
| Int128s.Int128.ToString | omnetpp/inetmanet-4.x-master/src/inet/common/Int128.cc:37-62 | the digits for any radix from 2 to 37, with the buffer index in range |
| Int128s.Int128.Set | omnetpp/inetmanet-4.x-master/src/inet/common/Int128.cc:64-109 | the number the text writes, modulo 2^128, in decimal, octal or hexadecimal |
| Int128s.NoLeadingZero | omnetpp/inetmanet-4.x-master/src/inet/common/Int128.cc:83-84 | no number but 0 is written with a leading 0 |
| Int128s.DigitChars | omnetpp/inetmanet-4.x-master/src/inet/common/Int128.cc:54-54 | the digits are 0 to 9 and A to Z, and 36 is written with the character after Z |
| Int128s.DigitsRead | omnetpp/inetmanet-4.x-master/src/inet/common/Int128.cc:50-55 | the digits written in any radix from 2 to 37 are, read in that radix, the number |
| Int128s.PrefixedRead | omnetpp/inetmanet-4.x-master/src/inet/common/Int128.cc:83-104 | octal digits after 0 and hexadecimal digits after 0x are read as the number they write |
| Int128s.OneDigitTooMany | omnetpp/inetmanet-4.x-master/src/inet/common/Int128.cc:92-101 | what set takes for digits in decimal and hexadecimal are just the digits below the radix, letters in either case, and one letter more, which counts as the radix |
| Int128s.WrittenAndRead | omnetpp/inetmanet-4.x-master/src/inet/common/Int128.cc:37-109 | the decimal text of a number is read back as that number, just if it is not the least integer |
| BitStreams.PutBitAppends | omnetpp/inetmanet-4.x-master/src/inet/common/MemoryOutputStream.h:102-111 | the bytes hold one bit more, and the unused bits are still 0 |
| BitStreams.PutByteAppends | omnetpp/inetmanet-4.x-master/src/inet/common/MemoryOutputStream.h:137-147 | at the start and in the middle of a byte, writeByte appends the eight bits and keeps the unused bits 0 |
| BitStreams.PutByteExactly | omnetpp/inetmanet-4.x-master/src/inet/common/MemoryOutputStream.h:137-147 | writeByte appends the byte, for all data and values, just if the length is a multiple of four bits |
| BitStreams.GetByteReads | omnetpp/inetmanet-4.x-master/src/inet/common/MemoryInputStream.h:194-213 | readByte gives the next eight bits at any position |
| MemoryStreams.MemoryOutputStream.WriteBit | omnetpp/inetmanet-4.x-master/src/inet/common/MemoryOutputStream.h:102-111 | appends the bit |
| MemoryStreams.MemoryOutputStream.WriteBits | omnetpp/inetmanet-4.x-master/src/inet/common/MemoryOutputStream.h:125-129 | appends the bits from an offset on, so many or all of them; fails after the last bit just if there are not so many |
| MemoryStreams.MemoryOutputStream.WriteByte | omnetpp/inetmanet-4.x-master/src/inet/common/MemoryOutputStream.h:137-147 | appends the byte at multiples of four bits; elsewhere the bytes are those PutByte gives |
| MemoryStreams.MemoryOutputStream.WriteBytes | omnetpp/inetmanet-4.x-master/src/inet/common/MemoryOutputStream.h:162-170 | at the start of a byte, appends the bytes from an offset on, so many or all of them |
| MemoryStreams.MemoryOutputStream.WriteUint2 | omnetpp/inetmanet-4.x-master/src/inet/common/MemoryOutputStream.h:189-192 | appends the two lowest bits |
| MemoryStreams.MemoryOutputStream.WriteUint4 | omnetpp/inetmanet-4.x-master/src/inet/common/MemoryOutputStream.h:198-203 | appends the four lowest bits |
| MemoryStreams.MemoryOutputStream.WriteUint16Be | omnetpp/inetmanet-4.x-master/src/inet/common/MemoryOutputStream.h:217-220 | appends 2 bytes, the most significant first |
| MemoryStreams.MemoryOutputStream.WriteUint16Le | omnetpp/inetmanet-4.x-master/src/inet/common/MemoryOutputStream.h:226-229 | appends 2 bytes, the least significant first |
| MemoryStreams.MemoryOutputStream.WriteUint24Be | omnetpp/inetmanet-4.x-master/src/inet/common/MemoryOutputStream.h:235-239 | appends 3 bytes, the most significant first |
| MemoryStreams.MemoryOutputStream.WriteUint24Le | omnetpp/inetmanet-4.x-master/src/inet/common/MemoryOutputStream.h:245-249 | appends 3 bytes, the least significant first |
| MemoryStreams.MemoryOutputStream.WriteUint32Be | omnetpp/inetmanet-4.x-master/src/inet/common/MemoryOutputStream.h:255-260 | appends 4 bytes, the most significant first |
| MemoryStreams.MemoryOutputStream.WriteUint32Le | omnetpp/inetmanet-4.x-master/src/inet/common/MemoryOutputStream.h:266-271 | appends 4 bytes, the least significant first |
| MemoryStreams.MemoryOutputStream.WriteUint64Be | omnetpp/inetmanet-4.x-master/src/inet/common/MemoryOutputStream.h:277-286 | appends 8 bytes, the most significant first |
| MemoryStreams.MemoryOutputStream.WriteUint64Le | omnetpp/inetmanet-4.x-master/src/inet/common/MemoryOutputStream.h:292-301 | appends 8 bytes, the least significant first |
| MemoryStreams.BeBitsAre | omnetpp/inetmanet-4.x-master/src/inet/common/MemoryOutputStream.h:217-220 | big endian is just the order of the bits of the number |
| MemoryStreams.MemoryOutputStream.WriteString | omnetpp/inetmanet-4.x-master/src/inet/common/MemoryOutputStream.h:338-341 | appends the characters and a zero |
| MemoryStreams.MemoryOutputStream.WriteNBitsOfUint64Be | omnetpp/inetmanet-4.x-master/src/inet/common/MemoryOutputStream.h:347-355 | appends the bits a moving mask finds, whatever the undefined shift gives from n = 33 on; fails just for 0 or more than 64 bits |
| MemoryStreams.MaskedExactly | omnetpp/inetmanet-4.x-master/src/inet/common/MemoryOutputStream.h:350-354 | these are the n lowest bits, for all values, just if the first mask is bit n - 1 alone |
| MemoryStreams.FirstMaskRight | omnetpp/inetmanet-4.x-master/src/inet/common/MemoryOutputStream.h:350-350 | which it is just if n is less than 32, or an undefined shift happens to give it |
| MemoryStreams.GatheredExactly | omnetpp/inetmanet-4.x-master/src/inet/common/MemoryInputStream.h:454-461 | the number a moving mask makes of n bits is the one they write, for all bits, just if the first mask is bit n - 1 alone |
| MemoryStreams.MemoryInputStream.ReadBit | omnetpp/inetmanet-4.x-master/src/inet/common/MemoryInputStream.h:148-162 | the next bit, or false and the flag at the end |
| MemoryStreams.MemoryInputStream.ReadBits | omnetpp/inetmanet-4.x-master/src/inet/common/MemoryInputStream.h:178-186 | the next n bits, if they are there |
| MemoryStreams.MemoryInputStream.ReadByte | omnetpp/inetmanet-4.x-master/src/inet/common/MemoryInputStream.h:194-213 | the next eight bits, or 0, the end and the flag if they are not there |
| MemoryStreams.MemoryInputStream.ReadUint2 | omnetpp/inetmanet-4.x-master/src/inet/common/MemoryInputStream.h:267-272 | the next two bits as a number, beyond the end as if not set, with the flag |
| MemoryStreams.MemoryInputStream.ReadUint4 | omnetpp/inetmanet-4.x-master/src/inet/common/MemoryInputStream.h:278-285 | the next four bits as a number, beyond the end as if not set, with the flag |
| MemoryStreams.MemoryInputStream.ReadUint8 | omnetpp/inetmanet-4.x-master/src/inet/common/MemoryInputStream.h:291-293 | the next byte |
| MemoryStreams.MemoryInputStream.ReadUint16Be | omnetpp/inetmanet-4.x-master/src/inet/common/MemoryInputStream.h:299-304 | the number whose big-endian bits come next; a byte that is not there as a whole is read as 0, and then the position is the end and the flag is set |
| MemoryStreams.MemoryInputStream.ReadUint16Le | omnetpp/inetmanet-4.x-master/src/inet/common/MemoryInputStream.h:310-315 | the number whose little-endian bytes come next, with the same statement about the end |
| MemoryStreams.MemoryInputStream.ReadUint24Be | omnetpp/inetmanet-4.x-master/src/inet/common/MemoryInputStream.h:321-327 | the number whose big-endian bits come next; a byte that is not there as a whole is read as 0, and then the position is the end and the flag is set |
| MemoryStreams.MemoryInputStream.ReadUint24Le | omnetpp/inetmanet-4.x-master/src/inet/common/MemoryInputStream.h:333-339 | the number whose little-endian bytes come next, with the same statement about the end |
| MemoryStreams.MemoryInputStream.ReadUint32Be | omnetpp/inetmanet-4.x-master/src/inet/common/MemoryInputStream.h:345-352 | the number whose big-endian bits come next; a byte that is not there as a whole is read as 0, and then the position is the end and the flag is set |
| MemoryStreams.MemoryInputStream.ReadUint32Le | omnetpp/inetmanet-4.x-master/src/inet/common/MemoryInputStream.h:358-365 | the number whose little-endian bytes come next, with the same statement about the end |
| MemoryStreams.MemoryInputStream.ReadUint64Be | omnetpp/inetmanet-4.x-master/src/inet/common/MemoryInputStream.h:371-382 | the number whose big-endian bits come next; a byte that is not there as a whole is read as 0, and then the position is the end and the flag is set |
| MemoryStreams.MemoryInputStream.ReadUint64Le | omnetpp/inetmanet-4.x-master/src/inet/common/MemoryInputStream.h:388-399 | the number whose little-endian bytes come next, with the same statement about the end |
| MemoryStreams.MemoryInputStream.ReadString | omnetpp/inetmanet-4.x-master/src/inet/common/MemoryInputStream.h:440-445 | the bytes up to a zero, or up to the end of the stream, where the position then is |
| MemoryStreams.MemoryInputStream.ReadNBitsToUint64Be | omnetpp/inetmanet-4.x-master/src/inet/common/MemoryInputStream.h:451-462 | the number a moving mask makes of the next n bits, beyond the end as if not set, with the flag; fails just for 0 or more than 64 bits |
| StreamRoundTrip.SameString | omnetpp/inetmanet-4.x-master/src/inet/common/MemoryInputStream.h:440-445 | a string is given by the bits at its place |
| StreamRoundTrip.LeInjective | omnetpp/inetmanet-4.x-master/src/inet/common/MemoryOutputStream.h:226-229 | a number is given by its little-endian bytes |
| StreamRoundTrip.ReadItem | omnetpp/inetmanet-4.x-master/src/inet/common/MemoryInputStream.h:148-462 | an item whose bits come next is read as itself |
| StreamRoundTrip.RoundTrip | omnetpp/inetmanet-4.x-master/src/inet/common/MemoryOutputStream.h:102-355 | any sequence of writes, each value in range and each byte and string at a place where it can be written, is read back the same; the position is then the length and the flag is not set |

## Left out

- IntervalTree: memory is not freed, so a deleted node's interval is returned as it was; nodes start with nil instead of null links; key, high and the interval of a node do not change; the `value` of an interval, printing, `getMaximum` and `getPredecessor` are not modelled; the growing stack is a sequence.
- IntervalTrees.IntervalTree.RecursiveInsert: looks for the place before it resets the children of the new node, which has none in either order.
- IntervalTrees.IntervalTree.DeleteInterval: searches from the left child of the root sentinel, which holds no interval itself.
- ShortestPaths.Dijkstra.RunUntil: termination, the walks behind the labels and the nodes labelled are proved for all methods and costs; optimal labels for `basic`, `otherCost` and `widestshortest`, with costs that are not negative, and positive for the last. For `shortestwidest` nothing is claimed of the labels' costs and widths: the queue elements pushed again have no width to be ordered by. `costAdd2` and `costConcave2`, which never decide anything, are not modelled.
- ShortestPaths.Dijkstra.AddEdge: edges are values, so two link arrays that share edge objects are not told apart; the other overloads of `addEdge`, `discoverPartitionedLinks` and `getRoutes` are not modelled.
- KShortest: the cheapest-first order of the routes is not claimed, since the comparison of cost vectors is no order when they have more than one component (`LessIsNoOrder`); `runUntil`, `setRouteMapK` and `getAllRoutes` repeat parts of the rest and are not modelled. The branch that extends a list of states in front of an element that is not in it cannot be taken, and is an assertion.
- Topology: extraction from the simulation, `findNetworks` and the adding and removing of links are not modelled.
- Macho: state classes are values that carry their superstates, so boxes and histories are fields of the machine keyed by state, and instances are not created lazily; snapshots, the `setStateBox` family, a box handed to the constructor, and box contents are not modelled.
- Macho.Machine.RattleOn: describes the build with assertions: an init action may not dispatch events, and an init to anything but a proper substate ends the run. A user who asks for ever more events is modelled by every finite part of such a run.
- PatternMatching: matching without regard to case and `patternPrefixMatches` are not modelled; numbers do not overflow.
- PatternParsing.SetPattern: a pattern in which a last backslash has no character after it is not modelled, since the source reads beyond the text there.
- InitStages: the debug output is not modelled.
- Int128s: conversions to and from floating point and assignments from shorter integers are not modelled.
- Int128s.Int128.Div: a zero divisor traps in the source, and a division by the least integer does not end (MinDivisorRepeats), so neither is a divisor here.
- MemoryStreams: `copyData`, `seek`, `readBytes`, repeated bits and bytes, and the address types, which are sequences of the modelled writes, are left out. In n-bit transfers the shift is undefined in the source for n from 33 to 64; what it gives is a parameter.
- The rest of the repository, wiring of the simulator for the most part, is not modelled.
