# Metroflow: verified models of the routing, flow and evidence machinery

Metroflow simulates traffic in synthetic cities. Its Rust kernel finds routes, shares out link
capacity and moves agents; Python tools around it thin street networks, recognise ring roads,
check PNG files, publish evidence archives and measure a child process. This project models that
machinery in Dafny and proves what it is for. `dafny verify dfyconfig.toml` checks all of it.

| files | what they model |
|---|---|
| `Results`, `Sorting`, `BinaryHeaps`, `RoadArcs` | shared types; sorting by any order; the contract of a binary heap; arcs, chains and their cost |
| `Potentials` | reverse Dijkstra with lazy deletion: exact cost-to-go labels |
| `RouteNetwork`, `LegalRoutes` | turn rules and next-link choice; what a legal route is; the Bellman equations |
| `GreedyRoute`, `RankedRoutes`, `OpenRoads`, `RouteCandidates` | the greedy follower, the best-first enumeration, its answer on a single open road, and both searches composed with the potentials |
| `RouteMetadata`, `RouteSelection` | path-size factors; the tie-broken choice of a candidate |
| `Flow`, `JaxFlow` | the point-queue flow step, and its array form with two execution modes |
| `Agents`, `Edges` | budgeted service of agents; evolution of edge queues |
| `Connectivity`, `ConnectivityReport`, `StreetCounts`, `Thinning` | weak components; counting streets of connected networks; random street deletion |
| `RingWalk`, `PngWalk` | the ring recogniser; the strict PNG chunk walker |
| `LineChannel` | newline-framed messages over a byte stream |
| `Handshake`, `HandshakeSteps`, `Measurement`, `MeasuredFigures`, `MeasuredRun` | the parent and child of a measurement, interleaved in any way: their steps, also in numbers, what a result and its figures prove, and that there can be one |
| `Publication` | create-once publication by hard links, by any number of writers |

The main results:

* Reverse Dijkstra is exact and pops at most 1 + link count entries. Over its labels the greedy
  follower is optimal, and the ranked enumeration is a cheapest-first prefix of the legal simple
  routes whether or not its expansion cap stops it, complete up to every cost the cap reaches; on a
  single open road the cap never matters.
* Three conditions carry the optimality results from one stage to the next, and no validator of
  the source checks the first two: the outgoing adjacency is the transpose of the incoming one,
  every cost is at least 1e-6, and both stages see the same blocked links. They are the predicate
  `LegalRoutes.SharedNetwork`.
* The flow step shares supply out in proportion to demand and priority, never oversends, never raises
  its violation flag and conserves vehicles over runs of any length; all its clamps are inactive. The
  array form computes the same.
* The number of streets a thinning run removes does not depend on the shuffle.
* The ring recogniser answers exactly when the roads form one ring, and the PNG walker exactly
  when the file is a signature and one well-formed chunk list.
* Publication is safe in every interleaving, and what a failed writer leaves is known exactly; the
  line channel delivers exactly the messages sent, however their bytes are cut; a MEASURED result
  means that every instant of the workload lies between two samples at most 5 ms apart.

Floating-point numbers are exact reals and machine integers are unbounded; error strings are
named constructors, raised in the source's order. CRC-32, zlib, JSON decoding and the natural
logarithm are arbitrary functions passed as parameters.

## Model

| member | source | states |
|---|---|---|
| Potentials.ValidateIncoming | crates/metroflow-rust/src/routing.rs:73-141 | succeeds exactly on inputs that are a proper incoming CSR graph with a destination in range, so everything after may rely on that |
| Potentials.ReverseDijkstra | crates/metroflow-rust/src/routing.rs:162-192 | the loop is a search of the step model that drains its heap: each label is the smaller of INF and the cheapest unblocked route cost to the destination under weights max(cost, 1e-6), after at most 1 + link count pops |
| Potentials.SearchIsShort | crates/metroflow-rust/src/routing.rs:170-191 | every sequence of pops from the start, whichever of equal entries comes first, has at most 1 + link count of them, entries still in the heap included: lazy deletion never expands a node twice |
| Potentials.DrainedSearchIsExact | crates/metroflow-rust/src/routing.rs:170-191 | every sequence of pops that drains the heap ends in exact labels |
| Potentials.ExpandNode | crates/metroflow-rust/src/routing.rs:174-190 | the in-place relaxation of one node's list is the step that the model's pops make |
| Potentials.ComputeNodeCosts | crates/metroflow-rust/src/routing.rs:143-193 | validation first, with its first error; then the labels in numbers: 0 at the destination, 1e12 where no route costs less, otherwise the cost of a cheapest unblocked route with every link at no less than 1e-6 |
| Potentials.ExactIsCheapest | crates/metroflow-rust/src/routing.rs:143-193 | exact labels are those numbers, with the constants written out |
| Potentials.ImproveLabel | crates/metroflow-rust/src/routing.rs:182-189 | improving a label never touches a node already expanded, keeps labels realisable by routes, and leaves each waiting node in the heap with its current label |
| Potentials.PopKeepsFrontier | crates/metroflow-rust/src/routing.rs:170-173 | a popped entry is either stale and droppable or belongs to a node never expanded before; popped costs never fall |
| Potentials.PopStep | crates/metroflow-rust/src/routing.rs:170-176 | each current pop uses up its node's share of the adjacency entries for good: the termination argument |
| Potentials.RelaxedIsLowerBound | crates/metroflow-rust/src/routing.rs:182-189 | a table relaxed everywhere is a lower bound on every route's cost |
| RouteNetwork.Validate | crates/metroflow-rust/src/routing.rs:247-365 | succeeds exactly on inputs whose outgoing CSR, turn records, cost table, end points and hop limit are in order |
| RouteNetwork.FirstErrorIsGiven | crates/metroflow-rust/src/routing.rs:247-365 | the error given is the first in the source's order among those the input deserves |
| RouteNetwork.BuildTurnLookup | crates/metroflow-rust/src/routing.rs:422-446 | the sorted, deduplicated successor lists contain exactly the non-forbidden records, and links with any record are marked |
| RouteNetwork.LookupDecidesTurns | crates/metroflow-rust/src/routing.rs:448-464 | asking the lookup is the same as asking the records: once any record exists a turn needs a non-forbidden one |
| RouteNetwork.BinarySearch | crates/metroflow-rust/src/routing.rs:388-392 | on an increasing list it finds exactly the members |
| RouteNetwork.BestLegalNext | crates/metroflow-rust/src/routing.rs:368-420 | none exactly when no link is legal; otherwise a legal link whose cost and way on are least, and among equals one of least id |
| RouteNetwork.LegalNextIs | crates/metroflow-rust/src/routing.rs:368-404 | a link may be taken exactly when it leaves the node, is not blocked, some record that is not forbidden allows the turn or none is needed, and neither the way on nor that and the link cost 5e11 or more |
| RouteNetwork.ScoredLegalNext | crates/metroflow-rust/src/routing.rs:549-597 | lists exactly the legal adjacency entries, each as often as it stands there, with total cost and id, in order of cost and then id |
| LegalRoutes.ExactIsConsistentAndTight | crates/metroflow-rust/src/routing.rs:143-193 | exact labels over a shared network satisfy the Bellman equations: no link lets them drop by more than its cost, and every labelled node has a link that pays the whole drop |
| LegalRoutes.ConsistentIsLowerBound | crates/metroflow-rust/src/routing.rs:396-404 | a consistent table underestimates the cost of every way to the destination: it is an admissible heuristic |
| LegalRoutes.SharedArcs | src/metroflow/routing/candidates.py:174-212 | under the three shared conditions both stages walk the same unblocked arcs at the same weights |
| GreedyRoute.FollowBestLinks | crates/metroflow-rust/src/routing.rs:506-545 | the walk makes a best choice at every node and stops only at the destination, a revisited node, the hop limit or a dead end; the answer is its ids exactly when it arrived |
| GreedyRoute.ComputeGreedyRoute | crates/metroflow-rust/src/routing.rs:467-546 | the same after validation; errors exactly when validation fails; an origin that is the destination gets the empty path |
| GreedyRoute.GreedyAnswerIsLegal | crates/metroflow-rust/src/routing.rs:518-545 | a non-empty greedy answer runs from origin to destination through outgoing links, visits no node twice, stays within the hop limit, uses no blocked link and only allowed turns |
| GreedyRoute.GreedyPaysTheDrop | crates/metroflow-rust/src/routing.rs:518-535 | over a consistent and tight table each prefix of the walk has paid exactly the drop of the label |
| GreedyRoute.GreedyNeverRevisits | crates/metroflow-rust/src/routing.rs:539-541 | with positive costs the guard against revisited nodes never fires |
| GreedyRoute.GreedyIsOptimal | crates/metroflow-rust/src/routing.rs:506-545 | with no turn record, positive costs, an origin label below INF/2 and at least node count - 1 hops, the walk arrives and costs exactly the origin's label |
| RankedRoutes.Expand | crates/metroflow-rust/src/routing.rs:682-725 | a state gets one child with a fresh serial for each link that passes every test, cheapest first, and no other; each child is the state one link further, in cost, estimate, path and marks; and what is left to search below the children is what was left below the state |
| RankedRoutes.ChildStands | crates/metroflow-rust/src/routing.rs:694-724 | a child stands for a legal loop-free partial route: its parent's and one more arc, with the right cost, marks and incoming link |
| RankedRoutes.EstimateIsLowerBound | crates/metroflow-rust/src/routing.rs:716-717 | a state's estimate never exceeds the cost of a legal route it is a prefix of |
| RankedRoutes.NextLinkOpens | crates/metroflow-rust/src/routing.rs:570-588 | none of the pruning tests ever cuts off a legal route cheaper than INF/2 |
| RankedRoutes.CoverAfterExpansion | crates/metroflow-rust/src/routing.rs:667-726 | every wanted route stays answered or waiting in the heap as a prefix when a state is replaced by its children |
| RankedRoutes.ChildEstimate | crates/metroflow-rust/src/routing.rs:702-717 | estimates never fall from parent to child, so answers come out in order of cost |
| RankedRoutes.RankingIsCheapestFirst | crates/metroflow-rust/src/routing.rs:667-726 | from the loop invariant: answers in order of cost, each at least as cheap as every wanted route that no earlier answer names, ids repeated or not; and what is not answered costs at least as much as anything popped so far |
| RankedRoutes.ArrivalIsForemost | crates/metroflow-rust/src/routing.rs:667-676 | a state that arrives is at least as cheap as every wanted route that no earlier answer names |
| RankedRoutes.BudgetAfterPop | crates/metroflow-rust/src/routing.rs:667-726 | for every cost bound at once, a pop spends one expansion and takes one state off what is left to search below the heap |
| RankedRoutes.SpentBudgetIsComplete | crates/metroflow-rust/src/routing.rs:665-671 | once the expansions spent reach the number of legal partial routes estimated at most a bound, every wanted route up to that bound has been answered |
| RankedRoutes.ComputeRankedRoutes | crates/metroflow-rust/src/routing.rs:600-729 | at most max_candidates distinct legal routes; over a consistent table a cheapest-first prefix of all legal simple routes below INF/2, each answer the cheapest route of its own id path included; when fewer than max_candidates came back, every such route up to any bound below which there are at most 16, or 4 times the link count, times max_candidates partial routes; and the search is a sequence of expansions in heap order that stops at an empty heap, at max_candidates paths or at exactly the larger of these numbers |
| OpenRoads.OnlyRoute | crates/metroflow-rust/src/routing.rs:667-726 | on a road without forks from origin to destination the road is the only legal route |
| OpenRoads.RoadIsShort | crates/metroflow-rust/src/routing.rs:667-726 | from a state that stands on such a road no more states are reached than links are left, and itself |
| OpenRoads.RoadFitsNetwork | crates/metroflow-rust/src/routing.rs:665 | such a road has no more links than the network, so the limit on expansions is never met |
| OpenRoads.RankOpenRoad | crates/metroflow-rust/src/routing.rs:600-729 | on every such road, however long and for every max_candidates, the answer is exactly the ids of that road |
| RouteCandidates.TightRoute | src/metroflow/routing/candidates.py:174-212 | with open turns and enough hops a legal route that costs exactly the origin's label exists |
| RouteCandidates.FirstAnswerIsOptimal | crates/metroflow-rust/src/routing.rs:667-676 | where turns are open, a non-empty ranked answer starts with a route that costs exactly the origin's label, whether or not link ids repeat |
| RouteCandidates.BuildCandidatePaths | src/metroflow/routing/candidates.py:150-212 | succeeds exactly when the limit, the incoming network and the request are valid, with the first error otherwise; every path is legal; one candidate is the greedy walk's; over a shared network more candidates are a cheapest-first prefix, complete as far as the cap reaches; where turns are open a single candidate exists and the first candidate costs the exact cost-to-go |
| RouteMetadata.BuildIndex | crates/metroflow-rust/src/routing.rs:755-760 | fails exactly on repeated link ids; otherwise maps each id to its position |
| RouteMetadata.CountUsage | crates/metroflow-rust/src/routing.rs:762-770 | fails exactly on an unknown link; otherwise counts every occurrence over all candidates |
| RouteMetadata.PathFactor | crates/metroflow-rust/src/routing.rs:791-796 | the accumulated sum is the path's share of its links, each length divided by the link's usage, over its total length, floored at 1e-12 |
| RouteMetadata.FactorBounds | crates/metroflow-rust/src/routing.rs:786-797 | a factor lies in (0, 1], is at least 1/m when no link is used more than m times, and the floor is inactive up to m = 1e12 |
| RouteMetadata.FactorAtLeastOneOverN | crates/metroflow-rust/src/routing.rs:786-797 | with N candidates, none repeating a link, each factor is at least 1/N |
| RouteMetadata.FactorsConserveLength | crates/metroflow-rust/src/routing.rs:762-797 | the sum of total length times factor is at least the length of the distinct links used, equal exactly when the floor is inactive, which holds for usage up to 1e12 |
| RouteMetadata.CandidatesConserveLength | crates/metroflow-rust/src/routing.rs:772-797 | the same for the floored lengths of the source, whatever lengths are passed in |
| RouteMetadata.ComputeRouteMetadata | crates/metroflow-rust/src/routing.rs:731-800 | succeeds exactly on valid links and known paths; each cost is the sum over the path's links; each factor times the path's length, with links at no less than 1e-6, is what remains when every link is divided equally among its uses, unless that is below 1e-12, and 1 for an empty path |
| RouteMetadata.FactorIsOwnPart | crates/metroflow-rust/src/routing.rs:786-797 | the factor is that own part of the path's length, with the constants written out |
| RouteSelection.PathBeatsTransitive | crates/metroflow-rust/src/routing.rs:814-821 | the path order, in which a longer path beats its own prefix, is transitive |
| RouteSelection.PathBeatsTotal | crates/metroflow-rust/src/routing.rs:814-821 | of two different paths one beats the other |
| RouteSelection.PathBeatsAtDifference | crates/metroflow-rust/src/routing.rs:814-821 | the order is decided at the first difference by the smaller link, or for a prefix by length |
| RouteSelection.PathTiebreakGreater | crates/metroflow-rust/src/routing.rs:814-821 | the loop over the common length decides that order |
| RouteSelection.BeatsIsStrictTotalOrder | crates/metroflow-rust/src/routing.rs:823-842 | utility, then smaller id, then path is irreflexive, transitive and total |
| RouteSelection.Better | crates/metroflow-rust/src/routing.rs:894-902 | the two-branch comparison of the loop is that order |
| RouteSelection.SelectCandidate | crates/metroflow-rust/src/routing.rs:844-910 | never chooses an empty path; -1 when all are empty, the first non-empty path when costs are missing; otherwise the choice is economical: no other path of finite cost is cheaper by more than the gain in the logarithm of its size factor pays for, equal terms go to the smaller id and then the better path, the utility is minus the cost plus that term, and a path of no finite cost is chosen only if there is no other |
| RouteSelection.GreatestIsEconomical | crates/metroflow-rust/src/routing.rs:801-812 | the greatest candidate in the loop's order is the economical one |
| RouteSelection.CheapestWithoutSizes | crates/metroflow-rust/src/routing.rs:811 | without a positive gamma the chosen path costs no more than any other, the utility is minus its cost, and the smaller id breaks ties |
| RouteSelection.LargestAmongEquals | crates/metroflow-rust/src/routing.rs:806-811 | with a positive gamma and an increasing logarithm, among equal costs the chosen size factor is the greatest |
| RouteSelection.ChoiceIgnoresOrder | crates/metroflow-rust/src/routing.rs:885-907 | two inputs with the same candidates in any order lead to the same (utility, id, path) |
| Flow.SegmentSum | crates/metroflow-rust/src/flow.rs:63-69 | each segment gets exactly the sum of the values indexed to it |
| Flow.SegSumsTotal | crates/metroflow-rust/src/flow.rs:63-69 | distributing values over segments loses nothing |
| Flow.SegSumSplits | crates/metroflow-rust/src/flow.rs:63-69 | each value counts once, for its own segment |
| Flow.TurnFacts | crates/metroflow-rust/src/flow.rs:187-211 | supply is never negative, flow lies between 0 and demand and within supply, and forbidden turns get nothing: the clamps are inactive |
| Flow.LinkFacts | crates/metroflow-rust/src/flow.rs:213-230 | a link sends at most its queue and its capacity and admits at most its capacity; the clamp on queues and the violation flag never fire |
| Flow.StepIsSafe | crates/metroflow-rust/src/flow.rs:158-242 | all bounds of one step together, and as many queued vehicles after it as before |
| Flow.StepSharesOut | crates/metroflow-rust/src/flow.rs:158-242 | each turn's supply is the smaller of two shares proportional to demand times priority, of the smaller of queue and capacity of its source and of the capacity of its target; its flow is the smaller of demand and supply, nothing if it is forbidden; links see the sums of these, and their travel time is the free time and the time to discharge the new queue, with both 0.001 floors |
| Flow.LinkIsDrained | crates/metroflow-rust/src/flow.rs:187-203 | the shares of a link add up to all it can send: where neither targets nor demands hold its turns back, exactly that leaves it |
| Flow.RunConserves | crates/metroflow-rust/src/flow.rs:94-243 | over runs of any length, with new demand, capacity and turns at every step, vehicles are conserved, no queue is negative and no flag is raised |
| Flow.ComputeBaselineFlow | crates/metroflow-rust/src/flow.rs:94-243 | succeeds exactly on valid inputs, with the first error otherwise, and returns a step in which supply is shared out as said; with no link it returns zeros |
| JaxFlow.SupplyAgrees | src/metroflow/backends/jax_flow.py:266-282 | the scatter-and-gather form of the supplies equals the turn-by-turn one |
| JaxFlow.FlowsAgree | src/metroflow/backends/jax_flow.py:283-298 | the array form sums unclamped flows and need not clamp them |
| JaxFlow.StepAgrees | src/metroflow/backends/jax_flow.py:255-300 | on every valid input the nine arrays of the array step equal those of the turn-by-turn step, with zero turns too |
| JaxFlow.IterateAgrees | src/metroflow/backends/jax_flow.py:305-337 | over runs of any length with constant arguments the iterated array step equals the last output of the turn-by-turn run, in all nine arrays |
| JaxFlow.HostStepLoop | src/metroflow/backends/jax_flow.py:305-337 | the result is that of the iterated step, at least once |
| JaxFlow.UnpackBody | src/metroflow/backends/jax_flow.py:374-409 | the permutation into the loop carry and the one out of it undo each other |
| JaxFlow.DeviceChunk | src/metroflow/backends/jax_flow.py:340-431 | for one step or more the same nine arrays as the host loop; for none the initial queue and timer, the base travel times and zeros |
| JaxFlow.IterateConserves | src/metroflow/backends/jax_flow.py:305-337 | any number of array steps conserves vehicles, keeps queues non-negative and raises no flag |
| Agents.Validate | crates/metroflow-rust/src/agent.rs:20-76 | succeeds exactly on matching lengths, monotone in-range offsets and non-negative values; otherwise the error is one the input deserves |
| Agents.FirstErrorIsGiven | crates/metroflow-rust/src/agent.rs:20-76 | the error given is the first in the source's order among those the input deserves |
| Agents.AccumulateBudget | crates/metroflow-rust/src/agent.rs:78-97 | rows for the same link add up, and links without a row have nothing |
| Agents.AdvanceActiveAgents | crates/metroflow-rust/src/agent.rs:6-157 | in terms of the input arrays: an agent moves exactly when it is not skipped, has a link ahead, and fewer such agents stand before it on its link than the link's movement rows add up to; finishing is the same with the last link and the completion rows; movers get the next link of their path, the next pointer and one tick less cooldown, everyone else is unchanged, and the four lists hold exactly the movers, the waiting and the leaving, in order |
| Agents.ServiceIs | crates/metroflow-rust/src/agent.rs:107-146 | who moves, leaves and waits is decided by counts over the input arrays |
| Agents.MovedExactly | crates/metroflow-rust/src/agent.rs:78-87 | on every link the number of agents whose pointer advanced is the smaller of the sum of its movement rows and the number of unskipped agents there with a link ahead |
| Agents.FinishedExactly | crates/metroflow-rust/src/agent.rs:88-97 | the same for agents on their last link and the completion rows |
| Agents.NoRowsNoService | crates/metroflow-rust/src/agent.rs:124-139 | an agent whose link has no movement row keeps link and pointer, and one on its last link without a completion row waits |
| Agents.BudgetSplits | crates/metroflow-rust/src/agent.rs:78-97 | rows add up, and those of other links do not count |
| Agents.ServedExactly | crates/metroflow-rust/src/agent.rs:107-146 | on every link exactly min(budget, eligible) agents are served, for moves and for completions |
| Agents.ServedInOrder | crates/metroflow-rust/src/agent.rs:107-146 | whoever stands before a served agent in the same queue is served |
| Agents.LinkCountsBalance | crates/metroflow-rust/src/agent.rs:107-146 | per link, agents after = before - moved out - released + moved in |
| Agents.RunKeepsRoutes | src/metroflow/sim/routing_runtime.py:1240-1332 | over every run of ticks, in which released agents go, new ones enter in any slot and any agent may be rerouted after the link it stands on, the route pointer of each agent with a path stays inside the path and names the link the agent stands on |
| Edges.EvolveKeepsSound | crates/metroflow-rust/src/edge.rs:39-53 | one step keeps 0 <= queue <= stock, realises no more than capacity, demand and mass, and accounts for every vehicle |
| Edges.EvolveDischarges | crates/metroflow-rust/src/edge.rs:39-53 | what leaves is exactly the least of demand, mass and capacity; the rest of the inflow queues up within the stock; the travel time is the free time and the time to discharge the queue, with the 1e-6 floor |
| Edges.RunIsSound | crates/metroflow-rust/src/edge.rs:29-103 | from a sound state each edge stays sound over every run, and final stock = initial + inflow - realised outflow |
| Edges.BatchRunIsAccepted | crates/metroflow-rust/src/edge.rs:29-103 | in a series of calls, each on the queues and stocks the one before gave and with any valid inputs, an accepted first call is followed by accepted calls only |
| Edges.EdgesRunAlone | crates/metroflow-rust/src/edge.rs:29-103 | what such a series gives for an edge is what that edge comes to in a run of its own: edges do not touch each other |
| Edges.Sequential | crates/metroflow-rust/src/edge.rs:71-103 | fails exactly when some queue exceeds its stock; otherwise every edge has made its step |
| Edges.Parallel | crates/metroflow-rust/src/edge.rs:29-69 | the map-and-collect form fails and succeeds on the same batches with the same states |
| Edges.EvolveEdges | crates/metroflow-rust/src/edge.rs:5-104 | whichever branch the batch size selects, the answer is the same, errors come in the source's order, and every edge of the batch is discharged as said |
| Connectivity.ClosedToLinks | src/metroflow/city/connectivity.py:72-83 | a set of nodes counts as a part of its own exactly when no link joins it to the rest, in whatever direction |
| Connectivity.Explore | src/metroflow/city/connectivity.py:84-97 | a breadth-first search from an unvisited node returns exactly its weak component, which is new |
| Connectivity.FindComponents | src/metroflow/city/connectivity.py:72-97 | the components found partition the nodes, and there is at most one exactly when no proper part of the nodes is closed under streets |
| ConnectivityReport.AnalyzeWeakConnectivity | src/metroflow/city/connectivity.py:65-107 | the report lists exactly the weak components, ascending, largest first and then by least node, numbers each node with its own, and has at most one exactly for a connected network |
| StreetCounts.ConnectedNeedsStreets | src/metroflow/benchmarks/null_operator_control.py:77-90 | a connected network on n nodes has at least n - 1 streets |
| StreetCounts.MinimalIsTree | src/metroflow/benchmarks/null_operator_control.py:77-90 | a connected network that can spare no street has exactly n - 1 |
| Thinning.GroupByStreet | src/metroflow/benchmarks/null_operator_control.py:67-69 | each undirected street gets all its links, both directions, in order |
| Thinning.TriedAfterRemoval | src/metroflow/benchmarks/null_operator_control.py:77-90 | a street once kept stays indispensable after later removals: one pass is enough |
| Thinning.OutcomeIsSettled | src/metroflow/benchmarks/null_operator_control.py:75-90 | falling short of the target means that the survivors are a spanning tree, whatever the order |
| Thinning.DeleteStreets | src/metroflow/benchmarks/null_operator_control.py:75-90 | the loop stops at the target or at the end of the shuffle with every kept street justified |
| Thinning.ThinTopology | src/metroflow/benchmarks/null_operator_control.py:42-97 | for every shuffle of a connected network exactly min(t, m - (n - 1)) streets go, where t is the whole part of m times the fraction, and the rest is connected; a network in parts loses nothing; each link is kept as often as it was there or not at all, together with its street in both directions, sorted by id |
| RingWalk.EndsCovered | artifacts/heldout_morphology_adversarial_audit_20260823/evidence/heldout_morphology_validator.py:177-182 | distinct nodes see at most two ends per road, and all of them exactly when every road ends among them: the handshake count behind the length test |
| RingWalk.NextIsNew | artifacts/heldout_morphology_adversarial_audit_20260823/evidence/heldout_morphology_validator.py:196-197 | where every node has two neighbours the walk never meets its own nodes before the start: this guard never fires |
| RingWalk.DeadEnd | artifacts/heldout_morphology_adversarial_audit_20260823/evidence/heldout_morphology_validator.py:188-192 | running out of candidates means that two roads join the same two nodes |
| RingWalk.ClosesUp | artifacts/heldout_morphology_adversarial_audit_20260823/evidence/heldout_morphology_validator.py:194-195 | back at the start, every walked node has its two walk neighbours and no other |
| RingWalk.ShortWalkRulesOutRings | artifacts/heldout_morphology_adversarial_audit_20260823/evidence/heldout_morphology_validator.py:200 | a closed walk with fewer nodes than roads shows that no ring order exists |
| RingWalk.WalkRound | artifacts/heldout_morphology_adversarial_audit_20260823/evidence/heldout_morphology_validator.py:183-199 | the walk terminates, at the start or stuck, with distinct nodes each next to the one before |
| RingWalk.OrderedCycleNodeIds | artifacts/heldout_morphology_adversarial_audit_20260823/evidence/heldout_morphology_validator.py:176-200 | an order is returned exactly when the roads form one simple ring of at least three nodes or a single self-loop; it is that ring, starting at the least node towards its lesser neighbour |
| PngWalk.ParseOfSerialized | tools/build_heldout_morphology_adversarial_report.py:701-727 | parsing a serialised chunk list gives the list back |
| PngWalk.ParsedIsSerialized | tools/build_heldout_morphology_adversarial_report.py:701-727 | whatever parses is the serialisation of its chunks, checksums included |
| PngWalk.ReadChunk | tools/build_heldout_morphology_adversarial_report.py:702-715 | a chunk is read exactly when the bytes at the offset are a big-endian length, a kind, that much data, and the checksum of kind and data; otherwise the error says what is missing |
| PngWalk.NamesAreSpelled | tools/build_heldout_morphology_adversarial_report.py:694-722 | the signature and the chunk kinds are the bytes their names say |
| PngWalk.WholeFileParsed | tools/build_heldout_morphology_adversarial_report.py:701-727 | at the end of the file the chunks walked are the only ones the file can mean |
| PngWalk.PngDimensions | tools/build_heldout_morphology_adversarial_report.py:692-736 | accepted exactly when the file is the signature and a list of checksummed chunks with a 13-byte IHDR first, an IDAT, one empty IEND last, and image data that inflates to something; the answer is the IHDR's size; width and height are the big-endian numbers at bytes 16 and 20; and a refusal says why and where |
| PngWalk.SerializedPictureIsPng | tools/build_heldout_morphology_adversarial_report.py:692-736 | every serialised picture is accepted, and as no other picture |
| LineChannel.LineIsStable | tools/run_task45_validation_performance.py:157-162 | more bytes never move the first line |
| LineChannel.FrameEndsInNewline | tools/run_task45_validation_performance.py:157-162 | a frame is the message and byte 10, which the message does not contain |
| LineChannel.DeliveryInOrder | tools/run_task45_validation_performance.py:143-203 | whatever calls are made and however the stream is cut, what is delivered is a prefix of what was sent, in order, and the rest is still in the stream |
| LineChannel.WaitDelivers | tools/run_task45_validation_performance.py:175-190 | a wait takes the first line of the stream or nothing; a stream of chunks that holds a line yields it; without one the wait has met a silence, the end, or read everything |
| LineChannel.WaitReadsNoMore | tools/run_task45_validation_performance.py:178-190 | no chunk is read that the line does not need |
| LineChannel.Channel.constructor | tools/run_task45_validation_performance.py:138-141 | a new channel holds nothing of the stream yet |
| LineChannel.Channel.PopMessage | tools/run_task45_validation_performance.py:157-173 | takes the first complete line off the buffer, one that does not decode too, and nothing when there is none |
| LineChannel.Channel.Receive | tools/run_task45_validation_performance.py:175-190 | outcome, buffer and socket are those of the wait, so the stream loses exactly the line that was delivered, or nothing |
| LineChannel.Channel.Poll | tools/run_task45_validation_performance.py:192-203 | a held line is taken without reading; otherwise exactly one arrival is read, a chunk that completes a line yields its message, and the error of a closed socket comes only from its end |
| LineChannel.ReceiveAll | tools/run_task45_validation_performance.py:175-190 | for every list of messages and every cut of their bytes into chunks, as many waits as messages receive exactly those messages in order, each judged by its event and nonce, and an unfinished tail is kept |
| LineChannel.PollAll | tools/run_task45_validation_performance.py:192-203 | as many polls as arrivals and messages deliver the same, whatever silences lie between the chunks |
| Handshake.ParentKeepsTalking | tools/run_task45_validation_performance.py:637-764 | every step of the parent keeps both sides' scripts: what was sent, how much was taken, and how the run ended |
| Handshake.ChildKeepsTalking | tools/run_task45_validation_performance.py:443-545 | every step of the child, a crash at any point included, keeps them |
| HandshakeSteps.SteadyIs | tools/run_task45_validation_performance.py:687-691 | the memory has settled exactly when the window holds 200 values no two of which differ by more than 1024 |
| HandshakeSteps.SampleStep | tools/run_task45_validation_performance.py:671-727 | a sample is taken exactly when the child is there, its memory can be read and the last sample is at most 5 ms old, no sooner than it is due; otherwise the parent gives up |
| HandshakeSteps.QuietPollStep | tools/run_task45_validation_performance.py:684-719 | without a message the parent samples again 2 ms after the last sample until the memory has settled or the deadline has passed |
| HandshakeSteps.StageStarts | tools/run_task45_validation_performance.py:665-702 | the memory has 10 s to settle and the workload 900 s; each stage starts with a sample at once, and START starts the clock |
| HandshakeSteps.ListenStep | tools/run_task45_validation_performance.py:641-716 | the parent takes exactly the message it waits for, fails on any other, and on a child that has ended with nothing left to say |
| HandshakeSteps.GivingUpStep | tools/run_task45_validation_performance.py:765-788 | any error makes the parent give up; it then ends the child by SIGTERM unless it has ended itself |
| HandshakeSteps.ChildWaitStep | tools/run_task45_validation_performance.py:443-545 | a waiting child goes on with the message it waits for, fails on any other and when the parent has gone, and waits on else |
| Measurement.ParentKeepsTime | tools/run_task45_validation_performance.py:667-727 | every step of the parent keeps samples paced, the window at the newest values and the workload inside the measured part |
| Measurement.RunIsSound | tools/run_task45_validation_performance.py:605-788 | both hold in every state of every interleaving, whatever the delays and faults |
| Measurement.MeasuredDialogue | tools/run_task45_validation_performance.py:641-735 | MEASURED means that exactly READY, BASELINE_READY and END were sent and accepted, START and ACK were taken, and the child exited with code 0 |
| Measurement.WorkloadIsWatched | tools/run_task45_validation_performance.py:696-727 | MEASURED means that the workload ran between the start marker and the sample after END, each of its instants lies between two samples at most 5 ms apart, and it outlasts the 900 s timeout by two samples at most |
| Measurement.MeasuredSamples | tools/run_task45_validation_performance.py:667-741 | the baseline window is the last 200 samples before START, any two within 1024 KiB; the samples counted for the peak are exactly the later ones, at least one; adjacent samples are at most 5 ms apart and at least 2 ms within a stage |
| MeasuredFigures.MedianSplits | tools/run_task45_validation_performance.py:696 | at least half of the window is at most the baseline and at least half is at least it |
| MeasuredFigures.FiguresAreSound | tools/run_task45_validation_performance.py:696-746 | a measured result has its figures: the baseline is the mean of the two middle values of the 200 samples before START and within 1 MiB of each, the peak is the greatest sample from the start marker on, and the difference is never negative, and zero exactly if none of those exceeds the baseline |
| Measurement.NeverBothWait | tools/run_task45_validation_performance.py:455-526 | parent and child never wait for each other, and a parent that has given up leaves no child running |
| MeasuredRun.MeasuredIsReachable | tools/run_task45_validation_performance.py:605-764 | for every gap from 2 ms to 5 ms some run whose baseline samples are that far apart ends in MEASURED, so the results above are not about nothing and the limits are exact |
| Publication.PublicationIsSafe | tools/build_map_evidence_bundle.py:476-491 | in every interleaving of any number of writers with faults of any kind at any step, interrupts and failing unlinks included: a digest comes with the archive of the same writer, a successful writer has both files and no temporary one, at most one succeeds |
| Publication.FailureLeavesNothingExactly | tools/build_map_evidence_bundle.py:485-491 | a failed writer has left a target exactly if it was interrupted with something linked, an unlink of its rollback failed, or its cleanup failed after a success |
| Publication.FailuresHappen | tools/build_map_evidence_bundle.py:485-491 | both endings are real: an interrupt after the first link leaves the archive without its digest, an exception at the same point leaves nothing |
| Publication.NobodyRemovesAnothersFile | tools/build_map_evidence_bundle.py:485-488 | no step changes a target that belongs to another writer, and the checks look at the writer's own pair |
| Publication.DoneIsPermanent | tools/build_map_evidence_bundle.py:476-491 | no later step of anyone touches what a finished writer has left, a published pair above all |
| Publication.FinishedRun | tools/build_map_evidence_bundle.py:476-491 | when all writers are done and none has left files behind, the two targets are of one successful writer or both absent; without any fault one has succeeded and no temporary file is left |
| Publication.Directory.Link | tools/build_map_evidence_bundle.py:478-481 | a link succeeds exactly when its target is absent and nothing fails, and is a step of the protocol |
| Publication.Directory.LinkAndCheck | tools/build_map_evidence_bundle.py:476-484 | what it reports as published is what the writer owns; undisturbed and without faults it succeeds exactly on absent targets |
| Publication.Directory.RollBack | tools/build_map_evidence_bundle.py:485-488 | unlinking newest first, with others acting in between, ends at the first unlink that fails, and with nothing owned if none does |
| Publication.Directory.DropTemporaries | tools/build_map_evidence_bundle.py:489-491 | both temporary files go unless a removal fails, which turns a success into a failure; a failing first removal keeps the second file |
| Publication.Directory.Publish | tools/build_map_evidence_bundle.py:476-491 | the section with its rollback and cleanup is a run of the protocol: a normal return means that the pair is published and the temporary files are gone, anything else leaves a target exactly after one of the faults that leave one |

## Left out

- GreedyRoute.GreedyIsOptimal: stated for no turn records, positive costs, an origin label below INF/2 and at least node count - 1 hops; with turn records the labels ignore the rules and the source promises no optimality.
- RankedRoutes.ComputeRankedRoutes: does not say that a path is found whenever one exists, because the expansion cap can stop the search first; it says up to which cost nothing is missing, and names routes by their link ids, as the source drops duplicates by them.
- RouteCandidates.BuildCandidatePaths: covers the potential and the two Rust searches; caching, statistics, the Python fallback and the metadata attached afterwards are not part of it, and the conditions in `LegalRoutes.SharedNetwork` are assumed where optimality is claimed.
- RouteSelection.SelectCandidate: a size factor that is not finite is modelled only through its positive or non-positive value.
- LineChannel.Channel.Receive: the deadline is modelled by the socket falling silent; sizes of single reads are free.
- Thinning.ThinTopology: the seeded shuffle is a parameter and the theorem holds for every one; the target is the floor of the exact product, where the source rounds a double first; the kept links are filtered from the input before sorting, and the restriction of road geometry and the metadata are not modelled.
- Connectivity.FindComponents: nodes and neighbours are taken in any order, where the source takes them by id; the components do not depend on it.
- Measurement.RunIsSound: messages are taken from a log of what was sent, which `LineChannel.DeliveryInOrder` justifies; a timeout is a fault that may happen at any time; the two clock reads before the first sample are one; a failing step need not consume the message that made it fail.
- Publication.PublicationIsSafe: a process that is killed outright stops taking steps and keeps what it has linked; an interrupt between a link and the note of it counts as one of the next step, with the same outcome.
- IEEE rounding, NaN, infinities, 32-bit wrap-around and the natural logarithm: reals and integers are exact, so nothing is said about accumulated rounding.
- Binary heaps, sorting and hash maps of the Rust library: used by their contracts.
- Rayon scheduling: the parallel map is a map.
- The next-link action costs (routing.rs:195-244), multi-destination and batch forms (routing.rs:912-1026) and reroute.rs: per-element formulas or maps over what is proved here.
- `_high_hierarchy_path_exists` and the witness checks of the morphology validator: the first is the search of `Connectivity` again, the rest are comparisons.
- Python wrappers, array conversion, caches, timing, training, reports and renderers: no algorithm of their own.
