/** Reverse Dijkstra over the incoming CSR graph: the cost-to-go of every node. */
module Potentials {
  import opened Results
  import opened BinaryHeaps
  import opened RoadArcs

  datatype IncomingInput = IncomingInput(
    nodeCount: nat,
    indptr: seq<int>,
    slots: seq<int>,
    src: seq<int>,
    cost: seq<real>,
    blocked: seq<bool>)

  datatype PotentialError =
    | DestinationOutOfRange | IndptrLength | IndptrStart | IndptrDecreasing
    | SlotCount | CostCount | BlockedCount | IndptrEnd | SlotRange | SrcRange | NegativeCost

  predicate ValidIncoming(g: IncomingInput) {
    var linkCount := |g.src|;
    && CsrIndex(g.indptr, g.nodeCount, linkCount)
    && |g.slots| == |g.cost| == |g.blocked| == linkCount
    && AllBelow(g.slots, linkCount)
    && AllBelow(g.src, g.nodeCount)
    && NonNegative(g.cost)
  }

  /** An input that passes the source's validator, the destination aside. */
  type IncomingGraph = g: IncomingInput | ValidIncoming(g) witness IncomingInput(0, [0], [], [], [], [])

  /** Where a check stands among the checks. */
  function Stage(e: PotentialError): nat {
    match e
    case DestinationOutOfRange => 0
    case IndptrLength => 1
    case IndptrStart => 2
    case IndptrDecreasing => 3
    case SlotCount => 4
    case CostCount => 5
    case BlockedCount => 6
    case IndptrEnd => 7
    case SlotRange => 8
    case SrcRange => 9
    case NegativeCost => 10
  }

  /** The input deserves the error `e`, whatever else is wrong with it. */
  predicate Deserves(g: IncomingInput, destination: nat, e: PotentialError) {
    match e
    case DestinationOutOfRange => destination >= g.nodeCount
    case IndptrLength => |g.indptr| != g.nodeCount + 1
    case IndptrStart => g.indptr != [] && g.indptr[0] != 0
    case IndptrDecreasing => !NonDecreasing(g.indptr)
    case SlotCount => |g.slots| != |g.src|
    case CostCount => |g.cost| != |g.src|
    case BlockedCount => |g.blocked| != |g.src|
    case IndptrEnd => |g.indptr| == g.nodeCount + 1 && g.indptr[g.nodeCount] != |g.src|
    case SlotRange => !AllBelow(g.slots, |g.src|)
    case SrcRange => !AllBelow(g.src, g.nodeCount)
    case NegativeCost => !NonNegative(g.cost)
  }

  /** The checks in the source's order. Its "non-negative indptr" check cannot fire: the array
      starts at 0 and the decrease check comes first. */
  function ValidateIncoming(g: IncomingInput, destination: nat): (r: Result<nat, PotentialError>)
    ensures r.Ok? <==> ValidIncoming(g) && destination < g.nodeCount
    ensures r.Ok? ==> r.value == |g.src|
    ensures r.Err? ==>
              && Deserves(g, destination, r.error)
              && forall e :: Deserves(g, destination, e) ==> e == r.error || Stage(r.error) < Stage(e)
  {
    if destination >= g.nodeCount then Err(DestinationOutOfRange)
    else if |g.indptr| != g.nodeCount + 1 then Err(IndptrLength)
    else if g.indptr[0] != 0 then Err(IndptrStart)
    else if !NonDecreasing(g.indptr) then Err(IndptrDecreasing)
    else if |g.slots| != |g.src| then Err(SlotCount)
    else if |g.cost| != |g.src| then Err(CostCount)
    else if |g.blocked| != |g.src| then Err(BlockedCount)
    else if g.indptr[g.nodeCount] != |g.src| then Err(IndptrEnd)
    else if !AllBelow(g.slots, |g.src|) then Err(SlotRange)
    else if !AllBelow(g.src, g.nodeCount) then Err(SrcRange)
    else if !NonNegative(g.cost) then Err(NegativeCost)
    else Ok(|g.src|)
  }

  // ----- What the labels mean

  function Floored(cost: seq<real>): (w: seq<real>)
    ensures |w| == |cost|
    ensures forall i :: 0 <= i < |w| ==> w[i] == MaxReal(cost[i], EDGE_COST_FLOOR)
  {
    seq(|cost|, i requires 0 <= i < |cost| => MaxReal(cost[i], EDGE_COST_FLOOR))
  }

  /** An unblocked link listed among the links entering `a.head`. */
  ghost predicate IncomingArc(g: IncomingGraph, a: Arc) {
    && Listed(g.indptr, g.slots, a.head, a.link)
    && a.link < |g.src| && g.src[a.link] == a.tail
    && a.link < |g.blocked| && !g.blocked[a.link]
  }

  /** `arcs` is an unblocked route from `u` to `destination`. */
  ghost predicate Route(g: IncomingGraph, u: nat, arcs: seq<Arc>, destination: nat) {
    Chain(u, arcs, destination) && forall a :: a in arcs ==> IncomingArc(g, a)
  }

  ghost predicate RouteCosting(g: IncomingGraph, u: nat, destination: nat, cost: real) {
    exists arcs :: Route(g, u, arcs, destination) && Cost(Floored(g.cost), arcs) == cost
  }

  /** `dist[v]` is the smaller of INF and the cheapest route cost from `v`. */
  ghost predicate ExactCostToGo(g: IncomingGraph, dist: seq<real>, destination: nat) {
    && |dist| == g.nodeCount
    && (forall v :: 0 <= v < |dist| ==> 0.0 <= dist[v] <= ROUTING_INF_COST)
    && (forall v :: 0 <= v < |dist| && dist[v] < ROUTING_INF_COST ==>
          RouteCosting(g, v, destination, dist[v]))
    && (forall v, arcs :: 0 <= v < |dist| && Route(g, v, arcs, destination) ==>
          dist[v] <= Cost(Floored(g.cost), arcs))
  }

  /** The cost of a route with every link at no less than 1e-6. */
  ghost function TravelCost(g: IncomingGraph, arcs: seq<Arc>): real {
    if arcs == [] then 0.0
    else
      var link := arcs[0].link;
      var cost := if link < |g.cost| then g.cost[link] else 0.0;
      (if cost >= 0.000001 then cost else 0.000001) + TravelCost(g, arcs[1..])
  }

  ghost predicate Attained(g: IncomingGraph, v: nat, destination: nat, cost: real) {
    exists arcs :: Route(g, v, arcs, destination) && TravelCost(g, arcs) == cost
  }

  /** The labels in numbers: 0 at the destination, 1e12 where no route costs less, and otherwise the
      cost of a cheapest route. */
  ghost predicate CheapestCosts(g: IncomingGraph, dist: seq<real>, destination: nat) {
    && |dist| == g.nodeCount && destination < |dist| && dist[destination] == 0.0
    && (forall v :: 0 <= v < |dist| && dist[v] != 1000000000000.0 ==> Attained(g, v, destination, dist[v]))
    && (forall v :: 0 <= v < |dist| ==> dist[v] <= 1000000000000.0)
    && (forall v, arcs :: 0 <= v < |dist| && Route(g, v, arcs, destination) ==> dist[v] <= TravelCost(g, arcs))
  }

  lemma {:induction false} TravelCostIs(g: IncomingGraph, u: nat, arcs: seq<Arc>, destination: nat)
    requires Route(g, u, arcs, destination)
    ensures TravelCost(g, arcs) == Cost(Floored(g.cost), arcs)
    decreases |arcs|
  {
    if arcs != [] {
      assert IncomingArc(g, arcs[0]);
      TravelCostIs(g, arcs[0].head, arcs[1..], destination);
    }
  }

  lemma ExactIsCheapest(g: IncomingGraph, dist: seq<real>, destination: nat)
    requires ExactCostToGo(g, dist, destination) && destination < g.nodeCount
    ensures CheapestCosts(g, dist, destination)
  {
    assert Route(g, destination, [], destination) && TravelCost(g, []) == 0.0 == Cost(Floored(g.cost), []);
    forall v | 0 <= v < |dist| && dist[v] != 1000000000000.0 ensures Attained(g, v, destination, dist[v]) {
      var arcs :| Route(g, v, arcs, destination) && Cost(Floored(g.cost), arcs) == dist[v];
      TravelCostIs(g, v, arcs, destination);
    }
    forall v, arcs | 0 <= v < |dist| && Route(g, v, arcs, destination) ensures dist[v] <= TravelCost(g, arcs) {
      TravelCostIs(g, v, arcs, destination);
    }
  }

  // ----- The heap order

  datatype HeapState = HeapState(cost: real, node: nat)

  /** `Ord::cmp`: reversed, so that the greatest element has the least cost, then the least
      node index. */
  function Compare(a: HeapState, b: HeapState): Ordering {
    CompareReal(b.cost, a.cost).ThenWith(CompareInt(b.node, a.node))
  }

  const LOWER_PRIORITY: (HeapState, HeapState) -> bool := (a, b) => Compare(a, b) == Less

  /** `a` is popped no later than `b`: it costs less, or as much at a node of no greater index. */
  ghost predicate Precedes(a: HeapState, b: HeapState) {
    a.cost < b.cost || (a.cost == b.cost && a.node <= b.node)
  }

  // ----- Loop invariants

  ghost predicate Labels(g: IncomingGraph, destination: nat, dist: seq<real>) {
    && |dist| == g.nodeCount
    && destination < |dist| && dist[destination] == 0.0
    && (forall v :: 0 <= v < |dist| ==> 0.0 <= dist[v] <= ROUTING_INF_COST)
    && (forall v :: 0 <= v < |dist| && dist[v] < ROUTING_INF_COST ==>
          RouteCosting(g, v, destination, dist[v]))
  }

  /** Each labelled node is either expanded (`done`) at its final label, or waits in the heap
      exactly once with its current label; stale entries cost more than the label. */
  ghost predicate Frontier(dist: seq<real>, heap: seq<HeapState>, done: seq<bool>, last: real) {
    && |done| == |dist|
    && (forall e :: e in heap ==>
          e.node < |dist| && dist[e.node] <= e.cost < ROUTING_INF_COST && last <= e.cost)
    && (forall v :: 0 <= v < |dist| && dist[v] < ROUTING_INF_COST ==>
          multiset(heap)[HeapState(dist[v], v)] == if done[v] then 0 else 1)
    && (forall v :: 0 <= v < |dist| && done[v] ==> dist[v] <= last && dist[v] < ROUTING_INF_COST)
  }

  /** Every entry before `upTo` of the list of `v` has been relaxed. */
  ghost predicate Relaxed(g: IncomingGraph, dist: seq<real>, v: nat, upTo: int)
    requires |dist| == g.nodeCount && v < g.nodeCount
  {
    forall pos ::
      0 <= g.indptr[v] <= pos < upTo && pos < |g.slots| && !g.blocked[g.slots[pos]] ==>
        dist[g.src[g.slots[pos]]] <= dist[v] + Floored(g.cost)[g.slots[pos]]
  }

  ghost predicate AllRelaxed(g: IncomingGraph, dist: seq<real>, done: seq<bool>)
    requires |dist| == g.nodeCount && |done| == g.nodeCount
  {
    forall v :: 0 <= v < |done| && done[v] ==> Relaxed(g, dist, v, g.indptr[v + 1])
  }

  /** Adjacency entries of the nodes below `k` that are not expanded yet. */
  ghost function Unscanned(indptr: seq<int>, done: seq<bool>, k: nat): int
    requires k <= |done| && |indptr| == |done| + 1
  {
    if k == 0 then 0
    else Unscanned(indptr, done, k - 1) + if done[k - 1] then 0 else indptr[k] - indptr[k - 1]
  }

  lemma {:induction false} UnscannedAll(indptr: seq<int>, done: seq<bool>, k: nat)
    requires k <= |done| && |indptr| == |done| + 1 && indptr[0] == 0
    requires forall v :: 0 <= v < |done| ==> !done[v]
    ensures Unscanned(indptr, done, k) == indptr[k]
  {
    if k > 0 {
      UnscannedAll(indptr, done, k - 1);
    }
  }

  lemma {:induction false} UnscannedExpand(indptr: seq<int>, done: seq<bool>, v: nat, k: nat)
    requires k <= |done| && |indptr| == |done| + 1 && v < |done| && !done[v]
    ensures Unscanned(indptr, done[v := true], k)
         == Unscanned(indptr, done, k) - if v < k then indptr[v + 1] - indptr[v] else 0
  {
    if k > 0 {
      UnscannedExpand(indptr, done, v, k - 1);
    }
  }

  lemma {:induction false} UnscannedNonNegative(indptr: seq<int>, done: seq<bool>, k: nat)
    requires k <= |done| && |indptr| == |done| + 1 && NonDecreasing(indptr)
    ensures Unscanned(indptr, done, k) >= 0
  {
    if k > 0 {
      UnscannedNonNegative(indptr, done, k - 1);
    }
  }

  /** Entry `pos` of the list of `v` improves the label of `u` to `candidate`. */
  ghost predicate Improves(g: IncomingGraph, dist: seq<real>, v: nat, pos: nat, u: nat, candidate: real)
    requires |dist| == g.nodeCount && v < |dist|
  {
    && 0 <= g.indptr[v] <= pos < g.indptr[v + 1] <= |g.slots|
    && !g.blocked[g.slots[pos]]
    && u == g.src[g.slots[pos]]
    && candidate == dist[v] + Floored(g.cost)[g.slots[pos]] < dist[u]
  }

  /** The better label is the cost of the link and a route that costs the old label of its head. */
  lemma ImprovedHasRoute(g: IncomingGraph, destination: nat, dist: seq<real>, v: nat, pos: nat, u: nat,
                         candidate: real)
    requires Labels(g, destination, dist) && v < |dist| && dist[v] < ROUTING_INF_COST
    requires Improves(g, dist, v, pos, u, candidate)
    ensures RouteCosting(g, u, destination, candidate)
  {
    var link := g.slots[pos];
    var w := Floored(g.cost);
    var arcs :| Route(g, v, arcs, destination) && Cost(w, arcs) == dist[v];
    var a := Arc(u, link, v);
    assert Listed(g.indptr, g.slots, v, link);
    assert ([a] + arcs)[1..] == arcs;
    assert Route(g, u, [a] + arcs, destination) && Cost(w, [a] + arcs) == candidate;
  }

  /** Improving a label keeps the invariants: no expanded node is touched. */
  lemma ImproveLabel(g: IncomingGraph, destination: nat, dist: seq<real>, heap: seq<HeapState>,
                     done: seq<bool>, v: nat, pos: nat, u: nat, candidate: real)
    requires Labels(g, destination, dist) && v < |dist| && dist[v] < ROUTING_INF_COST
    requires Frontier(dist, heap, done, dist[v])
    requires Improves(g, dist, v, pos, u, candidate)
    ensures !done[u]
    ensures Labels(g, destination, dist[u := candidate])
    ensures Frontier(dist[u := candidate], heap + [HeapState(candidate, u)], done, dist[v])
  {
    var dist' := dist[u := candidate];
    var added := HeapState(candidate, u);
    ImprovedHasRoute(g, destination, dist, v, pos, u, candidate);
    assert added !in multiset(heap);
    assert multiset(heap + [added]) == multiset(heap) + multiset{added};
    forall x | 0 <= x < |dist'| && dist'[x] < ROUTING_INF_COST
      ensures multiset(heap + [added])[HeapState(dist'[x], x)] == if done[x] then 0 else 1
    {
      if x != u {
        assert HeapState(dist'[x], x) != added;
      }
    }
  }

  lemma RelaxedAfterImprovement(g: IncomingGraph, dist: seq<real>, u: nat, candidate: real, v: nat, upTo: int)
    requires |dist| == g.nodeCount && v < g.nodeCount && u < g.nodeCount
    requires Relaxed(g, dist, v, upTo) && candidate < dist[u] && u != v
    ensures Relaxed(g, dist[u := candidate], v, upTo)
  {
  }

  /** A table relaxed everywhere is a lower bound on every route. */
  lemma {:induction false} RelaxedIsLowerBound(g: IncomingGraph, dist: seq<real>, destination: nat,
                                               u: nat, arcs: seq<Arc>)
    requires Labels(g, destination, dist)
    requires forall v :: 0 <= v < |dist| && dist[v] < ROUTING_INF_COST ==>
               Relaxed(g, dist, v, g.indptr[v + 1])
    requires Route(g, u, arcs, destination) && u < |dist|
    ensures dist[u] <= Cost(Floored(g.cost), arcs)
    decreases |arcs|
  {
    if arcs != [] {
      var a := arcs[0];
      assert IncomingArc(g, a);
      RelaxedIsLowerBound(g, dist, destination, a.head, arcs[1..]);
      if dist[a.head] < ROUTING_INF_COST {
        var pos :| 0 <= g.indptr[a.head] <= pos < g.indptr[a.head + 1] <= |g.slots| && g.slots[pos] == a.link;
        assert dist[g.src[g.slots[pos]]] <= dist[a.head] + Floored(g.cost)[g.slots[pos]];
      }
    }
  }

  lemma InitialState(g: IncomingGraph, destination: nat, dist: seq<real>, done: seq<bool>)
    requires |dist| == |done| == g.nodeCount > destination
    requires forall v :: 0 <= v < |dist| ==>
               !done[v] && dist[v] == if v == destination then 0.0 else ROUTING_INF_COST
    ensures Labels(g, destination, dist)
    ensures Frontier(dist, [HeapState(0.0, destination)], done, 0.0)
    ensures Unscanned(g.indptr, done, g.nodeCount) == |g.src|
  {
    assert Route(g, destination, [], destination) && Cost(Floored(g.cost), []) == 0.0;
    UnscannedAll(g.indptr, done, g.nodeCount);
  }

  /** Popping a least entry: a stale one is dropped, a current one marks its node expanded. */
  lemma PopKeepsFrontier(dist: seq<real>, heap: seq<HeapState>, done: seq<bool>, last: real,
                         top: HeapState, rest: seq<HeapState>)
    requires Frontier(dist, heap, done, last)
    requires multiset(heap) == multiset(rest) + multiset{top}
    requires forall x :: x in rest ==> Precedes(top, x)
    ensures top.node < |dist| && dist[top.node] <= top.cost < ROUTING_INF_COST && last <= top.cost
    ensures top.cost > dist[top.node] ==> Frontier(dist, rest, done, top.cost)
    ensures top.cost == dist[top.node] ==>
              !done[top.node] && Frontier(dist, rest, done[top.node := true], top.cost)
  {
    assert top in multiset(heap);
    assert top in heap;
    forall e | e in rest
      ensures e in heap && top.cost <= e.cost
    {
      assert e in multiset(heap);
    }
  }

  /** The state between two pops. */
  ghost predicate Searching(g: IncomingGraph, destination: nat, dist: seq<real>, heap: seq<HeapState>,
                            done: seq<bool>, last: real)
  {
    && Labels(g, destination, dist)
    && Frontier(dist, heap, done, last)
    && AllRelaxed(g, dist, done)
  }

  /** The state while the list of `v`, just popped, has been relaxed up to `pos`. */
  ghost predicate Expanding(g: IncomingGraph, destination: nat, dist: seq<real>, heap: seq<HeapState>,
                            done: seq<bool>, v: nat, pos: int)
  {
    && Labels(g, destination, dist)
    && v < |dist|
    && Frontier(dist, heap, done, dist[v])
    && done[v]
    && (forall u :: 0 <= u < |done| && done[u] && u != v ==> Relaxed(g, dist, u, g.indptr[u + 1]))
    && Relaxed(g, dist, v, pos)
  }

  lemma ExpandImproving(g: IncomingGraph, destination: nat, dist: seq<real>, heap: seq<HeapState>,
                        done: seq<bool>, v: nat, pos: nat, u: nat, candidate: real,
                        dist': seq<real>, heap': seq<HeapState>, next: nat)
    requires Expanding(g, destination, dist, heap, done, v, pos)
    requires Improves(g, dist, v, pos, u, candidate)
    requires dist' == dist[u := candidate] && heap' == heap + [HeapState(candidate, u)] && next == pos + 1
    ensures u != v
    ensures Expanding(g, destination, dist', heap', done, v, next)
  {
    ImproveLabel(g, destination, dist, heap, done, v, pos, u, candidate);
    forall x | 0 <= x < |done| && done[x] && x != v
      ensures Relaxed(g, dist[u := candidate], x, g.indptr[x + 1])
    {
      RelaxedAfterImprovement(g, dist, u, candidate, x, g.indptr[x + 1]);
    }
    RelaxedAfterImprovement(g, dist, u, candidate, v, pos);
  }

  lemma ExpandSkipping(g: IncomingGraph, destination: nat, dist: seq<real>, heap: seq<HeapState>,
                       done: seq<bool>, v: nat, pos: nat, next: nat)
    requires Expanding(g, destination, dist, heap, done, v, pos)
    requires 0 <= g.indptr[v] <= pos < g.indptr[v + 1] <= |g.slots| && next == pos + 1
    requires g.blocked[g.slots[pos]]
          || dist[v] + Floored(g.cost)[g.slots[pos]] >= dist[g.src[g.slots[pos]]]
    ensures Expanding(g, destination, dist, heap, done, v, next)
  {
  }

  // ----- The search as a sequence of pops

  /** What the search holds between two pops. */
  datatype Search = Search(dist: seq<real>, heap: seq<HeapState>)

  /** One entry of the list of a node popped at `cost`. */
  function RelaxEntry(g: IncomingGraph, s: Search, cost: real, pos: nat): (r: Search)
    requires |s.dist| == g.nodeCount && pos < |g.slots|
    ensures |r.dist| == |s.dist| && |r.heap| <= |s.heap| + 1
  {
    var link := g.slots[pos];
    var u, candidate := g.src[link], cost + MaxReal(g.cost[link], EDGE_COST_FLOOR);
    if g.blocked[link] || candidate >= s.dist[u] then s
    else Search(s.dist[u := candidate], s.heap + [HeapState(candidate, u)])
  }

  function RelaxEntries(g: IncomingGraph, s: Search, cost: real, lo: nat, hi: nat): (r: Search)
    requires |s.dist| == g.nodeCount && lo <= hi <= |g.slots|
    ensures |r.dist| == |s.dist| && |r.heap| <= |s.heap| + (hi - lo)
    decreases hi
  {
    if lo == hi then s else RelaxEntry(g, RelaxEntries(g, s, cost, lo, hi - 1), cost, hi - 1)
  }

  lemma ListRange(g: IncomingGraph, node: nat)
    requires node < g.nodeCount
    ensures 0 <= g.indptr[node] <= g.indptr[node + 1] <= |g.slots|
  {
  }

  /** After popping `top`: a stale entry changes nothing, a current one relaxes its node's list. */
  function AfterPop(g: IncomingGraph, dist: seq<real>, top: HeapState, rest: seq<HeapState>): Search
    requires |dist| == g.nodeCount && top.node < g.nodeCount
  {
    ListRange(g, top.node);
    if top.cost > dist[top.node] then Search(dist, rest)
    else RelaxEntries(g, Search(dist, rest), top.cost, g.indptr[top.node], g.indptr[top.node + 1])
  }

  ghost predicate Pops(heap: seq<HeapState>, top: HeapState, rest: seq<HeapState>) {
    && multiset(heap) == multiset(rest) + multiset{top}
    && forall x :: x in rest ==> Precedes(top, x)
  }

  ghost predicate PopLeadsTo(g: IncomingGraph, s: Search, t: Search, top: HeapState, rest: seq<HeapState>) {
    && |s.dist| == g.nodeCount && top.node < g.nodeCount
    && Pops(s.heap, top, rest) && t == AfterPop(g, s.dist, top, rest)
  }

  ghost predicate IsPop(g: IncomingGraph, s: Search, t: Search) {
    exists top, rest :: PopLeadsTo(g, s, t, top, rest)
  }

  function StartOfSearch(g: IncomingGraph, destination: nat): Search {
    Search(seq(g.nodeCount, v => if v == destination then 0.0 else ROUTING_INF_COST), [HeapState(0.0, destination)])
  }

  ghost predicate PopAt(g: IncomingGraph, states: seq<Search>, k: nat) {
    var next := k + 1;
    next < |states| ==> IsPop(g, states[k], states[next])
  }

  /** A search: from the start, each state follows from the one before by one pop. */
  ghost predicate IsSearch(g: IncomingGraph, destination: nat, states: seq<Search>) {
    states != [] && states[0] == StartOfSearch(g, destination) && forall k: nat :: PopAt(g, states, k)
  }

  // ----- What every search keeps

  /** One entry either leaves the state alone, with nothing to gain, or improves one label. */
  lemma RelaxEntryCases(g: IncomingGraph, s: Search, v: nat, pos: nat)
    requires |s.dist| == g.nodeCount && v < g.nodeCount
    requires 0 <= g.indptr[v] <= pos < g.indptr[v + 1] <= |g.slots|
    ensures var link := g.slots[pos];
            var u, candidate := g.src[link], s.dist[v] + Floored(g.cost)[link];
            var r := RelaxEntry(g, s, s.dist[v], pos);
            if g.blocked[link] || candidate >= s.dist[u] then r == s
            else r == Search(s.dist[u := candidate], s.heap + [HeapState(candidate, u)])
                 && Improves(g, s.dist, v, pos, u, candidate)
  {
  }

  lemma RelaxEntryKeeps(g: IncomingGraph, destination: nat, s: Search, done: seq<bool>, v: nat, pos: nat,
                        r: Search, next: nat)
    requires Expanding(g, destination, s.dist, s.heap, done, v, pos)
    requires 0 <= g.indptr[v] <= pos < g.indptr[v + 1] <= |g.slots| && next == pos + 1
    requires r == RelaxEntry(g, s, s.dist[v], pos)
    ensures |r.dist| == |s.dist| && r.dist[v] == s.dist[v]
    ensures Expanding(g, destination, r.dist, r.heap, done, v, next)
  {
    RelaxEntryCases(g, s, v, pos);
    var link := g.slots[pos];
    var u, candidate := g.src[link], s.dist[v] + Floored(g.cost)[link];
    if g.blocked[link] || candidate >= s.dist[u] {
      ExpandSkipping(g, destination, r.dist, r.heap, done, v, pos, next);
    } else {
      ExpandImproving(g, destination, s.dist, s.heap, done, v, pos, u, candidate, r.dist, r.heap, next);
    }
  }

  lemma {:induction false} RelaxEntriesKeep(g: IncomingGraph, destination: nat, s: Search, done: seq<bool>,
                                            v: nat, cost: real, hi: nat, r: Search)
    requires v < |s.dist| == g.nodeCount && 0 <= g.indptr[v] <= hi <= g.indptr[v + 1] <= |g.slots|
    requires Expanding(g, destination, s.dist, s.heap, done, v, g.indptr[v])
    requires cost == s.dist[v] && r == RelaxEntries(g, s, cost, g.indptr[v], hi)
    ensures r.dist[v] == cost && Expanding(g, destination, r.dist, r.heap, done, v, hi)
    decreases hi
  {
    if g.indptr[v] == hi {
      assert r.dist == s.dist && r.heap == s.heap;
    } else {
      var pos := hi - 1;
      var before := RelaxEntries(g, s, cost, g.indptr[v], pos);
      RelaxEntriesKeep(g, destination, s, done, v, cost, pos, before);
      RelaxEntryKeeps(g, destination, before, done, v, pos, r, hi);
    }
  }

  /** One pop: a stale entry is dropped, a current one starts the expansion of its node and uses
      up its share of the adjacency entries. */
  lemma PopStep(g: IncomingGraph, destination: nat, dist: seq<real>, heap: seq<HeapState>,
                done: seq<bool>, last: real, top: HeapState, rest: seq<HeapState>)
    requires Searching(g, destination, dist, heap, done, last)
    requires multiset(heap) == multiset(rest) + multiset{top}
    requires forall x :: x in rest ==> Precedes(top, x)
    ensures top.node < |dist| && dist[top.node] <= top.cost
    ensures Unscanned(g.indptr, done, |dist|) >= 0
    ensures top.cost > dist[top.node] ==> Searching(g, destination, dist, rest, done, top.cost)
    ensures top.cost == dist[top.node] ==>
              var v := top.node;
              var expanded := done[v := true];
              && 0 <= g.indptr[v] <= g.indptr[v + 1] <= |g.slots|
              && Expanding(g, destination, dist, rest, expanded, v, g.indptr[v])
              && Unscanned(g.indptr, expanded, |dist|)
                 == Unscanned(g.indptr, done, |dist|) - (g.indptr[v + 1] - g.indptr[v])
  {
    PopKeepsFrontier(dist, heap, done, last, top, rest);
    UnscannedNonNegative(g.indptr, done, |dist|);
    if top.cost == dist[top.node] {
      UnscannedExpand(g.indptr, done, top.node, |dist|);
    }
  }

  lemma PopKeepsSearching(g: IncomingGraph, destination: nat, s: Search, done: seq<bool>, last: real,
                          top: HeapState, rest: seq<HeapState>)
    returns (done': seq<bool>)
    requires Searching(g, destination, s.dist, s.heap, done, last) && Pops(s.heap, top, rest)
    ensures top.node < g.nodeCount
    ensures var t := AfterPop(g, s.dist, top, rest);
            && Searching(g, destination, t.dist, t.heap, done', top.cost)
            && 0 <= Unscanned(g.indptr, done', |t.dist|)
            && |t.heap| + Unscanned(g.indptr, done', |t.dist|) < |s.heap| + Unscanned(g.indptr, done, |s.dist|)
  {
    PopStep(g, destination, s.dist, s.heap, done, last, top, rest);
    assert |s.heap| == |multiset(s.heap)| == |multiset(rest)| + 1 == |rest| + 1;
    var v := top.node;
    if top.cost > s.dist[v] {
      done' := done;
    } else {
      done' := done[v := true];
      RelaxEntriesKeep(g, destination, Search(s.dist, rest), done', v, top.cost, g.indptr[v + 1],
                       AfterPop(g, s.dist, top, rest));
      UnscannedNonNegative(g.indptr, done', |s.dist|);
    }
  }

  /** In the state after `k` pops, entries still in the heap and entries still to be scanned leave
      room for all the pops: lazy deletion never expands a node twice. */
  lemma {:induction false} SearchKeeps(g: IncomingGraph, destination: nat, states: seq<Search>, k: nat)
    returns (done: seq<bool>, last: real)
    requires destination < g.nodeCount && IsSearch(g, destination, states) && k < |states|
    ensures Searching(g, destination, states[k].dist, states[k].heap, done, last)
    ensures 0 <= Unscanned(g.indptr, done, g.nodeCount)
    ensures k + |states[k].heap| + Unscanned(g.indptr, done, g.nodeCount) <= 1 + |g.src|
  {
    if k == 0 {
      done, last := seq(g.nodeCount, _ => false), 0.0;
      InitialState(g, destination, states[0].dist, done);
    } else {
      var before := k - 1;
      var done0, last0 := SearchKeeps(g, destination, states, before);
      assert PopAt(g, states, before);
      var top, rest :| PopLeadsTo(g, states[before], states[k], top, rest);
      done := PopKeepsSearching(g, destination, states[before], done0, last0, top, rest);
      last := top.cost;
    }
  }

  /** Every search ends after at most 1 + link_count pops. */
  lemma SearchIsShort(g: IncomingGraph, destination: nat, states: seq<Search>)
    requires destination < g.nodeCount && IsSearch(g, destination, states)
    ensures |states| - 1 + |states[|states| - 1].heap| <= 1 + |g.src|
  {
    var done, last := SearchKeeps(g, destination, states, |states| - 1);
  }

  /** A search whose heap has drained has exact labels, whatever it popped among equals. */
  lemma DrainedSearchIsExact(g: IncomingGraph, destination: nat, states: seq<Search>)
    requires destination < g.nodeCount && IsSearch(g, destination, states)
    requires states[|states| - 1].heap == []
    ensures ExactCostToGo(g, states[|states| - 1].dist, destination)
  {
    var done, last := SearchKeeps(g, destination, states, |states| - 1);
    DrainedIsExact(g, destination, states[|states| - 1].dist, done, last);
  }

  lemma DrainedIsExact(g: IncomingGraph, destination: nat, dist: seq<real>, done: seq<bool>, last: real)
    requires Searching(g, destination, dist, [], done, last)
    ensures ExactCostToGo(g, dist, destination)
  {
    forall v, arcs | 0 <= v < |dist| && Route(g, v, arcs, destination)
      ensures dist[v] <= Cost(Floored(g.cost), arcs)
    {
      RelaxedIsLowerBound(g, dist, destination, v, arcs);
    }
  }

  // ----- The loop

  /** Relaxes the entries of the list of `node`, popped at `cost`. */
  method ExpandNode(g: IncomingGraph, dist: array<real>, heap: seq<HeapState>, node: nat, cost: real)
    returns (next: seq<HeapState>)
    requires node < g.nodeCount == dist.Length
    requires 0 <= g.indptr[node] <= g.indptr[node + 1] <= |g.slots|
    modifies dist
    ensures Search(dist[..], next) ==
            RelaxEntries(g, Search(old(dist[..]), heap), cost, g.indptr[node], g.indptr[node + 1])
  {
    next := heap;
    ghost var s := Search(dist[..], heap);
    for pos := g.indptr[node] to g.indptr[node + 1]
      invariant Search(dist[..], next) == RelaxEntries(g, s, cost, g.indptr[node], pos)
    {
      var link := g.slots[pos];
      if g.blocked[link] {
        continue;
      }
      var prev := g.src[link];
      var candidate := cost + MaxReal(g.cost[link], EDGE_COST_FLOOR);
      if candidate < dist[prev] {
        ghost var labels := dist[..];
        dist[prev] := candidate;
        assert dist[..] == labels[prev := candidate];
        next := next + [HeapState(candidate, prev)];
      }
    }
  }

  /** The search itself, on a validated graph, with the states it passes through: it is a search
      that drains its heap, so its labels are exact and it has popped at most 1 + link_count
      times. */
  method ReverseDijkstra(g: IncomingGraph, destination: nat)
    returns (costs: seq<real>, ghost states: seq<Search>)
    requires destination < g.nodeCount
    ensures IsSearch(g, destination, states) && states[|states| - 1] == Search(costs, [])
    ensures ExactCostToGo(g, costs, destination)
    ensures |states| - 1 <= 1 + |g.src|
  {
    var dist := new real[g.nodeCount](_ => ROUTING_INF_COST);
    dist[destination] := 0.0;
    var heap := [HeapState(0.0, destination)];
    states := [Search(dist[..], heap)];
    while |heap| > 0
      invariant IsSearch(g, destination, states)
      invariant states[|states| - 1] == Search(dist[..], heap)
      decreases 2 + |g.src| - |states|
    {
      var top, rest := PopGreatest(heap, LOWER_PRIORITY);
      SearchIsShort(g, destination, states);
      TopIsNode(g, destination, states, top, rest);
      ghost var before := dist[..];
      if top.cost > dist[top.node] {
        heap := rest;
      } else {
        ListRange(g, top.node);
        heap := ExpandNode(g, dist, rest, top.node, top.cost);
      }
      states := NextState(g, destination, states, top, rest, Search(dist[..], heap));
    }
    SearchIsShort(g, destination, states);
    DrainedSearchIsExact(g, destination, states);
    costs := dist[..];
  }

  lemma TopIsNode(g: IncomingGraph, destination: nat, states: seq<Search>, top: HeapState, rest: seq<HeapState>)
    requires destination < g.nodeCount && IsSearch(g, destination, states)
    requires Pops(states[|states| - 1].heap, top, rest)
    ensures |states[|states| - 1].dist| == g.nodeCount && top.node < g.nodeCount
  {
    var done, last := SearchKeeps(g, destination, states, |states| - 1);
    PopKeepsFrontier(states[|states| - 1].dist, states[|states| - 1].heap, done, last, top, rest);
  }

  ghost function NextState(g: IncomingGraph, destination: nat, states: seq<Search>, top: HeapState,
                           rest: seq<HeapState>, t: Search): (longer: seq<Search>)
    requires IsSearch(g, destination, states) && PopLeadsTo(g, states[|states| - 1], t, top, rest)
    ensures IsSearch(g, destination, longer)
    ensures longer == states + [t]
  {
    assert forall k: nat :: PopAt(g, states, k) ==> PopAt(g, states + [t], k);
    states + [t]
  }

  method ComputeNodeCosts(input: IncomingInput, destination: nat)
    returns (r: Result<seq<real>, PotentialError>)
    ensures r.Ok? <==> ValidIncoming(input) && destination < input.nodeCount
    ensures r.Err? ==> ValidateIncoming(input, destination) == Err(r.error)
    ensures r.Ok? ==> ExactCostToGo(input, r.value, destination) && CheapestCosts(input, r.value, destination)
  {
    var check := ValidateIncoming(input, destination);
    if check.Err? {
      return Err(check.error);
    }
    var costs, _ := ReverseDijkstra(input, destination);
    ExactIsCheapest(input, costs, destination);
    return Ok(costs);
  }
}
