/** What makes a route legal, what a cost-to-go table owes the searches, and how an exact table
    for the incoming graph provides it. */
module LegalRoutes {
  import opened RoadArcs
  import opened RouteNetwork
  import opened Potentials

  function IdOf(req: Request, link: nat): int {
    if link < |req.linkIds| then req.linkIds[link] else -1
  }

  ghost function Ids(req: Request, arcs: seq<Arc>): seq<int> {
    seq(|arcs|, i requires 0 <= i < |arcs| => IdOf(req, arcs[i].link))
  }

  /** The link a traveller comes from before the arc at position `k`. */
  ghost function IncomingAt(incoming: int, arcs: seq<Arc>, k: nat): int
    requires k <= |arcs|
  {
    if k == 0 then incoming else arcs[k - 1].link
  }

  /** `visited` marks exactly the nodes of `nodes`. */
  ghost predicate Marks(visited: seq<bool>, nodes: seq<nat>) {
    forall v :: 0 <= v < |visited| ==> (visited[v] <==> v in nodes)
  }

  ghost predicate TurnsOpen(req: Request, arcs: seq<Arc>)
  {
    forall i :: 0 <= i < |arcs| ==> TurnAllowed(req, IncomingAt(req.incoming, arcs, i), arcs[i].link)
  }

  ghost predicate AllOutgoing(req: Request, arcs: seq<Arc>) {
    forall a :: a in arcs ==> OutgoingArc(req, a)
  }

  /** A node-simple, unblocked chain from the origin to `node` that respects every turn rule. */
  ghost predicate PartialRoute(req: Request, arcs: seq<Arc>, node: nat)
  {
    && Chain(req.origin, arcs, node)
    && AllOutgoing(req, arcs)
    && NodeSimple(req.origin, arcs)
    && TurnsOpen(req, arcs)
  }

  ghost predicate LegalRoute(req: Request, arcs: seq<Arc>)
  {
    arcs != [] && |arcs| <= req.maxHops && PartialRoute(req, arcs, req.destination)
  }

  lemma ExtendPartialRoute(req: Request, arcs: seq<Arc>, node: nat, a: Arc)
    requires PartialRoute(req, arcs, node)
    requires a.tail == node && OutgoingArc(req, a)
    requires TurnAllowed(req, IncomingAt(req.incoming, arcs, |arcs|), a.link)
    requires a.head !in Nodes(req.origin, arcs)
    ensures PartialRoute(req, arcs + [a], a.head)
  {
    ChainAppend(req.origin, arcs, node, a);
    NodesAppend(req.origin, arcs, a);
    assert forall i :: 0 <= i < |arcs| ==>
      IncomingAt(req.incoming, arcs + [a], i) == IncomingAt(req.incoming, arcs, i);
  }

  lemma PartialRoutePrefix(req: Request, arcs: seq<Arc>, node: nat, k: nat)
    requires PartialRoute(req, arcs, node) && k < |arcs|
    ensures PartialRoute(req, arcs[..k], NodeAfter(req.origin, arcs, k))
    ensures arcs[k].tail == NodeAfter(req.origin, arcs, k)
    ensures OutgoingArc(req, arcs[k])
    ensures TurnAllowed(req, IncomingAt(req.incoming, arcs[..k], k), arcs[k].link)
    ensures arcs[k].head !in Nodes(req.origin, arcs[..k])
  {
    ChainSplit(req.origin, arcs, node, k);
    NodesPrefix(req.origin, arcs, k);
    assert Nodes(req.origin, arcs)[k + 1] == arcs[k].head;
    assert forall i :: 0 <= i < k ==> IncomingAt(req.incoming, arcs[..k], i) == IncomingAt(req.incoming, arcs, i);
    assert IncomingAt(req.incoming, arcs[..k], k) == IncomingAt(req.incoming, arcs, k);
  }

  // ----- Properties of the cost-to-go table

  /** No link lets the table drop by more than its cost, and the destination stands at 0. */
  ghost predicate Consistent(req: Request)
  {
    && req.costToGo[req.destination] == 0.0
    && forall a :: OutgoingArc(req, a) ==>
         req.costToGo[a.tail] <= req.cost[a.link] + req.costToGo[a.head]
  }

  /** Every labelled node has a link that pays for the whole drop. */
  ghost predicate Tight(req: Request)
  {
    forall u: nat {:trigger HasTightArc(req, u)} ::
      u < req.nodeCount && u != req.destination && req.costToGo[u] < ROUTING_INF_COST ==>
        HasTightArc(req, u)
  }

  ghost predicate HasTightArc(req: Request, u: nat)
  {
    u < req.nodeCount && exists a :: TightArc(req, u, a)
  }

  ghost predicate TightArc(req: Request, u: nat, a: Arc)
    requires u < req.nodeCount
  {
    a.tail == u && OutgoingArc(req, a) && req.costToGo[u] == req.cost[a.link] + req.costToGo[a.head]
  }

  /** A consistent table is a lower bound on the cost of reaching the destination. */
  lemma {:induction false} ConsistentIsLowerBound(req: Request, u: nat, arcs: seq<Arc>)
    requires Consistent(req)
    requires Chain(u, arcs, req.destination) && AllOutgoing(req, arcs) && u < req.nodeCount
    ensures req.costToGo[u] <= Cost(req.cost, arcs)
    decreases |arcs|
  {
    if arcs != [] {
      assert OutgoingArc(req, arcs[0]);
      ConsistentIsLowerBound(req, arcs[0].head, arcs[1..]);
    }
  }

  lemma {:induction false} CostNonNegative(req: Request, arcs: seq<Arc>)
    ensures Cost(req.cost, arcs) >= 0.0
    decreases |arcs|
  {
    if arcs != [] {
      CostNonNegative(req, arcs[1..]);
    }
  }

  // ----- From the incoming graph to the outgoing one

  ghost predicate ListedIncoming(g: IncomingGraph, a: Arc) {
    Listed(g.indptr, g.slots, a.head, a.link) && a.link < |g.src| && g.src[a.link] == a.tail
  }

  ghost predicate ListedOutgoing(req: Request, a: Arc) {
    Listed(req.indptr, req.slots, a.tail, a.link) && a.link < |req.dst| && req.dst[a.link] == a.head
  }

  /** What the optimality theorems ask of the caller and no validator checks: the two CSR
      structures are transposes of one another, the tables are shared, and no link is cheaper
      than the floor the labels are computed with. */
  ghost predicate SharedNetwork(g: IncomingGraph, req: Request) {
    && g.nodeCount == req.nodeCount && |g.src| == |req.linkIds|
    && g.cost == req.cost && g.blocked == req.blocked
    && (forall a :: ListedIncoming(g, a) <==> ListedOutgoing(req, a))
    && (forall i :: 0 <= i < |req.cost| ==> req.cost[i] >= EDGE_COST_FLOOR)
  }

  lemma SharedArcs(g: IncomingGraph, req: Request)
    requires SharedNetwork(g, req)
    ensures forall a :: IncomingArc(g, a) <==> OutgoingArc(req, a)
    ensures Floored(g.cost) == req.cost
  {
    forall a ensures IncomingArc(g, a) <==> OutgoingArc(req, a) {
      assert ListedIncoming(g, a) <==> ListedOutgoing(req, a);
    }
  }

  /** Exact labels are consistent and tight: the Bellman equations. */
  lemma ExactIsConsistentAndTight(g: IncomingGraph, req: Request)
    requires SharedNetwork(g, req)
    requires ExactCostToGo(g, req.costToGo, req.destination)
    ensures Consistent(req) && Tight(req)
  {
    SharedArcs(g, req);
    var w := Floored(g.cost);
    assert Route(g, req.destination, [], req.destination) && Cost(w, []) == 0.0;
    forall a | OutgoingArc(req, a)
      ensures req.costToGo[a.tail] <= req.cost[a.link] + req.costToGo[a.head]
    {
      ExactRelaxes(g, req.costToGo, req.destination, a);
    }
    forall u: nat | u < req.nodeCount && u != req.destination && req.costToGo[u] < ROUTING_INF_COST
      ensures HasTightArc(req, u)
    {
      var arcs :| Route(g, u, arcs, req.destination) && Cost(w, arcs) == req.costToGo[u];
      var a := arcs[0];
      assert IncomingArc(g, a);
      assert Route(g, a.head, arcs[1..], req.destination);
      ExactRelaxes(g, req.costToGo, req.destination, a);
      assert TightArc(req, u, a);
    }
  }

  lemma ExactRelaxes(g: IncomingGraph, dist: seq<real>, destination: nat, a: Arc)
    requires ExactCostToGo(g, dist, destination) && IncomingArc(g, a)
    ensures dist[a.tail] <= Floored(g.cost)[a.link] + dist[a.head]
  {
    var w := Floored(g.cost);
    if dist[a.head] < ROUTING_INF_COST {
      var arcs :| Route(g, a.head, arcs, destination) && Cost(w, arcs) == dist[a.head];
      assert ([a] + arcs)[1..] == arcs;
      assert Route(g, a.tail, [a] + arcs, destination);
      assert Cost(w, [a] + arcs) == w[a.link] + Cost(w, arcs);
    }
  }

  // ----- Counting nodes

  lemma {:induction false} DistinctCount(s: seq<nat>, n: nat, missing: nat)
    requires Distinct(s) && (forall i :: 0 <= i < |s| ==> s[i] < n)
    requires missing < n && missing !in s
    ensures |s| < n
  {
    var elements := set x | x in s;
    DistinctSetSize(s, elements);
    assert elements <= Below(n) - {missing};
    SubsetSize(elements, Below(n) - {missing});
  }

  lemma {:induction false} DistinctSetSize(s: seq<nat>, elements: set<nat>)
    requires Distinct(s) && elements == set x | x in s
    ensures |elements| == |s|
  {
    if s != [] {
      var rest := set x | x in s[1..];
      assert elements == rest + {s[0]};
      assert s[0] !in rest;
      DistinctSetSize(s[1..], rest);
    }
  }

  ghost function Below(n: nat): (r: set<nat>)
    ensures |r| == n && forall x: nat :: x in r <==> x < n
  {
    if n == 0 then {} else Below(n - 1) + {n - 1}
  }

  lemma SubsetSize<T>(a: set<T>, b: set<T>)
    requires a <= b
    ensures |a| <= |b|
  {
    assert b == a + (b - a);
  }
}
