/** The greedy route: follow the cheapest legal link until the destination. */
module GreedyRoute {
  import opened Results
  import opened RoadArcs
  import opened RouteNetwork
  import opened LegalRoutes

  /** `link` is the choice at `node`: legal, and first by total cost and then by link id. */
  ghost predicate BestChoice(req: Request, node: nat, incoming: int, link: nat)
  {
    && LegalNext(req, node, incoming, link)
    && forall other: nat :: LegalNext(req, node, incoming, other) ==> NoLater(req, link, other)
  }

  ghost predicate GreedyStep(req: Request, trail: seq<Arc>, i: nat)
    requires i < |trail|
  {
    && BestChoice(req, trail[i].tail, IncomingAt(req.incoming, trail, i), trail[i].link)
    && trail[i].head == req.dst[trail[i].link]
  }

  /** The walk taken from the origin: a best choice at every node, no node entered twice before
      the last step, and the destination entered at the last step at most. */
  ghost predicate GreedyTrail(req: Request, trail: seq<Arc>, node: nat) {
    && |trail| <= req.maxHops
    && Chain(req.origin, trail, node)
    && (forall i: nat :: i < |trail| ==> GreedyStep(req, trail, i))
    && (trail != [] ==> Approaching(req, trail[..|trail| - 1]))
  }

  ghost predicate Approaching(req: Request, trail: seq<Arc>) {
    NodeSimple(req.origin, trail) && req.destination !in Nodes(req.origin, trail)
  }

  /** Why the walk ended at `node`. */
  ghost predicate Ended(req: Request, trail: seq<Arc>, node: nat)
  {
    || node == req.destination
    || !NodeSimple(req.origin, trail)
    || |trail| == req.maxHops
    || forall link: nat :: !LegalNext(req, node, IncomingAt(req.incoming, trail, |trail|), link)
  }

  /** The loop on a validated request: it follows best legal links until the destination, a dead
      end, a node seen before or the hop limit. */
  method FollowBestLinks(req: Request)
    returns (answer: seq<int>, ghost trail: seq<Arc>, ghost node: nat)
    requires req.origin != req.destination
    ensures GreedyTrail(req, trail, node) && Ended(req, trail, node)
    ensures answer == if node == req.destination then Ids(req, trail) else []
  {
    trail, node := [], req.origin;
    var current, incoming := req.origin, req.incoming;
    var visited := new bool[req.nodeCount](_ => false);
    visited[current] := true;
    var path := [];
    var lookup := BuildTurnLookup(req);
    for hop := 0 to req.maxHops
      invariant |trail| == hop && node == current < req.nodeCount && current != req.destination
      invariant GreedyTrail(req, trail, current) && Approaching(req, trail)
      invariant incoming == IncomingAt(req.incoming, trail, hop) < |req.linkIds|
      invariant path == Ids(req, trail)
      invariant Marks(visited[..], Nodes(req.origin, trail))
    {
      var next := BestLegalNext(req, lookup, current, incoming);
      if next.None? {
        return [], trail, node;
      }
      var link := next.value;
      ghost var a := Arc(current, link, req.dst[link]);
      TrailAppend(req, trail, current, a);
      VisitNode(req, trail, a, visited[..]);
      trail := trail + [a];
      path := path + [req.linkIds[link]];
      incoming := link;
      current := req.dst[link];
      node := current;
      if current == req.destination {
        return path, trail, node;
      }
      if visited[current] {
        return [], trail, node;
      }
      ghost var marks := visited[..];
      visited[current] := true;
      assert visited[..] == marks[current := true];
    }
    return [], trail, node;
  }

  /** The walk of the search and its answer: the link ids when the walk reaches the destination,
      the empty path otherwise. */
  method ComputeGreedyRoute(input: RouteInput)
    returns (r: Result<seq<int>, RouteError>, ghost trail: seq<Arc>, ghost node: nat)
    ensures r.Ok? <==> ValidInput(input)
    ensures r.Err? ==> Validate(input) == Err(r.error)
    ensures r.Ok? ==> GreedyTrail(input, trail, node) && Ended(input, trail, node)
    ensures r.Ok? ==> r.value == if node == input.destination then Ids(input, trail) else []
  {
    var check := Validate(input);
    if check.Err? {
      return Err(check.error), [], 0;
    }
    if input.origin == input.destination {
      return Ok([]), [], input.origin;
    }
    var answer;
    answer, trail, node := FollowBestLinks(input);
    return Ok(answer), trail, node;
  }

  /** What one more arc does to the visited marks, the ids and the nodes. */
  lemma VisitNode(req: Request, trail: seq<Arc>, a: Arc, visited: seq<bool>)
    requires Approaching(req, trail) && Marks(visited, Nodes(req.origin, trail))
    requires a.head < |visited| && a.link < |req.linkIds|
    ensures Ids(req, trail + [a]) == Ids(req, trail) + [req.linkIds[a.link]]
    ensures visited[a.head] ==> !NodeSimple(req.origin, trail + [a])
    ensures !visited[a.head] && a.head != req.destination ==> Approaching(req, trail + [a])
    ensures Marks(visited[a.head := true], Nodes(req.origin, trail + [a]))
  {
    NodesAppend(req.origin, trail, a);
    var nodes := Nodes(req.origin, trail);
    if visited[a.head] {
      var i :| 0 <= i < |nodes| && nodes[i] == a.head;
      assert (nodes + [a.head])[i] == (nodes + [a.head])[|nodes|];
    }
  }

  lemma TrailAppend(req: Request, trail: seq<Arc>, node: nat, a: Arc)
    requires GreedyTrail(req, trail, node) && Approaching(req, trail) && |trail| < req.maxHops
    requires a.tail == node && BestChoice(req, node, IncomingAt(req.incoming, trail, |trail|), a.link)
    requires a.head == req.dst[a.link]
    ensures GreedyTrail(req, trail + [a], a.head)
  {
    ChainAppend(req.origin, trail, node, a);
    var next := trail + [a];
    assert next[..|next| - 1] == trail;
    forall i: nat | i < |next| ensures GreedyStep(req, next, i) {
      assert IncomingAt(req.incoming, next, i) == IncomingAt(req.incoming, trail, i);
      if i < |trail| {
        assert GreedyStep(req, trail, i);
      }
    }
  }

  /** A non-empty greedy answer is a legal route. */
  lemma GreedyAnswerIsLegal(req: Request, trail: seq<Arc>)
    requires req.origin != req.destination
    requires GreedyTrail(req, trail, req.destination)
    ensures LegalRoute(req, trail)
  {
    assert trail != [];
    var before, a := trail[..|trail| - 1], trail[|trail| - 1];
    assert trail == before + [a];
    ChainEnd(req.origin, trail, req.destination);
    NodesAppend(req.origin, before, a);
    forall b | b in trail ensures OutgoingArc(req, b) {
      var i :| 0 <= i < |trail| && trail[i] == b;
      assert GreedyStep(req, trail, i);
    }
    forall i | 0 <= i < |trail|
      ensures TurnAllowed(req, IncomingAt(req.incoming, trail, i), trail[i].link)
    {
      assert GreedyStep(req, trail, i);
    }
  }

  /** Each greedy step over a consistent and tight table pays exactly the drop of the table. */
  lemma {:induction false} GreedyPaysTheDrop(req: Request, trail: seq<Arc>, node: nat, k: nat)
    requires Consistent(req) && Tight(req) && req.turnFrom == []
    requires GreedyTrail(req, trail, node) && k <= |trail| && req.origin != req.destination
    requires req.costToGo[req.origin] < ROUTING_INF_COST * 0.5
    ensures NodeAfter(req.origin, trail, k) < req.nodeCount
    ensures Cost(req.cost, trail[..k]) + req.costToGo[NodeAfter(req.origin, trail, k)] == req.costToGo[req.origin]
    ensures req.costToGo[NodeAfter(req.origin, trail, k)] < ROUTING_INF_COST * 0.5
    decreases k
  {
    if k == 0 {
      assert trail[..0] == [];
    } else {
      GreedyPaysTheDrop(req, trail, node, k - 1);
      var u, a := NodeAfter(req.origin, trail, k - 1), trail[k - 1];
      ChainSplit(req.origin, trail, node, k - 1);
      assert GreedyStep(req, trail, k - 1);
      assert Nodes(req.origin, trail[..|trail| - 1])[k - 1] == u;
      CostNonNegative(req, trail[..k - 1]);
      TightStep(req, u, IncomingAt(req.incoming, trail, k - 1), a);
      PrefixStep(trail, k - 1);
      CostAppend(req.cost, trail[..k - 1], a);
    }
  }

  lemma TightStep(req: Request, u: nat, incoming: int, a: Arc)
    requires Consistent(req) && Tight(req) && req.turnFrom == []
    requires u < req.nodeCount && u != req.destination && req.costToGo[u] < ROUTING_INF_COST * 0.5
    requires a.tail == u && BestChoice(req, u, incoming, a.link) && a.head == req.dst[a.link]
    ensures req.cost[a.link] + req.costToGo[a.head] == req.costToGo[u]
  {
    assert HasTightArc(req, u);
    var t :| TightArc(req, u, t);
    assert LegalNext(req, u, incoming, t.link);
    assert OutgoingArc(req, a);
  }

  lemma TrailAvoidsDestination(req: Request, trail: seq<Arc>, node: nat)
    requires GreedyTrail(req, trail, node) && req.origin != req.destination && node != req.destination
    ensures req.destination !in Nodes(req.origin, trail)
  {
    if trail != [] {
      var before, a := trail[..|trail| - 1], trail[|trail| - 1];
      assert trail == before + [a];
      ChainEnd(req.origin, trail, node);
      NodesAppend(req.origin, before, a);
    }
  }

  /** Over a consistent and tight table, with open turns, positive costs and enough hops, the
      walk reaches the destination and costs exactly the origin's label. */
  lemma GreedyIsOptimal(req: Request, trail: seq<Arc>, node: nat)
    requires req.origin != req.destination
    requires Consistent(req) && Tight(req) && req.turnFrom == []
    requires forall i :: 0 <= i < |req.cost| ==> req.cost[i] > 0.0
    requires req.costToGo[req.origin] < ROUTING_INF_COST * 0.5
    requires req.maxHops >= req.nodeCount - 1
    requires GreedyTrail(req, trail, node) && Ended(req, trail, node)
    ensures node == req.destination
    ensures Cost(req.cost, trail) == req.costToGo[req.origin]
  {
    GreedyPaysTheDrop(req, trail, node, |trail|);
    ChainEnd(req.origin, trail, node);
    assert trail[..|trail|] == trail;
    if node != req.destination {
      assert HasTightArc(req, node);
      var t :| TightArc(req, node, t);
      assert LegalNext(req, node, IncomingAt(req.incoming, trail, |trail|), t.link);
      GreedyNeverRevisits(req, trail, node);
      TrailAvoidsDestination(req, trail, node);
      var nodes := Nodes(req.origin, trail);
      forall i | 0 <= i < |nodes| ensures nodes[i] < req.nodeCount {
        GreedyPaysTheDrop(req, trail, node, i);
      }
      DistinctCount(nodes, req.nodeCount, req.destination);
      assert false;
    }
  }

  /** The labels along the walk fall strictly, so no node is entered twice. */
  lemma GreedyNeverRevisits(req: Request, trail: seq<Arc>, node: nat)
    requires req.origin != req.destination
    requires Consistent(req) && Tight(req) && req.turnFrom == []
    requires forall i :: 0 <= i < |req.cost| ==> req.cost[i] > 0.0
    requires req.costToGo[req.origin] < ROUTING_INF_COST * 0.5
    requires GreedyTrail(req, trail, node)
    ensures NodeSimple(req.origin, trail)
  {
    var nodes := Nodes(req.origin, trail);
    forall i, j | 0 <= i < j < |nodes| ensures nodes[i] != nodes[j] {
      GreedyPaysTheDrop(req, trail, node, i);
      GreedyPaysTheDrop(req, trail, node, j);
      forall k | 0 <= k < |trail| ensures trail[k].link < |req.cost| {
        assert GreedyStep(req, trail, k);
      }
      PositiveStretch(req, trail, i, j);
    }
  }

  lemma {:induction false} PositiveStretch(req: Request, trail: seq<Arc>, i: nat, j: nat)
    requires i < j <= |trail|
    requires forall k :: 0 <= k < |req.cost| ==> req.cost[k] > 0.0
    requires forall k :: 0 <= k < |trail| ==> trail[k].link < |req.cost|
    ensures Cost(req.cost, trail[..i]) < Cost(req.cost, trail[..j])
    decreases j - i
  {
    PrefixStep(trail, j - 1);
    CostAppend(req.cost, trail[..j - 1], trail[j - 1]);
    if i < j - 1 {
      PositiveStretch(req, trail, i, j - 1);
    }
  }
}
