/** Candidate generation end to end: potential, then the greedy or the ranked search over it. */
module RouteCandidates {
  import opened Results
  import opened RoadArcs
  import opened Potentials
  import opened RouteNetwork
  import opened LegalRoutes
  import Greedy = GreedyRoute
  import Ranked = RankedRoutes

  /** With no turn record, every turn is open; enough hops for any simple route; and a route
      from the origin whose cost the searches accept. */
  ghost predicate Unrestricted(req: Request) {
    && req.origin != req.destination
    && req.turnFrom == []
    && req.maxHops >= req.nodeCount - 1
    && req.costToGo[req.origin] < ROUTING_INF_COST * 0.5
    && forall i :: 0 <= i < |req.cost| ==> req.cost[i] > 0.0
  }

  /** Following tight arcs from any partial route ends in a legal route that costs the label. */
  lemma {:induction false} TightRoute(req: Request, arcs: seq<Arc>, node: nat) returns (route: seq<Arc>)
    requires Consistent(req) && Tight(req) && Unrestricted(req)
    requires PartialRoute(req, arcs, node) && node < req.nodeCount && |arcs| < req.nodeCount
    requires Cost(req.cost, arcs) + req.costToGo[node] == req.costToGo[req.origin]
    requires forall v :: v in Nodes(req.origin, arcs) ==>
               v < req.nodeCount && (v == node || req.costToGo[v] > req.costToGo[node])
    ensures LegalRoute(req, route) && Cost(req.cost, route) == req.costToGo[req.origin]
    decreases req.nodeCount - |arcs|
  {
    if node == req.destination {
      route := arcs;
    } else {
      CostNonNegative(req, arcs);
      assert HasTightArc(req, node);
      var a :| TightArc(req, node, a);
      NodesAppend(req.origin, arcs, a);
      ExtendPartialRoute(req, arcs, node, a);
      CostAppend(req.cost, arcs, a);
      DistinctCount(Nodes(req.origin, arcs), req.nodeCount, a.head);
      route := TightRoute(req, arcs + [a], a.head);
    }
  }

  /** A non-empty ranked answer starts with a route that costs exactly the origin's label. */
  lemma FirstAnswerIsOptimal(req: Request, routes: seq<seq<Arc>>, paths: seq<seq<int>>)
    requires Consistent(req) && Tight(req) && Unrestricted(req)
    requires Ranked.Answers(req, routes, paths) && Ranked.CheapestFirst(req, routes, paths)
    requires routes != []
    ensures Cost(req.cost, routes[0]) == req.costToGo[req.origin]
  {
    assert Nodes(req.origin, []) == [req.origin];
    var best := TightRoute(req, [], req.origin);
    ConsistentIsLowerBound(req, req.origin, routes[0]);
    assert Ranked.Wanted(req, best);
    assert Ranked.Foremost(req, routes[0], paths[..0]);
  }

  datatype CandidateError = MaxCandidatesBelowOne | Potential(p: PotentialError) | Rejected(s: RouteError)

  /** The request with a cost table of the network's size: what the search validator can say about
      a template before any potential is known. */
  function WithTable(template: RouteInput, nodeCount: nat): RouteInput {
    template.(costToGo := seq(nodeCount, _ => 0.0))
  }

  /** The validator looks at the length and the signs of the cost table only. */
  lemma TableDoesNotMatter(template: RouteInput, table: seq<real>)
    requires NonNegative(table)
    ensures Validate(template.(costToGo := table)) == Validate(WithTable(template, |table|))
  {
  }

  /** The single candidate is the greedy walk's, if it arrives. */
  ghost predicate GreedyDecides(req: Request, paths: seq<seq<int>>) {
    exists trail, node ::
      && Greedy.GreedyTrail(req, trail, node) && Greedy.Ended(req, trail, node)
      && paths == if node == req.destination && trail != [] then [Ids(req, trail)] else []
  }

  /** The Rust branch of candidate generation. It succeeds exactly when the candidate limit, the
      incoming network and the request are valid, with the first error otherwise. Every path is
      the id sequence of a legal route; on a shared network the paths are a cheapest-first prefix
      of the wanted routes, complete up to any cost that the limit on expansions reaches; and
      where turns are unrestricted a single candidate always exists and every first candidate
      costs the exact cost-to-go of the origin. */
  method BuildCandidatePaths(g: IncomingInput, template: RouteInput, maxCandidates: nat)
    returns (r: Result<seq<seq<int>>, CandidateError>, ghost req: RouteInput, ghost routes: seq<seq<Arc>>)
    ensures r.Ok? <==> && maxCandidates > 0 && ValidIncoming(g) && template.destination < g.nodeCount
                       && ValidInput(WithTable(template, g.nodeCount))
    ensures maxCandidates == 0 ==> r == Err(MaxCandidatesBelowOne)
    ensures maxCandidates > 0 && ValidateIncoming(g, template.destination).Err? ==>
              r == Err(Potential(ValidateIncoming(g, template.destination).error))
    ensures && maxCandidates > 0 && ValidateIncoming(g, template.destination).Ok?
            && Validate(WithTable(template, g.nodeCount)).Err? ==>
              r == Err(Rejected(Validate(WithTable(template, g.nodeCount)).error))
    ensures r.Ok? ==> ValidInput(req) && req == template.(costToGo := req.costToGo)
    ensures r.Ok? ==> ExactCostToGo(g, req.costToGo, template.destination)
    ensures r.Ok? ==> |r.value| <= maxCandidates && Ranked.Answers(req, routes, r.value)
    ensures r.Ok? && maxCandidates == 1 ==> GreedyDecides(req, r.value)
    ensures r.Ok? && SharedNetwork(g, req) && maxCandidates > 1 ==>
              && Ranked.CheapestFirst(req, routes, r.value)
              && (|r.value| < maxCandidates ==>
                    && Ranked.CompleteWithin(req, r.value, 16 * maxCandidates)
                    && Ranked.CompleteWithin(req, r.value, 4 * |req.linkIds| * maxCandidates))
    ensures r.Ok? && SharedNetwork(g, req) && Unrestricted(req) ==>
              && (maxCandidates == 1 ==> |r.value| == 1)
              && (routes == [] || Cost(req.cost, routes[0]) == req.costToGo[req.origin])
  {
    req, routes := template, [];
    if maxCandidates == 0 {
      return Err(MaxCandidatesBelowOne), template, [];
    }
    var potential := ComputeNodeCosts(g, template.destination);
    if potential.Err? {
      return Err(Potential(potential.error)), template, [];
    }
    var input := template.(costToGo := potential.value);
    req := input;
    TableDoesNotMatter(template, potential.value);
    if maxCandidates == 1 {
      var path, trail, node := Greedy.ComputeGreedyRoute(input);
      if path.Err? {
        return Err(Rejected(path.error)), input, [];
      }
      GreedyCandidate(g, input, trail, node);
      if path.value == [] {
        return Ok([]), input, [];
      }
      return Ok([path.value]), input, [trail];
    }
    var paths, found, _ := Ranked.ComputeRankedRoutes(input, maxCandidates);
    if paths.Err? {
      return Err(Rejected(paths.error)), input, [];
    }
    RankedCandidates(g, input, found, paths.value);
    return Ok(paths.value), input, found;
  }

  lemma GreedyCandidate(g: IncomingGraph, req: Request, trail: seq<Arc>, node: nat)
    requires ExactCostToGo(g, req.costToGo, req.destination) && req.destination < g.nodeCount
    requires Greedy.GreedyTrail(req, trail, node) && Greedy.Ended(req, trail, node)
    ensures node == req.destination && trail != [] ==> LegalRoute(req, trail)
    ensures SharedNetwork(g, req) && Unrestricted(req) ==>
              && node == req.destination && trail != []
              && Cost(req.cost, trail) == req.costToGo[req.origin]
  {
    if node == req.destination && trail != [] {
      assert Nodes(req.origin, trail[..|trail| - 1])[0] == req.origin;
      Greedy.GreedyAnswerIsLegal(req, trail);
    }
    if SharedNetwork(g, req) && Unrestricted(req) {
      ExactIsConsistentAndTight(g, req);
      Greedy.GreedyIsOptimal(req, trail, node);
    }
  }

  lemma RankedCandidates(g: IncomingGraph, req: Request, routes: seq<seq<Arc>>, paths: seq<seq<int>>)
    requires ExactCostToGo(g, req.costToGo, req.destination) && req.destination < g.nodeCount
    requires Ranked.Answers(req, routes, paths)
    requires Consistent(req) ==> Ranked.CheapestFirst(req, routes, paths)
    ensures SharedNetwork(g, req) ==> Consistent(req) && Ranked.CheapestFirst(req, routes, paths)
    ensures SharedNetwork(g, req) && Unrestricted(req) && routes != [] ==>
              Cost(req.cost, routes[0]) == req.costToGo[req.origin]
  {
    if SharedNetwork(g, req) {
      ExactIsConsistentAndTight(g, req);
      if Unrestricted(req) && routes != [] {
        FirstAnswerIsOptimal(req, routes, paths);
      }
    }
  }
}
