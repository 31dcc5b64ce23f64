/** What the ranked search answers on the simplest networks: a single open road. */
module OpenRoads {
  import opened Results
  import opened RoadArcs
  import opened RouteNetwork
  import opened LegalRoutes
  import opened RankedRoutes

  /** The only link that leaves the `k`th node of the road is the road's next one, and it is open. */
  ghost predicate OneWayOn(req: Request, road: seq<Arc>, k: nat)
    requires k < |road|
  {
    var a := road[k];
    && a.tail < req.nodeCount && a.link < |req.linkIds|
    && 0 <= req.indptr[a.tail] < |req.slots| && req.indptr[a.tail + 1] == req.indptr[a.tail] + 1
    && req.slots[req.indptr[a.tail]] == a.link
    && req.dst[a.link] == a.head && !req.blocked[a.link]
  }

  /** One road leads from the origin to the destination, without a fork, a bend back or a turn
      rule, and it is neither too long nor too dear. */
  ghost predicate IsOpenRoad(req: Request, road: seq<Arc>) {
    && road != [] && Chain(req.origin, road, req.destination)
    && (forall i, j :: 0 <= i < j <= |road| ==>
          NodeAfter(req.origin, road, i) != NodeAfter(req.origin, road, j))
    && (forall k: nat :: k < |road| ==> OneWayOn(req, road, k))
    && req.turnFrom == []
    && |road| <= req.maxHops && Cost(req.cost, road) < 500000000000.0
  }

  lemma RoadIsLegal(req: Request, road: seq<Arc>)
    requires IsOpenRoad(req, road)
    ensures Wanted(req, road)
  {
    forall a | a in road ensures OutgoingArc(req, a) {
      var k :| 0 <= k < |road| && road[k] == a;
      assert OneWayOn(req, road, k);
    }
  }

  /** Whoever leaves the `k`th node of the road takes the road's next link. */
  lemma NoOtherWay(req: Request, road: seq<Arc>, k: nat, link: nat)
    requires IsOpenRoad(req, road) && k < |road| && Listed(req.indptr, req.slots, road[k].tail, link)
    ensures link == road[k].link && req.dst[link] == road[k].head
  {
    assert OneWayOn(req, road, k);
  }

  /** A legal route follows the road as far as both go. */
  lemma {:induction false} FollowsRoad(req: Request, road: seq<Arc>, route: seq<Arc>, k: nat)
    requires IsOpenRoad(req, road) && LegalRoute(req, route) && k <= |road| && k <= |route|
    ensures route[..k] == road[..k]
  {
    if k > 0 {
      FollowsRoad(req, road, route, k - 1);
      ChainSplit(req.origin, road, req.destination, k - 1);
      ChainSplit(req.origin, route, req.destination, k - 1);
      assert OutgoingArc(req, route[k - 1]);
      SameNode(req, road, route, k - 1);
      NoOtherWay(req, road, k - 1, route[k - 1].link);
      PrefixStep(route, k - 1);
      PrefixStep(road, k - 1);
    }
  }

  lemma SameNode(req: Request, road: seq<Arc>, route: seq<Arc>, k: nat)
    requires k <= |road| && k <= |route| && route[..k] == road[..k]
    ensures NodeAfter(req.origin, road, k) == NodeAfter(req.origin, route, k)
  {
    if k > 0 {
      assert route[..k][k - 1] == road[..k][k - 1];
    }
  }

  lemma ArrivesOnce(req: Request, route: seq<Arc>, k: nat)
    requires LegalRoute(req, route) && k < |route|
    ensures NodeAfter(req.origin, route, k) != req.destination
  {
    ChainEnd(req.origin, route, req.destination);
    var nodes := Nodes(req.origin, route);
    assert nodes[k] != nodes[|route|];
  }

  /** The road is the only legal route. */
  lemma OnlyRoute(req: Request, road: seq<Arc>, route: seq<Arc>)
    requires IsOpenRoad(req, road) && LegalRoute(req, route)
    ensures route == road
  {
    ChainEnd(req.origin, road, req.destination);
    ChainEnd(req.origin, route, req.destination);
    var k := if |route| <= |road| then |route| else |road|;
    FollowsRoad(req, road, route, k);
    SameNode(req, road, route, k);
    if |road| < |route| {
      ArrivesOnce(req, route, k);
    }
    assert route[..k] == route && road[..k] == road;
  }

  /** From a state that stands on the road no more states are reached than links are left, and
      itself. */
  lemma {:induction false} RoadIsShort(req: Request, road: seq<Arc>, s: State, k: nat, bound: real)
    requires IsOpenRoad(req, road) && k <= |road| && Stands(req, s, road[..k])
    ensures Size(req, s, bound) <= |road| - k + 1
    decreases |road| - k
  {
    StandsAt(req, s, road, k);
    ChainEnd(req.origin, road, req.destination);
    if k < |road| && s.estimated <= bound && !Arrived(req, s) {
      ChainSplit(req.origin, road, req.destination, k);
      assert OneWayOn(req, road, k);
      var link := road[k].link;
      var pos := req.indptr[s.node];
      assert EntriesSize(req, s, bound, pos, pos) == 0;
      assert EntriesSize(req, s, bound, pos, pos + 1) == LinkSize(req, s, bound, link);
      if Opens(req, s, link) {
        ChildStands(req, s, road[..k], link, 0);
        PrefixStep(road, k);
        RoadIsShort(req, road, Child(req, s, link, 0), k + 1, bound);
      }
    }
  }

  lemma SearchIsSmall(req: Request, road: seq<Arc>, bound: real)
    requires IsOpenRoad(req, road)
    ensures SearchSize(req, bound) <= |road| + 1
  {
    assert road[..0] == [];
    StartStands(req);
    RoadIsShort(req, road, StartState(req), 0, bound);
  }

  lemma StartStands(req: Request)
    ensures Stands(req, StartState(req), [])
  {
    assert Nodes(req.origin, []) == [req.origin];
  }

  /** No link occurs twice on the road, since no node does. */
  lemma RoadFitsNetwork(req: Request, road: seq<Arc>)
    requires IsOpenRoad(req, road)
    ensures |road| <= |req.linkIds|
  {
    var links := seq(|road|, k requires 0 <= k < |road| => road[k].link);
    forall i, j | 0 <= i < j < |links| ensures links[i] != links[j] {
      assert OneWayOn(req, road, i) && OneWayOn(req, road, j);
      var p, q := i + 1, j + 1;
      assert NodeAfter(req.origin, road, p) != NodeAfter(req.origin, road, q);
    }
    forall i | 0 <= i < |links| ensures links[i] < |req.linkIds| {
      assert OneWayOn(req, road, i);
    }
    var elements := set x | x in links;
    DistinctSetSize(links, elements);
    assert elements <= Below(|req.linkIds|);
    SubsetSize(elements, Below(|req.linkIds|));
  }

  /** The limit on expansions is never met on an open road. */
  lemma RoadIsFound(req: Request, road: seq<Arc>, paths: seq<seq<int>>, maxCandidates: nat)
    requires IsOpenRoad(req, road) && maxCandidates > 0
    requires CompleteWithin(req, paths, 4 * |req.linkIds| * maxCandidates)
    ensures Ids(req, road) in paths
  {
    var bound, n := Cost(req.cost, road), 4 * |req.linkIds|;
    RoadIsLegal(req, road);
    SearchIsSmall(req, road, bound);
    RoadFitsNetwork(req, road);
    AtLeastOnce(n, maxCandidates);
    assert CompleteUpTo(req, paths, bound);
  }

  lemma AtLeastOnce(n: nat, times: nat)
    requires times > 0
    ensures n <= n * times
  {
    assert n * (times - 1) >= 0;
  }

  /** On an open road the ranked search answers with exactly that road, however many candidates are
      asked for. */
  lemma RoadIsAnswered(req: Request, road: seq<Arc>, routes: seq<seq<Arc>>, paths: seq<seq<int>>, maxCandidates: nat)
    requires IsOpenRoad(req, road) && maxCandidates > 0 && Answers(req, routes, paths)
    requires |paths| < maxCandidates ==> CompleteWithin(req, paths, 4 * |req.linkIds| * maxCandidates)
    ensures paths == [Ids(req, road)]
  {
    forall i | 0 <= i < |paths| ensures paths[i] == Ids(req, road) {
      OnlyRoute(req, road, routes[i]);
    }
    if |paths| < maxCandidates {
      RoadIsFound(req, road, paths, maxCandidates);
    }
    OneAnswer(paths, Ids(req, road));
  }

  lemma OneAnswer(paths: seq<seq<int>>, path: seq<int>)
    requires Distinct(paths) && paths != [] && forall i :: 0 <= i < |paths| ==> paths[i] == path
    ensures paths == [path]
  {
    if |paths| > 1 {
      TwoDiffer(paths, 0, 1);
    }
  }

  lemma TwoDiffer(paths: seq<seq<int>>, i: nat, j: nat)
    requires Distinct(paths) && i < j < |paths|
    ensures paths[i] != paths[j]
  {
  }

  /** The search itself, on an open road. */
  method RankOpenRoad(input: RouteInput, maxCandidates: nat, ghost road: seq<Arc>)
    returns (r: Result<seq<seq<int>>, RouteError>)
    requires ValidInput(input) && IsOpenRoad(input, road) && Consistent(input) && maxCandidates > 0
    ensures r == Ok([Ids(input, road)])
  {
    ghost var routes, stages;
    r, routes, stages := ComputeRankedRoutes(input, maxCandidates);
    RoadIsAnswered(input, road, routes, r.value, maxCandidates);
  }
}
