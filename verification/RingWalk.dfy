/** Recognising a closed ring of roads by walking around it. */
module RingWalk {
  import opened Results

  datatype Road = Road(start: int, end: int)

  /** The ends of the roads at `node`, seen from it: a road back to the node counts twice. */
  ghost function Neighbours(roads: seq<Road>, node: int): multiset<int> {
    if roads == [] then multiset{}
    else
      var r := roads[|roads| - 1];
      Neighbours(roads[..|roads| - 1], node)
        + (if r.start == node then multiset{r.end} else multiset{})
        + (if r.end == node then multiset{r.start} else multiset{})
  }

  ghost predicate Distinct(order: seq<int>) {
    forall i, j :: 0 <= i < j < |order| ==> order[i] != order[j]
  }

  function After(i: nat, n: nat): nat
    requires i < n
  {
    if i + 1 == n then 0 else i + 1
  }

  function Before(i: nat, n: nat): nat
    requires i < n
  {
    if i == 0 then n - 1 else i - 1
  }

  /** `order` lists the nodes of the roads once each, every node's neighbours are the previous
      and the next node of the order, going round, and no other road exists. Two nodes joined by
      two roads do not make a ring. */
  ghost predicate IsRing(roads: seq<Road>, order: seq<int>) {
    && order != [] && |order| != 2
    && Distinct(order)
    && (forall r :: r in roads ==> r.start in order && r.end in order)
    && forall i: nat :: i < |order| ==>
         Neighbours(roads, order[i]) == multiset{order[Before(i, |order|)], order[After(i, |order|)]}
  }

  // ----- Facts about neighbours

  lemma {:induction false} NeighboursAreMutual(roads: seq<Road>, u: int, v: int)
    ensures Neighbours(roads, u)[v] == Neighbours(roads, v)[u]
  {
    if roads != [] {
      NeighboursAreMutual(roads[..|roads| - 1], u, v);
    }
  }

  lemma {:induction false} LoopsCountTwice(roads: seq<Road>, n: int)
    ensures Neighbours(roads, n)[n] % 2 == 0
  {
    if roads != [] {
      LoopsCountTwice(roads[..|roads| - 1], n);
    }
  }

  lemma {:induction false} NeighboursComeFromRoads(roads: seq<Road>, n: int)
    ensures Neighbours(roads, n) != multiset{} <==> exists r :: r in roads && (r.start == n || r.end == n)
  {
    if roads != [] {
      var rest, r := roads[..|roads| - 1], roads[|roads| - 1];
      NeighboursComeFromRoads(rest, n);
      assert roads == rest + [r];
      assert r in roads;
      if r.start == n {
        assert r.end in Neighbours(roads, n);
      } else if r.end == n {
        assert r.start in Neighbours(roads, n);
      } else {
        assert Neighbours(roads, n) == Neighbours(rest, n);
      }
    }
  }

  // ----- Counting ends

  ghost function DegreeSum(roads: seq<Road>, order: seq<int>): nat {
    if order == [] then 0 else DegreeSum(roads, order[..|order| - 1]) + |Neighbours(roads, order[|order| - 1])|
  }

  function Inside(order: seq<int>, n: int): nat {
    if n in order then 1 else 0
  }

  lemma InsideOneMore(order: seq<int>, n: int)
    requires order != [] && Distinct(order)
    ensures Inside(order, n) == Inside(order[..|order| - 1], n) + if order[|order| - 1] == n then 1 else 0
  {
    assert order == order[..|order| - 1] + [order[|order| - 1]];
  }

  lemma OneRoadMoreAt(roads: seq<Road>, n: int)
    requires roads != []
    ensures var r := roads[|roads| - 1];
            |Neighbours(roads, n)| ==
              |Neighbours(roads[..|roads| - 1], n)| + (if r.start == n then 1 else 0) + (if r.end == n then 1 else 0)
  {
  }

  lemma {:induction false} OneRoadMore(roads: seq<Road>, order: seq<int>)
    requires roads != [] && Distinct(order)
    ensures var r := roads[|roads| - 1];
            DegreeSum(roads, order) ==
              DegreeSum(roads[..|roads| - 1], order) + Inside(order, r.start) + Inside(order, r.end)
  {
    if order != [] {
      var before, last := order[..|order| - 1], order[|order| - 1];
      var r := roads[|roads| - 1];
      OneRoadMore(roads, before);
      OneRoadMoreAt(roads, last);
      InsideOneMore(order, r.start);
      InsideOneMore(order, r.end);
    }
  }

  lemma {:induction false} NoRoads(order: seq<int>)
    ensures DegreeSum([], order) == 0
  {
    if order != [] {
      NoRoads(order[..|order| - 1]);
    }
  }

  /** Distinct nodes see at most two ends per road, and all of them only if every end is listed. */
  lemma {:induction false} EndsCovered(roads: seq<Road>, order: seq<int>)
    requires Distinct(order)
    ensures DegreeSum(roads, order) <= 2 * |roads|
    ensures DegreeSum(roads, order) == 2 * |roads| <==> forall r :: r in roads ==> r.start in order && r.end in order
  {
    if roads == [] {
      NoRoads(order);
    } else {
      var rest, r := roads[..|roads| - 1], roads[|roads| - 1];
      EndsCovered(rest, order);
      OneRoadMore(roads, order);
      assert roads == rest + [r];
      assert r in roads;
    }
  }

  lemma {:induction false} TwoEach(roads: seq<Road>, order: seq<int>)
    requires forall i :: 0 <= i < |order| ==> |Neighbours(roads, order[i])| == 2
    ensures DegreeSum(roads, order) == 2 * |order|
  {
    if order != [] {
      TwoEach(roads, order[..|order| - 1]);
    }
  }

  /** A ring has as many roads as nodes. */
  lemma RingSize(roads: seq<Road>, ring: seq<int>)
    requires IsRing(roads, ring)
    ensures |roads| == |ring|
  {
    TwoEach(roads, ring);
    EndsCovered(roads, ring);
  }

  lemma {:induction false} SubsetLength(a: seq<int>, b: seq<int>)
    requires Distinct(a) && forall x :: x in a ==> x in b
    ensures |a| <= |b|
  {
    if a != [] {
      var last := a[|a| - 1];
      assert last in a;
      var k :| 0 <= k < |b| && b[k] == last;
      var without := b[..k] + b[k + 1..];
      forall x | x in a[..|a| - 1] ensures x in without {
        assert x in a;
        var j :| 0 <= j < |b| && b[j] == x;
        assert x == if j < k then without[j] else without[j - 1];
      }
      SubsetLength(a[..|a| - 1], without);
    }
  }

  // ----- Why a failed walk rules out every ring

  lemma RingNode(roads: seq<Road>, ring: seq<int>, n: int) returns (i: nat)
    requires IsRing(roads, ring) && Neighbours(roads, n) != multiset{}
    ensures i < |ring| && ring[i] == n && |Neighbours(roads, n)| == 2
  {
    NeighboursComeFromRoads(roads, n);
    var r :| r in roads && (r.start == n || r.end == n);
    i :| 0 <= i < |ring| && ring[i] == n;
  }

  /** In a ring no node is joined twice to one other node. */
  lemma RingHasNoDoubledRoad(roads: seq<Road>, ring: seq<int>, n: int, other: int)
    requires IsRing(roads, ring) && n != other
    ensures Neighbours(roads, n)[other] <= 1
  {
    if Neighbours(roads, n) != multiset{} {
      var i := RingNode(roads, ring, n);
      var b, a := Before(i, |ring|), After(i, |ring|);
      assert Neighbours(roads, ring[i]) == multiset{ring[b], ring[a]};
      if |ring| > 1 {
        assert b != a;
      }
    }
  }

  ghost predicate ClosedUnder(roads: seq<Road>, nodes: seq<int>) {
    forall n, m :: n in nodes && m in Neighbours(roads, n) ==> m in nodes
  }

  lemma {:induction false} RingStaysInside(roads: seq<Road>, ring: seq<int>, nodes: seq<int>, i: nat, j: nat)
    requires IsRing(roads, ring) && ClosedUnder(roads, nodes)
    requires i < |ring| && j < |ring| && ring[i] in nodes
    ensures ring[j] in nodes
    decreases if i <= j then j - i else j - i + |ring|
  {
    if i != j {
      assert ring[After(i, |ring|)] in Neighbours(roads, ring[i]);
      RingStaysInside(roads, ring, nodes, After(i, |ring|), j);
    }
  }

  /** A closed set of distinct nodes that meets a ring has the ring's size. */
  lemma ClosedWalkHasRingSize(roads: seq<Road>, ring: seq<int>, nodes: seq<int>)
    requires IsRing(roads, ring) && ClosedUnder(roads, nodes) && Distinct(nodes) && nodes != []
    requires forall n :: n in nodes ==> Neighbours(roads, n) != multiset{}
    ensures |nodes| == |roads|
  {
    var i := RingNode(roads, ring, nodes[0]);
    forall n | n in ring ensures n in nodes {
      var j :| 0 <= j < |ring| && ring[j] == n;
      RingStaysInside(roads, ring, nodes, i, j);
    }
    forall n | n in nodes ensures n in ring {
      var j := RingNode(roads, ring, n);
    }
    SubsetLength(ring, nodes);
    SubsetLength(nodes, ring);
    RingSize(roads, ring);
  }

  // ----- The adjacency lists

  function Listed(adjacency: map<int, seq<int>>, n: int): seq<int> {
    if n in adjacency then adjacency[n] else []
  }

  ghost predicate ListsNeighbours(roads: seq<Road>, adjacency: map<int, seq<int>>, n: int) {
    multiset(Listed(adjacency, n)) == Neighbours(roads, n)
  }

  ghost predicate IsAdjacency(roads: seq<Road>, adjacency: map<int, seq<int>>) {
    && (forall n :: ListsNeighbours(roads, adjacency, n))
    && forall n :: n in adjacency ==> Listed(adjacency, n) != []
  }

  function WithEnd(adjacency: map<int, seq<int>>, at: int, end: int): (r: map<int, seq<int>>)
    ensures forall n :: Listed(r, n) == if n == at then Listed(adjacency, n) + [end] else Listed(adjacency, n)
  {
    adjacency[at := Listed(adjacency, at) + [end]]
  }

  function WithRoad(adjacency: map<int, seq<int>>, r: Road): map<int, seq<int>> {
    WithEnd(WithEnd(adjacency, r.start, r.end), r.end, r.start)
  }

  lemma AddRoad(roads: seq<Road>, adjacency: map<int, seq<int>>, r: Road, more: seq<Road>)
    requires IsAdjacency(roads, adjacency) && more == roads + [r]
    ensures IsAdjacency(more, WithRoad(adjacency, r))
  {
    var half := WithEnd(adjacency, r.start, r.end);
    var full := WithEnd(half, r.end, r.start);
    forall n ensures ListsNeighbours(more, full, n) {
      assert ListsNeighbours(roads, adjacency, n);
      AddRoadAt(roads, r, n, Listed(adjacency, n), Listed(half, n), Listed(full, n));
    }
  }

  lemma AddRoadAt(roads: seq<Road>, r: Road, n: int, before: seq<int>, half: seq<int>, after: seq<int>)
    requires multiset(before) == Neighbours(roads, n)
    requires half == if r.start == n then before + [r.end] else before
    requires after == if r.end == n then half + [r.start] else half
    ensures multiset(after) == Neighbours(roads + [r], n)
  {
    assert (roads + [r])[..|roads|] == roads;
  }

  lemma NoAdjacency()
    ensures IsAdjacency([], map[])
  {
    var none: map<int, seq<int>> := map[];
    forall n ensures ListsNeighbours([], none, n) {
      assert Neighbours([], n) == multiset{};
    }
  }

  method BuildAdjacency(roads: seq<Road>) returns (adjacency: map<int, seq<int>>)
    ensures IsAdjacency(roads, adjacency)
  {
    adjacency := map[];
    NoAdjacency();
    for k := 0 to |roads|
      invariant IsAdjacency(roads[..k], adjacency)
    {
      AddRoad(roads[..k], adjacency, roads[k], roads[..k + 1]);
      adjacency := WithRoad(adjacency, roads[k]);
    }
    assert roads[..|roads|] == roads;
  }

  // ----- The walk

  /** The neighbours of every node, when each has two. */
  type Net = map<int, multiset<int>>

  ghost predicate TwoRegular(net: Net) {
    && (forall n :: n in net ==> |net[n]| == 2)
    && (forall u, v :: u in net && v in net[u] ==> v in net && net[v][u] == net[u][v])
    && (forall n :: n in net ==> net[n][n] % 2 == 0)
  }

  lemma TwoElements(m: multiset<int>, a: int, b: int)
    requires |m| == 2 && a in m && b in m && a != b
    ensures m == multiset{a, b}
  {
    assert m == multiset{a, b} + (m - multiset{a, b});
  }

  lemma OnlyOneKind(m: multiset<int>, p: int)
    requires forall n :: n in m ==> n == p
    ensures |m| == m[p]
    ensures m[p] == 2 ==> m == multiset{p, p}
  {
    var rest := m[p := 0];
    forall n ensures rest[n] == 0 {
      assert n in m ==> n == p;
    }
    assert rest == multiset{};
    assert m == rest[p := m[p]];
  }

  ghost predicate Adjacent(net: Net, ordered: seq<int>, i: nat)
    requires i + 1 < |ordered|
  {
    ordered[i] in net && ordered[i + 1] in net[ordered[i]]
  }

  ghost predicate InnerNode(net: Net, ordered: seq<int>, i: nat)
    requires 0 < i && i + 1 < |ordered|
  {
    ordered[i] in net && net[ordered[i]] == multiset{ordered[i - 1], ordered[i + 1]}
  }

  /** The walk so far: distinct nodes, each next to the one before; inner nodes have no other
      neighbours; it starts at the least node and turns to that node's lesser neighbour. */
  ghost predicate Walking(net: Net, ordered: seq<int>) {
    && ordered != [] && Distinct(ordered)
    && (forall i :: 0 <= i < |ordered| ==> ordered[i] in net)
    && (forall i: nat :: i + 1 < |ordered| ==> Adjacent(net, ordered, i))
    && (forall i: nat :: 0 < i && i + 1 < |ordered| ==> InnerNode(net, ordered, i))
    && (forall n :: n in net ==> ordered[0] <= n)
    && (|ordered| > 1 ==> forall n :: n in net[ordered[0]] ==> ordered[1] <= n)
  }

  function Previous(ordered: seq<int>): Option<int> {
    if |ordered| < 2 then None else Some(ordered[|ordered| - 2])
  }

  /** The least listed neighbour other than the node just left. */
  function Following(neighbours: seq<int>, previous: Option<int>): (f: Option<int>)
    ensures f.None? <==> forall n :: n in neighbours ==> previous == Some(n)
    ensures f.Some? ==> f.value in neighbours && previous != f
    ensures f.Some? ==> forall n :: n in neighbours && previous != Some(n) ==> f.value <= n
  {
    if neighbours == [] then None
    else
      var rest, last := Following(neighbours[..|neighbours| - 1], previous), neighbours[|neighbours| - 1];
      assert neighbours == neighbours[..|neighbours| - 1] + [last];
      if previous == Some(last) then rest
      else if rest.Some? && rest.value <= last then rest
      else Some(last)
  }

  /** Past the start, the node walked to and the node left are all the neighbours. */
  lemma BothNeighbours(net: Net, ordered: seq<int>, f: int)
    requires TwoRegular(net) && Walking(net, ordered) && |ordered| > 1
    requires f in net[ordered[|ordered| - 1]] && f != ordered[|ordered| - 2]
    ensures net[ordered[|ordered| - 1]] == multiset{ordered[|ordered| - 2], f}
  {
    var n := |ordered|;
    assert Adjacent(net, ordered, n - 2);
    TwoElements(net[ordered[n - 1]], ordered[n - 2], f);
  }

  /** The walk never meets one of its own nodes but the start: the source's guard against it
      never fires. */
  lemma NextIsNew(net: Net, ordered: seq<int>, f: int)
    requires TwoRegular(net) && Walking(net, ordered) && f in net[ordered[|ordered| - 1]]
    requires Previous(ordered) != Some(f) && f != ordered[0]
    ensures f !in ordered
  {
    var last := |ordered| - 1;
    if last > 0 {
      BothNeighbours(net, ordered, f);
    }
    assert ordered[last] in net[f];
    forall m | 0 <= m < |ordered| ensures ordered[m] != f {
      if 0 < m && m + 1 < last {
        InnerNodeIsFar(net, ordered, m);
      }
    }
  }

  lemma InnerNodeIsFar(net: Net, ordered: seq<int>, m: nat)
    requires Walking(net, ordered) && 0 < m && m + 1 < |ordered| - 1
    ensures ordered[m] in net && ordered[|ordered| - 1] !in net[ordered[m]]
  {
    assert InnerNode(net, ordered, m);
  }

  lemma StepOn(net: Net, ordered: seq<int>, f: int)
    requires TwoRegular(net) && Walking(net, ordered) && f in net[ordered[|ordered| - 1]]
    requires Previous(ordered) != Some(f) && f != ordered[0]
    requires |ordered| == 1 ==> forall n :: n in net[ordered[0]] ==> f <= n
    ensures f !in ordered && Walking(net, ordered + [f])
  {
    NextIsNew(net, ordered, f);
    var next := ordered + [f];
    forall i: nat | i + 1 < |next| ensures Adjacent(net, next, i) {
      if i + 1 < |ordered| {
        assert Adjacent(net, ordered, i);
      }
    }
    forall i: nat | 0 < i && i + 1 < |next| ensures InnerNode(net, next, i) {
      if i + 1 < |ordered| {
        assert InnerNode(net, ordered, i);
      } else {
        BothNeighbours(net, ordered, f);
      }
    }
  }

  /** Nowhere to go: both roads lead back. */
  lemma DeadEnd(net: Net, ordered: seq<int>, neighbours: seq<int>)
    requires TwoRegular(net) && Walking(net, ordered)
    requires net[ordered[|ordered| - 1]] == multiset(neighbours)
    requires Following(neighbours, Previous(ordered)).None?
    ensures |ordered| > 1
    ensures var n := |ordered|; net[ordered[n - 1]] == multiset{ordered[n - 2], ordered[n - 2]}
  {
    var c := ordered[|ordered| - 1];
    var around := net[c];
    assert c in net;
    assert |net[c]| == 2;
    assert |around| == 2 && around == multiset(neighbours);
    assert |multiset(neighbours)| == |neighbours|;
    assert neighbours[0] in neighbours;
    forall n | n in around ensures Previous(ordered) == Some(n) {
      assert n in neighbours;
    }
    OnlyOneKind(around, neighbours[0]);
  }

  ghost predicate Between(net: Net, order: seq<int>, i: nat)
    requires i < |order|
  {
    order[i] in net && net[order[i]] == multiset{order[Before(i, |order|)], order[After(i, |order|)]}
  }

  ghost predicate AllBetween(net: Net, ordered: seq<int>) {
    forall i: nat :: i < |ordered| ==> Between(net, ordered, i)
  }

  /** Back at the start: every node walked has its two walk neighbours and no other. */
  lemma ClosesUp(net: Net, ordered: seq<int>)
    requires TwoRegular(net) && Walking(net, ordered) && ordered[0] in net[ordered[|ordered| - 1]]
    requires Previous(ordered) != Some(ordered[0])
    ensures |ordered| != 2 && AllBetween(net, ordered)
    ensures |ordered| > 1 ==> ordered[1] < ordered[|ordered| - 1]
  {
    var n := |ordered|;
    if n == 1 {
      SelfLoop(net, ordered[0]);
    } else {
      BothNeighbours(net, ordered, ordered[0]);
      assert Adjacent(net, ordered, 0);
      assert ordered[n - 1] in net[ordered[0]];
      TwoElements(net[ordered[0]], ordered[n - 1], ordered[1]);
      forall i: nat | i < n ensures Between(net, ordered, i) {
        if 0 < i && i + 1 < n {
          assert InnerNode(net, ordered, i);
        }
      }
    }
  }

  lemma SelfLoop(net: Net, n: int)
    requires TwoRegular(net) && n in net && n in net[n]
    ensures net[n] == multiset{n, n}
  {
    var around := net[n];
    assert around[n] >= 2;
    assert around == multiset{n, n} + (around - multiset{n, n});
  }

  // ----- From the walk back to the roads

  ghost function NetOf(adjacency: map<int, seq<int>>): Net {
    map n | n in adjacency :: multiset(adjacency[n])
  }

  predicate AllPairs(adjacency: map<int, seq<int>>) {
    forall n :: n in adjacency ==> |adjacency[n]| == 2
  }

  lemma NetShowsNeighbours(roads: seq<Road>, adjacency: map<int, seq<int>>, n: int)
    requires IsAdjacency(roads, adjacency)
    ensures n in adjacency <==> Neighbours(roads, n) != multiset{}
    ensures n in adjacency ==> NetOf(adjacency)[n] == Neighbours(roads, n)
  {
    assert ListsNeighbours(roads, adjacency, n);
    if n in adjacency {
      var list := Listed(adjacency, n);
      assert list != [];
      assert list[0] in multiset(list);
    }
  }

  lemma NetIsTwoRegular(roads: seq<Road>, adjacency: map<int, seq<int>>)
    requires IsAdjacency(roads, adjacency) && AllPairs(adjacency)
    ensures TwoRegular(NetOf(adjacency))
  {
    var net := NetOf(adjacency);
    forall n | n in net ensures |net[n]| == 2 && net[n][n] % 2 == 0 {
      assert |multiset(adjacency[n])| == |adjacency[n]|;
      NetShowsNeighbours(roads, adjacency, n);
      LoopsCountTwice(roads, n);
    }
    forall u, v | u in net && v in net[u] ensures v in net && net[v][u] == net[u][v] {
      NetShowsNeighbours(roads, adjacency, u);
      NetShowsNeighbours(roads, adjacency, v);
      NeighboursAreMutual(roads, u, v);
      assert u in Neighbours(roads, v);
    }
  }

  ghost predicate NoRing(roads: seq<Road>) {
    forall ring :: !IsRing(roads, ring)
  }

  lemma WrongDegree(roads: seq<Road>, adjacency: map<int, seq<int>>)
    requires IsAdjacency(roads, adjacency)
    requires |adjacency| == 0 || !AllPairs(adjacency)
    ensures NoRing(roads)
  {
    forall ring | IsRing(roads, ring) ensures false {
      NetShowsNeighbours(roads, adjacency, ring[0]);
      assert ring[After(0, |ring|)] in Neighbours(roads, ring[0]);
      var n :| n in adjacency && |adjacency[n]| != 2;
      NetShowsNeighbours(roads, adjacency, n);
      assert |multiset(adjacency[n])| == |adjacency[n]|;
      var i := RingNode(roads, ring, n);
    }
  }

  lemma StuckWalk(roads: seq<Road>, adjacency: map<int, seq<int>>, ordered: seq<int>)
    requires IsAdjacency(roads, adjacency) && AllPairs(adjacency) && Walking(NetOf(adjacency), ordered)
    requires Following(adjacency[ordered[|ordered| - 1]], Previous(ordered)).None?
    ensures NoRing(roads)
  {
    var n, p := ordered[|ordered| - 1], ordered[if |ordered| > 1 then |ordered| - 2 else 0];
    NetIsTwoRegular(roads, adjacency);
    DeadEnd(NetOf(adjacency), ordered, adjacency[n]);
    NetShowsNeighbours(roads, adjacency, n);
    forall ring ensures !IsRing(roads, ring) {
      if IsRing(roads, ring) {
        RingHasNoDoubledRoad(roads, ring, n, p);
      }
    }
  }

  lemma NeighboursBetween(roads: seq<Road>, adjacency: map<int, seq<int>>, ordered: seq<int>, i: nat)
    requires IsAdjacency(roads, adjacency) && i < |ordered| && Between(NetOf(adjacency), ordered, i)
    ensures Neighbours(roads, ordered[i])
         == multiset{ordered[Before(i, |ordered|)], ordered[After(i, |ordered|)]}
  {
    NetShowsNeighbours(roads, adjacency, ordered[i]);
  }

  /** A walk that closes up and uses as many nodes as there are roads is the ring. */
  lemma ClosedWalkIsRing(roads: seq<Road>, adjacency: map<int, seq<int>>, ordered: seq<int>)
    requires IsAdjacency(roads, adjacency) && AllBetween(NetOf(adjacency), ordered)
    requires ordered != [] && |ordered| != 2 && Distinct(ordered) && |ordered| == |roads|
    ensures IsRing(roads, ordered)
  {
    forall i: nat | i < |ordered|
      ensures Neighbours(roads, ordered[i])
           == multiset{ordered[Before(i, |ordered|)], ordered[After(i, |ordered|)]}
    {
      assert Between(NetOf(adjacency), ordered, i);
      NeighboursBetween(roads, adjacency, ordered, i);
    }
    TwoEach(roads, ordered);
    EndsCovered(roads, ordered);
  }

  /** A walk that closes up among fewer nodes shows that there is no ring. */
  lemma ShortWalkRulesOutRings(roads: seq<Road>, adjacency: map<int, seq<int>>, ordered: seq<int>)
    requires IsAdjacency(roads, adjacency) && AllBetween(NetOf(adjacency), ordered)
    requires ordered != [] && Distinct(ordered) && |ordered| != |roads|
    ensures NoRing(roads)
  {
    forall u, v | u in ordered && v in Neighbours(roads, u) ensures v in ordered {
      var i :| 0 <= i < |ordered| && ordered[i] == u;
      assert Between(NetOf(adjacency), ordered, i);
      NeighboursBetween(roads, adjacency, ordered, i);
    }
    forall u | u in ordered ensures Neighbours(roads, u) != multiset{} {
      var i :| 0 <= i < |ordered| && ordered[i] == u;
      assert Between(NetOf(adjacency), ordered, i);
      NetShowsNeighbours(roads, adjacency, u);
    }
    forall ring ensures !IsRing(roads, ring) {
      if IsRing(roads, ring) {
        ClosedWalkHasRingSize(roads, ring, ordered);
      }
    }
  }

  method LeastKey(adjacency: map<int, seq<int>>) returns (least: int)
    requires |adjacency| > 0
    ensures least in adjacency && forall n :: n in adjacency ==> least <= n
  {
    var keys := adjacency.Keys;
    assert |keys| > 0;
    ghost var some := SomeElement(keys);
    least :| least in keys;
    var rest := keys - {least};
    while rest != {}
      invariant rest <= keys && least in keys
      invariant forall n :: n in keys && n !in rest ==> least <= n
      decreases rest
    {
      ghost var other := SomeElement(rest);
      var n :| n in rest;
      rest := rest - {n};
      if n < least {
        least := n;
      }
    }
  }

  ghost function Unwalked(adjacency: map<int, seq<int>>, ordered: seq<int>): set<int> {
    adjacency.Keys - (set n | n in ordered)
  }

  lemma FewerUnwalked(adjacency: map<int, seq<int>>, ordered: seq<int>, next: int)
    requires next in adjacency && next !in ordered
    ensures Unwalked(adjacency, ordered + [next]) < Unwalked(adjacency, ordered)
  {
    assert next in Unwalked(adjacency, ordered);
  }

  /** Walks from the least node until it is back there, or stuck. */
  method WalkRound(adjacency: map<int, seq<int>>, start: int) returns (ordered: seq<int>, closed: bool)
    requires AllPairs(adjacency) && TwoRegular(NetOf(adjacency))
    requires start in adjacency && forall n :: n in adjacency ==> start <= n
    ensures Walking(NetOf(adjacency), ordered) && ordered[0] == start
    ensures closed ==> start in NetOf(adjacency)[ordered[|ordered| - 1]] && Previous(ordered) != Some(start)
    ensures !closed ==> Following(adjacency[ordered[|ordered| - 1]], Previous(ordered)).None?
  {
    ghost var net := NetOf(adjacency);
    ordered := [start];
    while true
      invariant Walking(net, ordered) && ordered[0] == start
      decreases Unwalked(adjacency, ordered)
    {
      var current := ordered[|ordered| - 1];
      assert current in net;
      var following := Following(adjacency[current], Previous(ordered));
      if following.None? {
        return ordered, false;
      }
      var next := following.value;
      assert next in net[current];
      if next == start {
        return ordered, true;
      }
      LesserFirst(adjacency, ordered, next);
      StepOn(net, ordered, next);
      assert next in net;
      FewerUnwalked(adjacency, ordered, next);
      ordered := ordered + [next];
    }
  }

  lemma LesserFirst(adjacency: map<int, seq<int>>, ordered: seq<int>, next: int)
    requires ordered != [] && ordered[|ordered| - 1] in adjacency
    requires Following(adjacency[ordered[|ordered| - 1]], Previous(ordered)) == Some(next)
    ensures |ordered| == 1 ==> forall n :: n in NetOf(adjacency)[ordered[0]] ==> next <= n
  {
    if |ordered| == 1 {
      forall n | n in NetOf(adjacency)[ordered[0]] ensures next <= n {
        assert n in adjacency[ordered[0]];
      }
    }
  }

  /** The nodes in ring order, from the least node towards its lesser neighbour, exactly when the
      roads form one ring; `None` exactly when they form none. */
  method OrderedCycleNodeIds(roads: seq<Road>) returns (r: Option<seq<int>>)
    ensures r.Some? ==> IsRing(roads, r.value)
    ensures r.Some? ==> forall n :: Neighbours(roads, n) != multiset{} ==> r.value[0] <= n
    ensures r.Some? && |r.value| > 1 ==> r.value[1] < r.value[|r.value| - 1]
    ensures r.None? <==> NoRing(roads)
  {
    var adjacency := BuildAdjacency(roads);
    if |adjacency| == 0 || !AllPairs(adjacency) {
      WrongDegree(roads, adjacency);
      return None;
    }
    NetIsTwoRegular(roads, adjacency);
    var start := LeastKey(adjacency);
    var ordered, closed := WalkRound(adjacency, start);
    if !closed {
      StuckWalk(roads, adjacency, ordered);
      return None;
    }
    ClosesUp(NetOf(adjacency), ordered);
    if |ordered| != |roads| {
      ShortWalkRulesOutRings(roads, adjacency, ordered);
      return None;
    }
    ClosedWalkIsRing(roads, adjacency, ordered);
    forall n | Neighbours(roads, n) != multiset{} ensures start <= n {
      NetShowsNeighbours(roads, adjacency, n);
    }
    return Some(ordered);
  }
}
