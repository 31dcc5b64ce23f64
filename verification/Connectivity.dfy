/** Weak connectivity of a road graph: components by breadth-first search. */
module Connectivity {
  import opened Results

  datatype Link = Link(id: int, src: int, dst: int)

  /** A street: its two end nodes, smaller id first. Both directions share one street. */
  datatype Street = Street(a: int, b: int)

  function StreetOf(link: Link): (s: Street)
    ensures s.a <= s.b
  {
    if link.src <= link.dst then Street(link.src, link.dst) else Street(link.dst, link.src)
  }

  ghost function Streets(links: seq<Link>): set<Street> {
    set l | l in links :: StreetOf(l)
  }

  /** `street` has one end in `side` and one outside. */
  ghost predicate Crosses(side: set<int>, street: Street) {
    (street.a in side) != (street.b in side)
  }

  ghost predicate Within(nodes: set<int>, street: Street) {
    street.a in nodes && street.b in nodes
  }

  /** No street joins `side` to the rest of the nodes. */
  ghost predicate Closed(nodes: set<int>, streets: set<Street>, side: set<int>) {
    side <= nodes && forall s :: s in streets && Within(nodes, s) ==> !Crosses(side, s)
  }

  /** A side is closed when no link joins it to the rest, in whatever direction. */
  lemma ClosedToLinks(nodes: set<int>, links: seq<Link>, side: set<int>)
    ensures Closed(nodes, Streets(links), side) <==>
              && side <= nodes
              && forall l :: l in links && l.src in nodes && l.dst in nodes ==> (l.src in side <==> l.dst in side)
  {
    if Closed(nodes, Streets(links), side) {
      forall l | l in links && l.src in nodes && l.dst in nodes ensures l.src in side <==> l.dst in side {
        assert StreetOf(l) in Streets(links) && Within(nodes, StreetOf(l));
        assert !Crosses(side, StreetOf(l));
      }
    }
  }

  /** Every way of splitting the nodes in two is bridged by a street. */
  ghost predicate Connected(nodes: set<int>, streets: set<Street>) {
    forall side :: Closed(nodes, streets, side) ==> side == {} || side == nodes
  }

  /** A component: closed, and inside every closed set it meets. */
  ghost predicate Component(nodes: set<int>, streets: set<Street>, c: set<int>) {
    && c != {} && Closed(nodes, streets, c)
    && forall side :: Closed(nodes, streets, side) && c * side != {} ==> c <= side
  }

  // ----- Components by breadth-first search

  ghost predicate IsAdjacency(nodes: set<int>, streets: set<Street>, adjacency: map<int, set<int>>) {
    && adjacency.Keys == nodes
    && forall u, v :: u in adjacency ==> (v in adjacency[u] <==>
         v in nodes && (Street(u, v) in streets || Street(v, u) in streets))
  }

  method BuildAdjacency(nodes: set<int>, links: seq<Link>) returns (adjacency: map<int, set<int>>)
    ensures IsAdjacency(nodes, Streets(links), adjacency)
  {
    adjacency := map n | n in nodes :: {};
    for i := 0 to |links|
      invariant IsAdjacency(nodes, Streets(links[..i]), adjacency)
    {
      var src, dst := links[i].src, links[i].dst;
      assert Streets(links[..i + 1]) == Streets(links[..i]) + {StreetOf(links[i])} by {
        assert links[..i + 1] == links[..i] + [links[i]];
      }
      if src !in adjacency || dst !in adjacency {
        continue;
      }
      adjacency := adjacency[src := adjacency[src] + {dst}];
      adjacency := adjacency[dst := adjacency[dst] + {src}];
    }
    assert links[..|links|] == links;
  }

  ghost function Elements(queue: seq<int>): set<int> {
    set n | n in queue
  }

  /** Breadth-first search from `start`, midway: the nodes of `component` have been popped, those
      of `queue` wait, and `pending` are neighbours of the last one not marked yet. */
  ghost predicate Exploring(nodes: set<int>, streets: set<Street>, adjacency: map<int, set<int>>, start: int,
                            before: set<int>, visited: set<int>, component: set<int>, queue: seq<int>,
                            pending: set<int>)
  {
    && before !! component && component <= nodes && pending <= nodes && pending !! visited
    && visited == before + component + Elements(queue)
    && start in component + Elements(queue)
    && (forall i :: 0 <= i < |queue| ==> queue[i] in nodes && queue[i] !in component && queue[i] !in before)
    && (forall i, j :: 0 <= i < j < |queue| ==> queue[i] != queue[j])
    && (forall u :: u in component ==> u in adjacency && adjacency[u] <= visited + pending)
    && (forall side :: Closed(nodes, streets, side) && start in side ==>
          component + Elements(queue) + pending <= side)
  }

  lemma NeighbourStaysInside(nodes: set<int>, streets: set<Street>, adjacency: map<int, set<int>>,
                             side: set<int>, u: int, v: int)
    requires IsAdjacency(nodes, streets, adjacency) && Closed(nodes, streets, side)
    requires u in side && u in adjacency && v in adjacency[u]
    ensures v in side
  {
    var s := if Street(u, v) in streets then Street(u, v) else Street(v, u);
    assert s in streets && Within(nodes, s) && !Crosses(side, s);
  }

  lemma ExploredIsComponent(nodes: set<int>, streets: set<Street>, adjacency: map<int, set<int>>, start: int,
                            before: set<int>, component: set<int>)
    requires IsAdjacency(nodes, streets, adjacency) && Closed(nodes, streets, before) && start !in before
    requires Exploring(nodes, streets, adjacency, start, before, before + component, component, [], {})
    requires start in nodes
    ensures Component(nodes, streets, component)
    ensures Closed(nodes, streets, before + component)
  {
    forall s | s in streets && Within(nodes, s)
      ensures !Crosses(component, s) && !Crosses(before + component, s)
    {
      assert !Crosses(before, s);
      assert s == Street(s.a, s.b);
      assert s.b in adjacency[s.a] && s.a in adjacency[s.b];
    }
    forall side | Closed(nodes, streets, side)
      ensures component * side == {} || component <= side
    {
      if start !in side {
        ComplementIsClosed(nodes, streets, side);
        assert component <= nodes - side;
      }
    }
  }

  lemma ComplementIsClosed(nodes: set<int>, streets: set<Street>, side: set<int>)
    requires Closed(nodes, streets, side)
    ensures Closed(nodes, streets, nodes - side)
  {
    forall s | s in streets && Within(nodes, s) ensures !Crosses(nodes - side, s) {
      assert !Crosses(side, s);
    }
  }

  lemma PopCurrent(nodes: set<int>, streets: set<Street>, adjacency: map<int, set<int>>, start: int,
                   before: set<int>, visited: set<int>, component: set<int>, queue: seq<int>)
    requires IsAdjacency(nodes, streets, adjacency) && queue != []
    requires Exploring(nodes, streets, adjacency, start, before, visited, component, queue, {})
    ensures queue[0] in adjacency
    ensures Exploring(nodes, streets, adjacency, start, before, visited, component + {queue[0]}, queue[1..],
                      adjacency[queue[0]] - visited)
  {
    var current := queue[0];
    assert queue == [current] + queue[1..];
    assert Elements(queue) == {current} + Elements(queue[1..]);
    forall side | Closed(nodes, streets, side) && start in side
      ensures adjacency[current] <= side
    {
      forall v | v in adjacency[current] ensures v in side {
        NeighbourStaysInside(nodes, streets, adjacency, side, current, v);
      }
    }
  }

  lemma MarkNeighbour(nodes: set<int>, streets: set<Street>, adjacency: map<int, set<int>>, start: int,
                      before: set<int>, visited: set<int>, component: set<int>, queue: seq<int>,
                      pending: set<int>, n: int)
    requires Exploring(nodes, streets, adjacency, start, before, visited, component, queue, pending)
    requires n in pending
    ensures Exploring(nodes, streets, adjacency, start, before, visited + {n}, component, queue + [n], pending - {n})
  {
    assert Elements(queue + [n]) == Elements(queue) + {n};
  }

  method PickOne(s: set<int>) returns (n: int)
    requires s != {}
    ensures n in s
  {
    ghost var some := SomeElement(s);
    n :| n in s;
  }

  method MarkNeighbours(nodes: set<int>, ghost streets: set<Street>, ghost adjacency: map<int, set<int>>,
                        ghost start: int, ghost before: set<int>, visited: set<int>, ghost component: set<int>,
                        queue: seq<int>, neighbours: set<int>)
    returns (visited': set<int>, queue': seq<int>)
    requires Exploring(nodes, streets, adjacency, start, before, visited, component, queue, neighbours)
    ensures Exploring(nodes, streets, adjacency, start, before, visited', component, queue', {})
  {
    visited', queue' := visited, queue;
    var pending := neighbours;
    while pending != {}
      invariant Exploring(nodes, streets, adjacency, start, before, visited', component, queue', pending)
      decreases pending
    {
      var n := PickOne(pending);
      MarkNeighbour(nodes, streets, adjacency, start, before, visited', component, queue', pending, n);
      visited', queue', pending := visited' + {n}, queue' + [n], pending - {n};
    }
  }

  lemma StartExploring(nodes: set<int>, streets: set<Street>, adjacency: map<int, set<int>>, start: int,
                       before: set<int>)
    requires IsAdjacency(nodes, streets, adjacency) && start in nodes && start !in before
    ensures Exploring(nodes, streets, adjacency, start, before, before + {start}, {}, [start], {})
  {
    assert Elements([start]) == {start};
  }

  method Explore(nodes: set<int>, ghost streets: set<Street>, adjacency: map<int, set<int>>, start: int,
                 before: set<int>)
    returns (visited: set<int>, component: set<int>)
    requires IsAdjacency(nodes, streets, adjacency) && Closed(nodes, streets, before)
    requires start in nodes && start !in before
    ensures Component(nodes, streets, component) && before !! component && start in component
    ensures visited == before + component && Closed(nodes, streets, visited)
  {
    var queue := [start];
    visited := before + {start};
    component := {};
    StartExploring(nodes, streets, adjacency, start, before);
    while queue != []
      invariant Exploring(nodes, streets, adjacency, start, before, visited, component, queue, {})
      decreases nodes - component
    {
      var current := queue[0];
      PopCurrent(nodes, streets, adjacency, start, before, visited, component, queue);
      component := component + {current};
      visited, queue := MarkNeighbours(nodes, streets, adjacency, start, before, visited, component, queue[1..],
                                       adjacency[current] - visited);
    }
    assert Elements(queue) == {};
    ExploredIsComponent(nodes, streets, adjacency, start, before, component);
  }

  ghost predicate Disjoint(components: seq<set<int>>) {
    forall i, j :: 0 <= i < j < |components| ==> components[i] !! components[j]
  }

  ghost function Union(components: seq<set<int>>): set<int> {
    if components == [] then {} else Union(components[..|components| - 1]) + components[|components| - 1]
  }

  lemma {:induction false} UnionContains(components: seq<set<int>>, i: nat)
    requires i < |components|
    ensures components[i] <= Union(components)
  {
    if i < |components| - 1 {
      UnionContains(components[..|components| - 1], i);
    }
  }

  lemma OneMoreComponent(components: seq<set<int>>, component: set<int>)
    requires Disjoint(components) && Union(components) !! component
    ensures Disjoint(components + [component]) && Union(components + [component]) == Union(components) + component
  {
    forall k | 0 <= k < |components| ensures components[k] !! component {
      UnionContains(components, k);
    }
    assert (components + [component])[..|components|] == components;
  }

  /** The weak components: closed, indivisible, pairwise disjoint and together all nodes. The
      source visits nodes and neighbours in id order; the components do not depend on that. */
  method FindComponents(nodes: seq<int>, links: seq<Link>) returns (components: seq<set<int>>)
    ensures forall i :: 0 <= i < |components| ==> Component(Elements(nodes), Streets(links), components[i])
    ensures Disjoint(components) && Union(components) == Elements(nodes)
    ensures |components| <= 1 <==> Connected(Elements(nodes), Streets(links))
  {
    var all := set n | n in nodes;
    var adjacency := BuildAdjacency(all, links);
    var visited: set<int> := {};
    components := [];
    for i := 0 to |nodes|
      invariant forall k :: 0 <= k < |components| ==> Component(all, Streets(links), components[k])
      invariant Disjoint(components) && Union(components) == visited
      invariant Closed(all, Streets(links), visited)
      invariant forall k :: 0 <= k < i ==> nodes[k] in visited
    {
      if nodes[i] in visited {
        continue;
      }
      var next, component := Explore(all, Streets(links), adjacency, nodes[i], visited);
      OneMoreComponent(components, component);
      components := components + [component];
      visited := next;
    }
    OneComponentIsConnected(all, Streets(links), components);
  }

  lemma OneComponentIsConnected(nodes: set<int>, streets: set<Street>, components: seq<set<int>>)
    requires forall i :: 0 <= i < |components| ==> Component(nodes, streets, components[i])
    requires Disjoint(components) && Union(components) == nodes
    ensures |components| <= 1 <==> Connected(nodes, streets)
  {
    if |components| == 1 {
      assert components[0] == nodes by {
        assert components[..0] == [];
        assert Union(components[..0]) == {};
      }
      forall side | Closed(nodes, streets, side) ensures side == {} || side == nodes {
        if side != {} {
          assert components[0] * side == side;
        }
      }
    } else if |components| > 1 {
      UnionContains(components, 1);
      assert Closed(nodes, streets, components[0]);
      assert components[0] !! components[1];
      assert components[0] != {} && components[0] != nodes;
    }
  }
}
