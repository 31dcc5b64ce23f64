/** The report on weak connectivity: the components in order, and each node's component. */
module ConnectivityReport {
  import opened Results
  import opened Connectivity

  /** The components as ascending lists, largest first and then by least node, and the position of
      each node's component. */
  datatype Report = Report(components: seq<seq<int>>, componentOf: map<int, nat>)

  predicate Ascending(c: seq<int>) {
    forall i, j :: 0 <= i < j < |c| ==> c[i] < c[j]
  }

  predicate Precedes(a: seq<int>, b: seq<int>)
    requires a != [] && b != []
  {
    |a| > |b| || (|a| == |b| && a[0] < b[0])
  }

  ghost predicate Ranked(lists: seq<seq<int>>) {
    && (forall i :: 0 <= i < |lists| ==> lists[i] != [])
    && forall i, j :: 0 <= i < j < |lists| ==>
         |lists[i]| > |lists[j]| || (|lists[i]| == |lists[j]| && lists[i][0] < lists[j][0])
  }

  ghost predicate Apart(lists: seq<seq<int>>) {
    forall i, j :: 0 <= i < j < |lists| ==> Elements(lists[i]) !! Elements(lists[j])
  }

  ghost predicate AreComponents(nodes: set<int>, streets: set<Street>, lists: seq<seq<int>>) {
    forall i :: 0 <= i < |lists| ==> Ascending(lists[i]) && Component(nodes, streets, Elements(lists[i]))
  }

  /** Every node of `covered` stands in some list, and no other node does. */
  ghost predicate Covers(lists: seq<seq<int>>, covered: set<int>) {
    && (forall i :: 0 <= i < |lists| ==> Elements(lists[i]) <= covered)
    && forall n :: n in covered ==> exists i :: 0 <= i < |lists| && n in lists[i]
  }

  // ----- Lists from sets

  lemma InsertedIsAscending(c: seq<int>, n: int, p: nat)
    requires Ascending(c) && p <= |c|
    requires forall i :: 0 <= i < p ==> c[i] < n
    requires forall i :: p <= i < |c| ==> n < c[i]
    ensures Ascending(c[..p] + [n] + c[p..])
  {
  }

  lemma InsertedElements(c: seq<int>, n: int, p: nat)
    requires p <= |c|
    ensures Elements(c[..p] + [n] + c[p..]) == Elements(c) + {n}
  {
    var r := c[..p] + [n] + c[p..];
    forall x ensures x in r <==> x in c || x == n {
      assert c == c[..p] + c[p..];
    }
  }

  method InsertNode(c: seq<int>, n: int) returns (r: seq<int>)
    requires Ascending(c) && n !in c
    ensures Ascending(r) && Elements(r) == Elements(c) + {n}
  {
    var p := 0;
    while p < |c| && c[p] < n
      invariant 0 <= p <= |c| && forall i :: 0 <= i < p ==> c[i] < n
    {
      p := p + 1;
    }
    InsertedIsAscending(c, n, p);
    InsertedElements(c, n, p);
    r := c[..p] + [n] + c[p..];
  }

  method SortedList(s: set<int>) returns (c: seq<int>)
    ensures Ascending(c) && Elements(c) == s
  {
    c := [];
    var rest := s;
    while rest != {}
      invariant rest <= s && Ascending(c) && Elements(c) == s - rest
      decreases rest
    {
      var n := PickOne(rest);
      c := InsertNode(c, n);
      rest := rest - {n};
    }
  }

  // ----- The order of the components

  /** Where a list belongs among ranked lists that share no node with it. */
  method Place(lists: seq<seq<int>>, c: seq<int>) returns (p: nat)
    requires Ranked(lists) && c != []
    requires forall i :: 0 <= i < |lists| ==> lists[i][0] != c[0]
    ensures p <= |lists|
    ensures forall i :: 0 <= i < p ==> Precedes(lists[i], c)
    ensures forall i :: p <= i < |lists| ==> Precedes(c, lists[i])
  {
    p := 0;
    while p < |lists| && Precedes(lists[p], c)
      invariant p <= |lists| && forall i :: 0 <= i < p ==> Precedes(lists[i], c)
    {
      p := p + 1;
    }
  }

  lemma PlacedIsRanked(lists: seq<seq<int>>, c: seq<int>, p: nat)
    requires Ranked(lists) && c != [] && p <= |lists|
    requires forall i :: 0 <= i < p ==> Precedes(lists[i], c)
    requires forall i :: p <= i < |lists| ==> Precedes(c, lists[i])
    ensures Ranked(lists[..p] + [c] + lists[p..])
  {
  }

  lemma PlacedIsApart(lists: seq<seq<int>>, c: seq<int>, p: nat)
    requires Apart(lists) && p <= |lists|
    requires forall i :: 0 <= i < |lists| ==> Elements(lists[i]) !! Elements(c)
    ensures Apart(lists[..p] + [c] + lists[p..])
  {
  }

  lemma PlacedCovers(lists: seq<seq<int>>, c: seq<int>, p: nat, covered: set<int>)
    requires Covers(lists, covered) && p <= |lists|
    ensures Covers(lists[..p] + [c] + lists[p..], covered + Elements(c))
  {
    var more := lists[..p] + [c] + lists[p..];
    forall n | n in covered + Elements(c) ensures exists i :: 0 <= i < |more| && n in more[i] {
      if n in c {
        assert more[p] == c;
      } else {
        var i :| 0 <= i < |lists| && n in lists[i];
        assert more[if i < p then i else i + 1] == lists[i];
      }
    }
  }

  // ----- The report

  /** Numbers the nodes by their lists. */
  method NumberNodes(lists: seq<seq<int>>, ghost covered: set<int>) returns (componentOf: map<int, nat>)
    requires Apart(lists) && Covers(lists, covered)
    ensures componentOf.Keys == covered
    ensures forall n :: n in componentOf ==> componentOf[n] < |lists| && n in lists[componentOf[n]]
  {
    componentOf := map[];
    for i := 0 to |lists|
      invariant forall n :: n in componentOf ==> componentOf[n] < i && n in lists[componentOf[n]]
      invariant forall k, n :: 0 <= k < i && n in lists[k] ==> n in componentOf
    {
      for j := 0 to |lists[i]|
        invariant forall n :: n in componentOf ==> componentOf[n] <= i && n in lists[componentOf[n]]
        invariant forall k, n :: 0 <= k < i && n in lists[k] ==> n in componentOf
        invariant forall k :: 0 <= k < j ==> lists[i][k] in componentOf
      {
        componentOf := componentOf[lists[i][j] := i];
      }
    }
    forall n ensures n in componentOf <==> n in covered {
      if n in componentOf {
        assert n in Elements(lists[componentOf[n]]);
      }
    }
  }

  /** Ranked lists of components that share no node and hold the nodes of `covered`. */
  ghost predicate Collected(nodes: set<int>, streets: set<Street>, lists: seq<seq<int>>, covered: set<int>) {
    AreComponents(nodes, streets, lists) && Ranked(lists) && Apart(lists) && Covers(lists, covered)
  }

  /** The components are exactly the weak components, each an ascending list, largest first and ties
      by least node; every node is numbered with its own; and there is at most one exactly when the
      network is connected. */
  method AnalyzeWeakConnectivity(nodes: seq<int>, links: seq<Link>) returns (report: Report)
    ensures Collected(Elements(nodes), Streets(links), report.components, Elements(nodes))
    ensures report.componentOf.Keys == Elements(nodes)
    ensures forall n :: n in report.componentOf ==>
              report.componentOf[n] < |report.components| && n in report.components[report.componentOf[n]]
    ensures |report.components| <= 1 <==> Connected(Elements(nodes), Streets(links))
  {
    var lists := RankedComponents(nodes, links);
    var componentOf := NumberNodes(lists, Elements(nodes));
    return Report(lists, componentOf);
  }

  method RankedComponents(nodes: seq<int>, links: seq<Link>) returns (lists: seq<seq<int>>)
    ensures Collected(Elements(nodes), Streets(links), lists, Elements(nodes))
    ensures |lists| <= 1 <==> Connected(Elements(nodes), Streets(links))
  {
    var found := FindComponents(nodes, links);
    lists := RankAll(Elements(nodes), Streets(links), found);
  }

  method RankAll(ghost nodes: set<int>, ghost streets: set<Street>, found: seq<set<int>>)
    returns (lists: seq<seq<int>>)
    requires Disjoint(found) && forall i :: 0 <= i < |found| ==> Component(nodes, streets, found[i])
    ensures |lists| == |found| && Collected(nodes, streets, lists, Union(found))
  {
    lists := [];
    for i := 0 to |found|
      invariant |lists| == i && Collected(nodes, streets, lists, Union(found[..i]))
    {
      var c := SortedList(found[i]);
      FoundIsNew(found, i);
      lists := AddComponent(nodes, streets, lists, c, Union(found[..i]));
    }
    assert found[..|found|] == found;
  }

  method AddComponent(ghost nodes: set<int>, ghost streets: set<Street>, lists: seq<seq<int>>, c: seq<int>,
                      ghost covered: set<int>) returns (more: seq<seq<int>>)
    requires Collected(nodes, streets, lists, covered)
    requires Ascending(c) && Component(nodes, streets, Elements(c)) && covered !! Elements(c)
    ensures |more| == |lists| + 1 && Collected(nodes, streets, more, covered + Elements(c))
  {
    NextIsApart(lists, c, covered);
    assert c != [] by {
      ghost var n := SomeElement(Elements(c));
    }
    var p := Place(lists, c);
    PlacedIsRanked(lists, c, p);
    PlacedIsApart(lists, c, p);
    PlacedCovers(lists, c, p, covered);
    PlacedAreComponents(nodes, streets, lists, c, p);
    more := lists[..p] + [c] + lists[p..];
  }

  lemma PlacedAreComponents(nodes: set<int>, streets: set<Street>, lists: seq<seq<int>>, c: seq<int>, p: nat)
    requires AreComponents(nodes, streets, lists) && p <= |lists|
    requires Ascending(c) && Component(nodes, streets, Elements(c))
    ensures AreComponents(nodes, streets, lists[..p] + [c] + lists[p..])
  {
  }

  lemma FoundIsNew(found: seq<set<int>>, i: nat)
    requires i < |found| && Disjoint(found)
    ensures Union(found[..i]) !! found[i]
    ensures Union(found[..i + 1]) == Union(found[..i]) + found[i]
  {
    UnionBelow(found, i, i);
    assert found[..i + 1][..i] == found[..i];
  }

  lemma {:induction false} UnionBelow(found: seq<set<int>>, k: nat, i: nat)
    requires k <= i < |found| && Disjoint(found)
    ensures Union(found[..k]) !! found[i]
  {
    if k > 0 {
      UnionBelow(found, k - 1, i);
      assert found[..k][..k - 1] == found[..k - 1];
    }
  }

  lemma NextIsApart(lists: seq<seq<int>>, c: seq<int>, covered: set<int>)
    requires Covers(lists, covered) && Ranked(lists) && covered !! Elements(c)
    ensures forall i :: 0 <= i < |lists| ==> Elements(lists[i]) !! Elements(c)
    ensures forall i :: 0 <= i < |lists| && c != [] ==> lists[i][0] != c[0]
  {
    forall i | 0 <= i < |lists| && c != [] ensures lists[i][0] != c[0] {
      assert lists[i][0] in Elements(lists[i]) && c[0] in Elements(c);
    }
  }
}
