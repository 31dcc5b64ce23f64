/** Deleting a fraction of the streets at random while the network stays whole. */
module Thinning {
  import opened Results
  import opened Sorting
  import opened Connectivity
  import opened ConnectivityReport
  import opened StreetCounts

  datatype ThinningError = FractionOutOfRange

  /** What is left of the network, and how many streets went. */
  datatype Thinned = Thinned(links: seq<Link>, removed: nat)

  type Groups = map<Street, seq<Link>>

  /** The links of a street, in input order. */
  function LinksOf(links: seq<Link>, street: Street): seq<Link> {
    if links == [] then []
    else LinksOf(links[..|links| - 1], street)
         + if StreetOf(links[|links| - 1]) == street then [links[|links| - 1]] else []
  }

  /** The links whose street is one of `streets`, in input order. */
  function Kept(links: seq<Link>, streets: set<Street>): seq<Link> {
    if links == [] then []
    else Kept(links[..|links| - 1], streets)
         + if StreetOf(links[|links| - 1]) in streets then [links[|links| - 1]] else []
  }

  lemma {:induction false} KeptElements(links: seq<Link>, streets: set<Street>)
    ensures forall l :: l in Kept(links, streets) <==> l in links && StreetOf(l) in streets
  {
    if links != [] {
      var rest, last := links[..|links| - 1], links[|links| - 1];
      assert links == rest + [last];
      KeptElements(rest, streets);
    }
  }

  lemma KeptStreets(links: seq<Link>, streets: set<Street>)
    requires streets <= Streets(links)
    ensures Streets(Kept(links, streets)) == streets
    ensures Kept(links, streets) == [] <==> streets == {}
  {
    KeptElements(links, streets);
    var kept := Kept(links, streets);
    forall s | s in streets ensures s in Streets(kept) {
      var l :| l in links && StreetOf(l) == s;
      assert l in kept;
    }
    assert Streets(kept) == streets;
    if streets != {} {
      var street := SomeElement(streets);
    }
    if kept != [] {
      assert kept[0] in kept;
    }
  }

  predicate SortedById(links: seq<Link>) {
    forall i, j :: 0 <= i < j < |links| ==> links[i].id <= links[j].id
  }

  const BY_ID: (Link, Link) -> bool := (a: Link, b: Link) => a.id <= b.id

  /** `sorted(..., key=link_id)`. */
  function SortById(links: seq<Link>): (r: seq<Link>)
    ensures SortedById(r) && multiset(r) == multiset(links)
  {
    Sort(BY_ID, links)
  }

  ghost predicate Grouped(links: seq<Link>, groups: Groups) {
    groups.Keys == Streets(links) && forall s :: s in groups ==> groups[s] == LinksOf(links, s)
  }

  lemma {:induction false} NoLinksOf(links: seq<Link>, street: Street)
    requires street !in Streets(links)
    ensures LinksOf(links, street) == []
  {
    if links != [] {
      var rest, last := links[..|links| - 1], links[|links| - 1];
      assert last in links && forall l :: l in rest ==> l in links;
      NoLinksOf(rest, street);
    }
  }

  lemma StreetsGrow(links: seq<Link>, link: Link)
    ensures Streets(links + [link]) == Streets(links) + {StreetOf(link)}
  {
    forall s ensures s in Streets(links + [link]) <==> s in Streets(links) + {StreetOf(link)} {
      if s in Streets(links) {
        var l :| l in links && StreetOf(l) == s;
        assert l in links + [link];
      }
      assert link in links + [link];
    }
  }

  function WithLink(groups: Groups, link: Link): Groups {
    var street := StreetOf(link);
    groups[street := (if street in groups then groups[street] else []) + [link]]
  }

  lemma LinksOfGrow(links: seq<Link>, link: Link, street: Street)
    ensures LinksOf(links + [link], street) == LinksOf(links, street) + if StreetOf(link) == street then [link] else []
  {
    assert (links + [link])[..|links|] == links;
  }

  lemma OneMoreGrouped(links: seq<Link>, i: nat, groups: Groups)
    requires i < |links| && Grouped(links[..i], groups)
    ensures Grouped(links[..i + 1], WithLink(groups, links[i]))
  {
    var before, more := links[..i], WithLink(groups, links[i]);
    assert links[..i + 1] == before + [links[i]];
    StreetsGrow(before, links[i]);
    forall s | s in more ensures more[s] == LinksOf(links[..i + 1], s) {
      LinksOfGrow(before, links[i], s);
      if s !in groups {
        NoLinksOf(before, s);
      }
    }
  }

  method GroupByStreet(links: seq<Link>) returns (groups: Groups)
    ensures Grouped(links, groups)
  {
    groups := map[];
    assert links[..|links|] == links;
    for i := 0 to |links|
      invariant Grouped(links[..i], groups)
    {
      OneMoreGrouped(links, i, groups);
      groups := WithLink(groups, links[i]);
    }
  }

  /** The streets that remain are justified: each one tried so far was kept because the network
      would fall apart, or vanish, without it. */
  ghost predicate Tried(nodes: set<int>, order: seq<Street>, n: nat, surviving: set<Street>)
    requires n <= |order|
  {
    forall k :: 0 <= k < n && order[k] in surviving ==>
      surviving == {order[k]} || !Connected(nodes, surviving - {order[k]})
  }

  lemma TriedAfterRemoval(nodes: set<int>, order: seq<Street>, n: nat, surviving: set<Street>)
    requires n < |order| && Tried(nodes, order, n, surviving) && order[n] in surviving
    requires surviving != {order[n]}
    ensures Tried(nodes, order, n + 1, surviving - {order[n]})
  {
    var fewer := surviving - {order[n]};
    forall k | 0 <= k < n && order[k] in fewer
      ensures fewer == {order[k]} || !Connected(nodes, fewer - {order[k]})
    {
      if surviving != {order[k]} {
        FewerStreetsStaySplit(nodes, fewer - {order[k]}, surviving - {order[k]});
      }
    }
  }

  /** The number of streets a run over `order` removes from a connected network is settled by the
      target and the counts alone. */
  lemma OutcomeIsSettled(nodes: set<int>, all: set<Street>, order: seq<Street>, n: nat,
                         surviving: set<Street>, target: nat)
    requires nodes != {} && surviving <= all && n <= |order|
    requires forall s :: s in all ==> s in order
    requires Connected(nodes, surviving) && Tried(nodes, order, n, surviving)
    requires |all| - |surviving| <= target && (target < |all| || |all| == 0)
    requires |all| - |surviving| == target || n == |order|
    ensures |surviving| >= |nodes| - 1
    ensures |all| - |surviving| < target ==> |surviving| == |nodes| - 1
  {
    ConnectedNeedsStreets(nodes, surviving);
    if |all| - |surviving| < target {
      forall s | s in surviving ensures !Connected(nodes, surviving - {s}) {
        var k :| 0 <= k < |order| && order[k] == s;
        assert |{s}| == 1;
      }
      MinimalIsTree(nodes, surviving);
    }
  }

  ghost function Smaller(a: int, b: int): int {
    if a < b then a else b
  }

  /** The state after the first `k` streets of the shuffle. */
  ghost predicate Progressing(nodes: set<int>, all: set<Street>, order: seq<Street>, k: nat,
                              surviving: set<Street>, removed: int, target: int)
  {
    && k <= |order| && surviving <= all
    && removed == |all| - |surviving| <= target
    && (Connected(nodes, all) ==> Connected(nodes, surviving))
    && (!Connected(nodes, all) ==> surviving == all)
    && Tried(nodes, order, k, surviving)
    && forall j :: k <= j < |order| ==> order[j] in surviving
  }

  lemma StartThinning(nodes: set<int>, all: set<Street>, order: seq<Street>, target: int)
    requires Listing(order, all) && target >= 0
    ensures Progressing(nodes, all, order, 0, all, 0, target)
  {
    assert forall j :: 0 <= j < |order| ==> order[j] in SetOf(order);
  }

  lemma KeepStreet(nodes: set<int>, all: set<Street>, order: seq<Street>, k: nat,
                   surviving: set<Street>, removed: int, target: int)
    requires Progressing(nodes, all, order, k, surviving, removed, target) && k < |order|
    requires surviving == {order[k]} || !Connected(nodes, surviving - {order[k]})
    ensures Progressing(nodes, all, order, k + 1, surviving, removed, target)
  {
  }

  lemma RemoveStreet(nodes: set<int>, all: set<Street>, order: seq<Street>, k: nat,
                     surviving: set<Street>, removed: int, target: int)
    requires Progressing(nodes, all, order, k, surviving, removed, target) && k < |order| && removed < target
    requires surviving != {order[k]} && Connected(nodes, surviving - {order[k]})
    requires forall i, j :: 0 <= i < j < |order| ==> order[i] != order[j]
    ensures Progressing(nodes, all, order, k + 1, surviving - {order[k]}, removed + 1, target)
  {
    TriedAfterRemoval(nodes, order, k, surviving);
    if !Connected(nodes, all) {
      FewerStreetsStaySplit(nodes, surviving - {order[k]}, all);
    }
  }

  /** The two tests a removal must pass: something is left, and it is in one piece. */
  method CanSpare(nodeIds: seq<int>, links: seq<Link>, candidate: set<Street>) returns (spare: bool)
    requires candidate <= Streets(links)
    ensures spare <==> candidate != {} && Connected(Elements(nodeIds), candidate)
  {
    var kept := Kept(links, candidate);
    KeptStreets(links, candidate);
    if kept == [] {
      return false;
    }
    var report := AnalyzeWeakConnectivity(nodeIds, kept);
    return |report.components| <= 1;
  }

  /** The deletion loop: at most `target` streets, tried in the order of the shuffle. */
  method DeleteStreets(nodeIds: seq<int>, links: seq<Link>, groups: Groups, order: seq<Street>, target: int)
    returns (left: Groups, removed: nat, ghost k: nat)
    requires Listing(order, Streets(links)) && groups.Keys == Streets(links) && target >= 0
    ensures Progressing(Elements(nodeIds), Streets(links), order, k, left.Keys, removed, target)
    ensures removed == target || k == |order|
  {
    ghost var nodes, all := Elements(nodeIds), Streets(links);
    left, removed, k := groups, 0, 0;
    StartThinning(nodes, all, order, target);
    for i := 0 to |order|
      invariant k == i && Progressing(nodes, all, order, i, left.Keys, removed, target)
    {
      if removed >= target {
        return;
      }
      var candidate := left - {order[i]};
      assert candidate.Keys == left.Keys - {order[i]};
      var spare := CanSpare(nodeIds, links, candidate.Keys);
      if spare {
        RemoveStreet(nodes, all, order, i, left.Keys, removed, target);
        left, removed := candidate, removed + 1;
      } else {
        KeepStreet(nodes, all, order, i, left.Keys, removed, target);
      }
      k := i + 1;
    }
  }

  /** What the survivors of a run with the given target must satisfy. */
  ghost predicate Outcome(nodes: set<int>, all: set<Street>, surviving: set<Street>, target: int) {
    var n, m := |nodes|, |all|;
    && surviving <= all
    && (nodes != {} && Connected(nodes, all) ==>
          && Connected(nodes, surviving)
          && m - |surviving| == Smaller(target, m - (n - 1))
          && (m - |surviving| < target ==> |surviving| == n - 1))
    && (!Connected(nodes, all) ==> surviving == all)
  }

  /** `target` is the whole part of the product. */
  ghost predicate WholePart(target: int, product: real) {
    target as real <= product < target as real + 1.0
  }

  /** The outcome for the whole part of the product as the target. */
  ghost predicate Thins(nodes: set<int>, all: set<Street>, surviving: set<Street>, product: real) {
    forall t: int :: WholePart(t, product) ==> Outcome(nodes, all, surviving, t)
  }

  /** `int(count * fraction)` */
  method Target(count: nat, fraction: real) returns (target: int)
    requires 0.0 <= fraction < 1.0
    ensures 0 <= target && (target < count || count == 0)
    ensures WholePart(target, count as real * fraction)
  {
    TargetInRange(count, fraction);
    target := (count as real * fraction).Floor;
  }

  /** The two end nodes of `street` are those of `link`, in whatever direction. */
  ghost predicate Joins(link: Link, street: Street) {
    (street.a == link.src && street.b == link.dst) || (street.a == link.dst && street.b == link.src)
  }

  /** A link is kept with its street: as often as it was there, or not at all, and always together
      with the links of the other direction. */
  ghost predicate KeptWhole(links: seq<Link>, kept: seq<Link>, surviving: set<Street>) {
    && (forall l :: multiset(kept)[l] ==
          if exists s :: s in surviving && Joins(l, s) then multiset(links)[l] else 0)
    && forall s :: s in surviving ==> exists l :: l in kept && Joins(l, s)
  }

  lemma {:induction false} KeptCounts(links: seq<Link>, streets: set<Street>, l: Link)
    ensures multiset(Kept(links, streets))[l] == if StreetOf(l) in streets then multiset(links)[l] else 0
  {
    if links != [] {
      var rest, last := links[..|links| - 1], links[|links| - 1];
      assert links == rest + [last];
      KeptCounts(rest, streets, l);
    }
  }

  /** A street of the network joins the ends of a link exactly if it is the link's own. */
  lemma OwnStreet(links: seq<Link>, surviving: set<Street>, l: Link)
    requires surviving <= Streets(links)
    ensures StreetOf(l) in surviving <==> exists s :: s in surviving && Joins(l, s)
  {
    assert Joins(l, StreetOf(l));
    if s :| s in surviving && Joins(l, s) {
      var m :| m in links && StreetOf(m) == s;
      assert s == StreetOf(l);
    }
  }

  lemma KeptIsWhole(links: seq<Link>, surviving: set<Street>, kept: seq<Link>)
    requires surviving <= Streets(links) && multiset(kept) == multiset(Kept(links, surviving))
    ensures KeptWhole(links, kept, surviving)
  {
    SameElements(kept, Kept(links, surviving));
    KeptElements(links, surviving);
    forall l ensures multiset(kept)[l] ==
      if exists s :: s in surviving && Joins(l, s) then multiset(links)[l] else 0
    {
      KeptCounts(links, surviving, l);
      OwnStreet(links, surviving, l);
    }
    forall s | s in surviving ensures exists l :: l in kept && Joins(l, s) {
      var l :| l in links && StreetOf(l) == s;
      assert l in kept && Joins(l, s);
    }
  }

  /** Thinning with a given shuffle of the streets. For a connected network with n nodes and m
      streets, whatever the shuffle, exactly min(floor(m * fraction), m - (n - 1)) streets go,
      what is left is connected, and falling short of the target leaves a tree; a network in
      several parts loses nothing. Both directions of a street stay or go together. */
  method ThinTopology(nodeIds: seq<int>, links: seq<Link>, fraction: real, order: seq<Street>)
    returns (r: Result<Thinned, ThinningError>, ghost surviving: set<Street>)
    requires Listing(order, Streets(links))
    ensures r.Ok? <==> 0.0 <= fraction < 1.0
    ensures r.Ok? ==>
              && Thins(Elements(nodeIds), Streets(links), surviving, |Streets(links)| as real * fraction)
              && KeptWhole(links, r.value.links, surviving)
              && SortedById(r.value.links) && r.value.removed == |Streets(links)| - |surviving|
  {
    surviving := {};
    if !(0.0 <= fraction < 1.0) {
      return Err(FractionOutOfRange), {};
    }
    var thinned;
    thinned, surviving := ThinBy(nodeIds, links, fraction, order);
    return Ok(thinned), surviving;
  }

  method ThinBy(nodeIds: seq<int>, links: seq<Link>, fraction: real, order: seq<Street>)
    returns (thinned: Thinned, ghost surviving: set<Street>)
    requires Listing(order, Streets(links)) && 0.0 <= fraction < 1.0
    ensures Thins(Elements(nodeIds), Streets(links), surviving, |order| as real * fraction)
    ensures KeptWhole(links, thinned.links, surviving)
    ensures SortedById(thinned.links) && thinned.removed == |Streets(links)| - |surviving|
  {
    var target := Target(|order|, fraction);
    thinned, surviving := ThinTo(nodeIds, links, order, target, |order| as real * fraction);
  }

  lemma OneWholePart(nodes: set<int>, all: set<Street>, surviving: set<Street>, target: int, product: real)
    requires WholePart(target, product) && Outcome(nodes, all, surviving, target)
    ensures Thins(nodes, all, surviving, product)
  {
    forall t: int | WholePart(t, product) ensures t == target {
      assert t as real < target as real + 1.0 && target as real < t as real + 1.0;
    }
  }

  method ThinTo(nodeIds: seq<int>, links: seq<Link>, order: seq<Street>, target: int, ghost product: real)
    returns (thinned: Thinned, ghost surviving: set<Street>)
    requires Listing(order, Streets(links)) && 0 <= target && (target < |order| || |order| == 0)
    requires WholePart(target, product)
    ensures Thins(Elements(nodeIds), Streets(links), surviving, product)
    ensures KeptWhole(links, thinned.links, surviving)
    ensures SortedById(thinned.links) && thinned.removed == |Streets(links)| - |surviving|
  {
    var groups := GroupByStreet(links);
    var left, removed, k := DeleteStreets(nodeIds, links, groups, order, target);
    surviving := left.Keys;
    SettleOutcome(Elements(nodeIds), Streets(links), order, k, surviving, removed, target);
    OneWholePart(Elements(nodeIds), Streets(links), surviving, target, product);
    var kept := KeepLinks(links, left.Keys);
    thinned := Thinned(kept, removed);
  }

  method KeepLinks(links: seq<Link>, surviving: set<Street>) returns (kept: seq<Link>)
    requires surviving <= Streets(links)
    ensures KeptWhole(links, kept, surviving) && SortedById(kept)
  {
    kept := SortById(Kept(links, surviving));
    KeptIsWhole(links, surviving, kept);
  }

  lemma SettleOutcome(nodes: set<int>, all: set<Street>, order: seq<Street>, k: nat,
                      surviving: set<Street>, removed: int, target: int)
    requires Listing(order, all) && 0 <= target && (target < |all| || |all| == 0)
    requires Progressing(nodes, all, order, k, surviving, removed, target)
    requires removed == target || k == |order|
    ensures Outcome(nodes, all, surviving, target)
  {
    if nodes != {} && Connected(nodes, all) {
      assert forall s :: s in all ==> s in SetOf(order);
      OutcomeIsSettled(nodes, all, order, k, surviving, target);
    }
  }

  lemma TargetInRange(m: nat, fraction: real)
    requires 0.0 <= fraction < 1.0
    ensures 0 <= (m as real * fraction).Floor <= m
    ensures m > 0 ==> (m as real * fraction).Floor < m
  {
    var x := m as real * fraction;
    assert x >= 0.0;
    if m > 0 {
      assert m as real * (1.0 - fraction) > 0.0;
      assert x < m as real;
    }
    assert x.Floor as real <= x;
  }
}
