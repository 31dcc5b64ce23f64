/** Best-first enumeration of loop-free routes, guided by the cost-to-go table. */
module RankedRoutes {
  import opened Results
  import opened Sorting
  import opened BinaryHeaps
  import opened RoadArcs
  import opened RouteNetwork
  import opened LegalRoutes

  datatype State = State(
    estimated: real,
    pathCost: real,
    serial: nat,
    path: seq<int>,
    node: nat,
    incoming: int,
    visited: seq<bool>)

  /** `Ord::cmp`: least estimate first, then least path cost, then oldest serial. */
  function Compare(a: State, b: State): Ordering {
    CompareReal(b.estimated, a.estimated)
      .ThenWith(CompareReal(b.pathCost, a.pathCost))
      .ThenWith(CompareInt(b.serial, a.serial))
  }

  const LOWER_PRIORITY: (State, State) -> bool := (a, b) => Compare(a, b) == Less

  /** `a` is expanded no later than `b`. */
  ghost predicate Precedes(a: State, b: State) {
    || a.estimated < b.estimated
    || (a.estimated == b.estimated
        && (a.pathCost < b.pathCost || (a.pathCost == b.pathCost && a.serial <= b.serial)))
  }

  function TailCost(req: Request, node: nat): real
    requires node < req.nodeCount
  {
    if node == req.destination then 0.0 else req.costToGo[node]
  }

  /** `s` is the search state of the partial route `arcs`. */
  ghost predicate Stands(req: Request, s: State, arcs: seq<Arc>) {
    && s.node < req.nodeCount && s.incoming < |req.linkIds|
    && PartialRoute(req, arcs, s.node) && |arcs| <= req.maxHops
    && s.path == Ids(req, arcs)
    && s.pathCost == Cost(req.cost, arcs)
    && s.incoming == IncomingAt(req.incoming, arcs, |arcs|)
    && |s.visited| == req.nodeCount && Marks(s.visited, Nodes(req.origin, arcs))
    && s.estimated == if arcs == [] then 0.0 else s.pathCost + TailCost(req, s.node)
  }

  ghost predicate Represented(req: Request, heap: seq<State>) {
    forall s :: s in heap ==> exists arcs :: Stands(req, s, arcs)
  }

  // ----- Extending a state

  /** The tests a link must pass to extend `s`. */
  ghost predicate Opens(req: Request, s: State, link: nat) {
    && LegalNext(req, s.node, s.incoming, link)
    && req.dst[link] < |s.visited| && !s.visited[req.dst[link]]
    && req.cost[link] < ROUTING_INF_COST * 0.5
    && TailCost(req, req.dst[link]) < ROUTING_INF_COST * 0.5
  }

  function Child(req: Request, s: State, link: nat, serial: nat): State
    requires link < |req.linkIds| && req.dst[link] < |s.visited|
  {
    var next := req.dst[link];
    var pathCost := s.pathCost + req.cost[link];
    State(pathCost + TailCost(req, next), pathCost, serial, s.path + [req.linkIds[link]],
          next, link, s.visited[next := true])
  }

  /** `c` is `s` one link further, in numbers: the cost so far, the estimate, and what is marked. */
  ghost predicate GoesOn(req: Request, s: State, c: State, link: nat) {
    && LegalNext(req, s.node, s.incoming, link) && |s.visited| == |c.visited| == req.nodeCount
    && !s.visited[req.dst[link]] && req.cost[link] < 500000000000.0
    && c.node == req.dst[link] && c.incoming == link && c.path == s.path + [req.linkIds[link]]
    && c.pathCost == s.pathCost + req.cost[link]
    && (c.node == req.destination ==> c.estimated == c.pathCost)
    && (c.node != req.destination ==>
          c.estimated == c.pathCost + req.costToGo[c.node] && req.costToGo[c.node] < 500000000000.0)
    && forall v :: 0 <= v < req.nodeCount ==> c.visited[v] == (s.visited[v] || v == c.node)
  }

  lemma ChildGoesOn(req: Request, s: State, c: State)
    requires IsChild(req, s, c) && |s.visited| == req.nodeCount
    ensures exists link: nat :: GoesOn(req, s, c, link)
  {
    var link: nat :| Opens(req, s, link) && c == Child(req, s, link, c.serial);
    assert GoesOn(req, s, c, link);
  }

  ghost predicate IsChild(req: Request, s: State, c: State) {
    exists link: nat :: Opens(req, s, link) && c == Child(req, s, link, c.serial)
  }

  ghost predicate HasChild(req: Request, s: State, link: nat, children: seq<State>)
    requires link < |req.linkIds| && req.dst[link] < |s.visited|
  {
    exists c :: c in children && c == Child(req, s, link, c.serial)
  }

  // ----- How much there is to search

  ghost predicate Placed(req: Request, s: State) {
    s.node < req.nodeCount && s.incoming < |req.linkIds| && |s.visited| == req.nodeCount
  }

  predicate Arrived(req: Request, s: State) {
    s.node == req.destination && s.path != []
  }

  /** The number of states the search can reach from `s`, itself included, through states that are
      all estimated at most `bound`: one for each way to go on by open adjacency entries. */
  ghost function Size(req: Request, s: State, bound: real): nat
    decreases if |s.path| < req.maxHops then req.maxHops - |s.path| else 0, 1, 0
  {
    if s.estimated > bound then 0
    else if Arrived(req, s) || |s.path| >= req.maxHops || !Placed(req, s) then 1
    else 1 + SizeBelow(req, s, bound)
  }

  ghost function SizeBelow(req: Request, s: State, bound: real): nat
    requires Placed(req, s) && |s.path| < req.maxHops
    decreases req.maxHops - |s.path|, 0, |req.slots| + 1
  {
    NodeRange(req, s.node);
    EntriesSize(req, s, bound, req.indptr[s.node], req.indptr[s.node + 1])
  }

  ghost function EntriesSize(req: Request, s: State, bound: real, lo: nat, hi: nat): nat
    requires Placed(req, s) && |s.path| < req.maxHops && lo <= hi <= |req.slots|
    decreases req.maxHops - |s.path|, 0, hi
  {
    if lo == hi then 0 else EntriesSize(req, s, bound, lo, hi - 1) + LinkSize(req, s, bound, req.slots[hi - 1])
  }

  ghost function LinkSize(req: Request, s: State, bound: real, link: nat): nat
    requires |s.path| < req.maxHops
    decreases req.maxHops - |s.path|, 0, 0
  {
    if Opens(req, s, link) then Size(req, Child(req, s, link, 0), bound) else 0
  }

  ghost function HeapSize(req: Request, heap: seq<State>, bound: real): nat {
    if heap == [] then 0
    else HeapSize(req, heap[..|heap| - 1], bound) + Size(req, heap[|heap| - 1], bound)
  }

  ghost function ScoredSize(req: Request, s: State, scored: seq<ScoredLink>, bound: real): nat
    requires |s.path| < req.maxHops
  {
    if scored == [] then 0
    else ScoredSize(req, s, scored[..|scored| - 1], bound) + LinkSize(req, s, bound, scored[|scored| - 1].link)
  }

  lemma {:induction false} EntriesIgnoreSerial(req: Request, s: State, t: State, bound: real, lo: nat, hi: nat)
    requires Placed(req, s) && |s.path| < req.maxHops && lo <= hi <= |req.slots|
    requires t == s.(serial := t.serial)
    ensures EntriesSize(req, s, bound, lo, hi) == EntriesSize(req, t, bound, lo, hi)
    decreases hi
  {
    if lo < hi {
      EntriesIgnoreSerial(req, s, t, bound, lo, hi - 1);
      var link := req.slots[hi - 1];
      assert Opens(req, s, link) <==> Opens(req, t, link);
      if Opens(req, s, link) {
        assert Child(req, s, link, 0) == Child(req, t, link, 0);
      }
    }
  }

  /** The serial number of a state only orders the heap. */
  lemma SizeIgnoresSerial(req: Request, s: State, t: State, bound: real)
    requires t == s.(serial := t.serial)
    ensures Size(req, s, bound) == Size(req, t, bound)
  {
    if Placed(req, s) && |s.path| < req.maxHops {
      NodeRange(req, s.node);
      EntriesIgnoreSerial(req, s, t, bound, req.indptr[s.node], req.indptr[s.node + 1]);
    }
  }

  lemma {:induction false} HeapSizeConcat(req: Request, a: seq<State>, b: seq<State>, bound: real)
    ensures HeapSize(req, a + b, bound) == HeapSize(req, a, bound) + HeapSize(req, b, bound)
    decreases |b|
  {
    if b == [] {
      assert a + b == a;
    } else {
      HeapSizeConcat(req, a, b[..|b| - 1], bound);
      assert (a + b)[..|a + b| - 1] == a + b[..|b| - 1];
    }
  }

  lemma HeapSizeOne(req: Request, s: State, bound: real)
    ensures HeapSize(req, [s], bound) == Size(req, s, bound)
  {
    assert [s][..0] == [];
  }

  lemma HeapSizeWithout(req: Request, heap: seq<State>, i: nat, bound: real)
    requires i < |heap|
    ensures HeapSize(req, heap, bound) == HeapSize(req, heap[..i] + heap[i + 1..], bound) + Size(req, heap[i], bound)
  {
    assert heap == heap[..i] + [heap[i]] + heap[i + 1..];
    HeapSizeConcat(req, heap[..i], [heap[i]], bound);
    HeapSizeConcat(req, heap[..i] + [heap[i]], heap[i + 1..], bound);
    HeapSizeConcat(req, heap[..i], heap[i + 1..], bound);
    HeapSizeOne(req, heap[i], bound);
  }

  lemma TakeOut<T>(s: seq<T>, i: nat)
    requires i < |s|
    ensures multiset(s[..i] + s[i + 1..]) == multiset(s) - multiset{s[i]}
  {
    assert s == s[..i] + [s[i]] + s[i + 1..];
  }

  /** Taking the last element of one list out of another with the same elements. */
  lemma MatchLast<T>(a: seq<T>, b: seq<T>) returns (i: nat)
    requires a != [] && multiset(a) == multiset(b)
    ensures i < |b| && b[i] == a[|a| - 1]
    ensures multiset(a[..|a| - 1]) == multiset(b[..i] + b[i + 1..])
  {
    var n := |a| - 1;
    SameElements(a, b);
    assert a[n] in b;
    i :| 0 <= i < |b| && b[i] == a[n];
    TakeOut(b, i);
    TakeOut(a, n);
    assert a[..n] + a[n + 1..] == a[..n];
  }

  lemma NothingLeft<T>(a: seq<T>, b: seq<T>)
    requires a == [] && multiset(a) == multiset(b)
    ensures b == []
  {
    assert |multiset(b)| == |b|;
  }

  /** The order of a heap does not matter. */
  lemma {:induction false} HeapSizePermutes(req: Request, a: seq<State>, b: seq<State>, bound: real)
    requires multiset(a) == multiset(b)
    ensures HeapSize(req, a, bound) == HeapSize(req, b, bound)
    decreases |a|
  {
    if a == [] {
      NothingLeft(a, b);
    } else {
      var i := MatchLast(a, b);
      HeapSizeWithout(req, b, i, bound);
      HeapSizePermutes(req, a[..|a| - 1], b[..i] + b[i + 1..], bound);
    }
  }

  lemma {:induction false} ScoredSizeConcat(req: Request, s: State, a: seq<ScoredLink>, b: seq<ScoredLink>, bound: real)
    requires |s.path| < req.maxHops
    ensures ScoredSize(req, s, a + b, bound) == ScoredSize(req, s, a, bound) + ScoredSize(req, s, b, bound)
    decreases |b|
  {
    if b == [] {
      assert a + b == a;
    } else {
      ScoredSizeConcat(req, s, a, b[..|b| - 1], bound);
      assert (a + b)[..|a + b| - 1] == a + b[..|b| - 1];
    }
  }

  lemma {:induction false} ScoredSizePermutes(req: Request, s: State, a: seq<ScoredLink>, b: seq<ScoredLink>,
                                              bound: real)
    requires |s.path| < req.maxHops && multiset(a) == multiset(b)
    ensures ScoredSize(req, s, a, bound) == ScoredSize(req, s, b, bound)
    decreases |a|
  {
    if a == [] {
      NothingLeft(a, b);
    } else {
      var i := MatchLast(a, b);
      var last := b[i];
      assert b == b[..i] + [last] + b[i + 1..];
      ScoredSizePermutes(req, s, a[..|a| - 1], b[..i] + b[i + 1..], bound);
      ScoredSizeConcat(req, s, b[..i], [last], bound);
      ScoredSizeConcat(req, s, b[..i] + [last], b[i + 1..], bound);
      ScoredSizeConcat(req, s, b[..i], b[i + 1..], bound);
      assert [last][..0] == [];
    }
  }

  lemma {:induction false} LegalEntriesSize(req: Request, s: State, bound: real, lo: nat, hi: nat)
    requires Placed(req, s) && |s.path| < req.maxHops && lo <= hi <= |req.slots|
    ensures ScoredSize(req, s, LegalEntries(req, s.node, s.incoming, lo, hi), bound)
         == EntriesSize(req, s, bound, lo, hi)
    decreases hi
  {
    if lo < hi {
      LegalEntriesSize(req, s, bound, lo, hi - 1);
      var before, link := LegalEntries(req, s.node, s.incoming, lo, hi - 1), req.slots[hi - 1];
      if LegalNext(req, s.node, s.incoming, link) {
        assert (before + [Scored(req, link)])[..|before|] == before;
      } else {
        assert before + [] == before;
      }
    }
  }

  /** However the legal entries are sorted, their sizes add up to what lies below the state. */
  lemma EveryEntryCounts(req: Request, s: State, scored: seq<ScoredLink>)
    requires Placed(req, s) && |s.path| < req.maxHops
    requires 0 <= req.indptr[s.node] <= req.indptr[s.node + 1] <= |req.slots|
    requires multiset(scored) ==
             multiset(LegalEntries(req, s.node, s.incoming, req.indptr[s.node], req.indptr[s.node + 1]))
    ensures forall bound: real :: ScoredSize(req, s, scored, bound) == SizeBelow(req, s, bound)
  {
    var lo, hi := req.indptr[s.node], req.indptr[s.node + 1];
    forall bound: real ensures ScoredSize(req, s, scored, bound) == SizeBelow(req, s, bound) {
      ScoredSizePermutes(req, s, scored, LegalEntries(req, s.node, s.incoming, lo, hi), bound);
      LegalEntriesSize(req, s, bound, lo, hi);
    }
  }

  lemma ChildAddsSize(req: Request, s: State, link: nat, children: seq<State>, child: State)
    requires Opens(req, s, link) && child == Child(req, s, link, child.serial)
    ensures |s.path| < req.maxHops ==> forall bound: real ::
              HeapSize(req, children + [child], bound) == HeapSize(req, children, bound) + LinkSize(req, s, bound, link)
  {
    forall bound: real | |s.path| < req.maxHops
      ensures HeapSize(req, children + [child], bound) == HeapSize(req, children, bound) + LinkSize(req, s, bound, link)
    {
      HeapSizeConcat(req, children, [child], bound);
      HeapSizeOne(req, child, bound);
      SizeIgnoresSerial(req, Child(req, s, link, 0), child, bound);
    }
  }

  /** The children of `s` in the order of the scored links, with consecutive serials. */
  ghost function Sprouts(req: Request, s: State, serial: nat, scored: seq<ScoredLink>): seq<State> {
    if scored == [] then []
    else
      var before, link := Sprouts(req, s, serial, scored[..|scored| - 1]), scored[|scored| - 1].link;
      before + if Opens(req, s, link) then [Child(req, s, link, serial + 1 + |before|)] else []
  }

  /** `scored` lists the legal entries of the node of `s`, cheapest first and then by id. */
  ghost predicate ScoresOf(req: Request, s: State, scored: seq<ScoredLink>) {
    && ScoreSorted(scored) && s.node < req.nodeCount
    && 0 <= req.indptr[s.node] <= req.indptr[s.node + 1] <= |req.slots|
    && multiset(scored) ==
       multiset(LegalEntries(req, s.node, s.incoming, req.indptr[s.node], req.indptr[s.node + 1]))
  }

  ghost predicate AreChildren(req: Request, s: State, serial: nat, children: seq<State>) {
    exists scored :: ScoresOf(req, s, scored) && children == Sprouts(req, s, serial, scored)
  }

  lemma OneMoreSprout(req: Request, s: State, serial: nat, scored: seq<ScoredLink>, i: nat)
    requires i < |scored|
    ensures var before, link := Sprouts(req, s, serial, scored[..i]), scored[i].link;
            Sprouts(req, s, serial, scored[..i + 1]) ==
            before + if Opens(req, s, link) then [Child(req, s, link, serial + 1 + |before|)] else []
  {
    assert scored[..i + 1][..i] == scored[..i];
  }

  /** One child, with a fresh serial, for each link of `scored` that extends `s`, and no other. */
  ghost predicate Expanded(req: Request, s: State, serial: nat, scored: seq<ScoredLink>, children: seq<State>) {
    && children == Sprouts(req, s, serial, scored)
    && (forall i :: 0 <= i < |children| ==> children[i].serial == serial + 1 + i)
    && (forall c :: c in children ==> IsChild(req, s, c))
    && (forall x :: x in scored && Opens(req, s, x.link) ==> HasChild(req, s, x.link, children))
    && (|s.path| < req.maxHops ==>
          forall bound: real :: HeapSize(req, children, bound) == ScoredSize(req, s, scored, bound))
  }

  lemma ScoredSizeGrows(req: Request, s: State, scored: seq<ScoredLink>, x: ScoredLink)
    requires |s.path| < req.maxHops
    ensures forall bound: real ::
      ScoredSize(req, s, scored + [x], bound) == ScoredSize(req, s, scored, bound) + LinkSize(req, s, bound, x.link)
  {
    assert (scored + [x])[..|scored|] == scored;
  }

  lemma SkipLink(req: Request, s: State, serial: nat, scored: seq<ScoredLink>, i: nat, children: seq<State>)
    requires i < |scored| && Expanded(req, s, serial, scored[..i], children) && !Opens(req, s, scored[i].link)
    ensures Expanded(req, s, serial, scored[..i + 1], children)
  {
    assert scored[..i + 1] == scored[..i] + [scored[i]];
    OneMoreSprout(req, s, serial, scored, i);
    if |s.path| < req.maxHops {
      ScoredSizeGrows(req, s, scored[..i], scored[i]);
    }
  }

  lemma AddChild(req: Request, s: State, serial: nat, scored: seq<ScoredLink>, i: nat, children: seq<State>,
                 child: State)
    requires i < |scored| && Expanded(req, s, serial, scored[..i], children) && Opens(req, s, scored[i].link)
    requires child == Child(req, s, scored[i].link, serial + 1 + |children|)
    ensures Expanded(req, s, serial, scored[..i + 1], children + [child])
  {
    assert scored[..i + 1] == scored[..i] + [scored[i]];
    OneMoreSprout(req, s, serial, scored, i);
    HasChildGrows(req, s, children, child);
    assert child in children + [child];
    ChildAddsSize(req, s, scored[i].link, children, child);
    if |s.path| < req.maxHops {
      ScoredSizeGrows(req, s, scored[..i], scored[i]);
    }
  }

  /** One child, with a fresh serial, for each link that extends `s`, and no other; and as much to
      search below the children as below `s`. */
  method Expand(req: Request, lookup: TurnLookup, s: State, serial: nat) returns (children: seq<State>)
    requires LookupFor(req, lookup)
    requires s.node < req.nodeCount && s.incoming < |req.linkIds| && |s.visited| == req.nodeCount
    ensures forall i :: 0 <= i < |children| ==> children[i].serial == serial + 1 + i
    ensures forall c :: c in children ==> IsChild(req, s, c)
    ensures forall link: nat :: Opens(req, s, link) ==> HasChild(req, s, link, children)
    ensures |s.path| < req.maxHops ==> forall bound: real :: HeapSize(req, children, bound) == SizeBelow(req, s, bound)
    ensures AreChildren(req, s, serial, children)
    ensures forall c :: c in children ==> exists link: nat :: GoesOn(req, s, c, link)
  {
    children := [];
    var scored := ScoredLegalNext(req, lookup, s.node, s.incoming);
    for i := 0 to |scored|
      invariant Expanded(req, s, serial, scored[..i], children)
    {
      var link := scored[i].link;
      assert scored[i] in scored;
      var next := req.dst[link];
      if || s.visited[next]
         || req.cost[link] >= ROUTING_INF_COST * 0.5
         || TailCost(req, next) >= ROUTING_INF_COST * 0.5
      {
        SkipLink(req, s, serial, scored, i, children);
        continue;
      }
      var child := Child(req, s, link, serial + 1 + |children|);
      AddChild(req, s, serial, scored, i, children, child);
      children := children + [child];
    }
    assert scored[..|scored|] == scored;
    assert ScoresOf(req, s, scored);
    forall c | c in children ensures exists link: nat :: GoesOn(req, s, c, link) {
      ChildGoesOn(req, s, c);
    }
    if |s.path| < req.maxHops {
      EveryEntryCounts(req, s, scored);
    }
    forall link: nat | Opens(req, s, link) ensures HasChild(req, s, link, children) {
      assert ScoredLink(TotalCost(req, link), req.linkIds[link], link) in scored;
    }
  }

  lemma HasChildGrows(req: Request, s: State, children: seq<State>, added: State)
    ensures forall link: nat ::
      link < |req.linkIds| && req.dst[link] < |s.visited| && HasChild(req, s, link, children) ==>
        HasChild(req, s, link, children + [added])
  {
    forall link: nat | link < |req.linkIds| && req.dst[link] < |s.visited| && HasChild(req, s, link, children)
      ensures HasChild(req, s, link, children + [added])
    {
      var c :| c in children && c == Child(req, s, link, c.serial);
      assert c in children + [added];
    }
  }

  /** A child stands for its parent's route and one more arc. */
  lemma ChildStands(req: Request, s: State, arcs: seq<Arc>, link: nat, serial: nat)
    requires Stands(req, s, arcs) && |arcs| < req.maxHops && Opens(req, s, link)
    ensures Stands(req, Child(req, s, link, serial), arcs + [Arc(s.node, link, req.dst[link])])
  {
    var a := Arc(s.node, link, req.dst[link]);
    ExtendPartialRoute(req, arcs, s.node, a);
    CostAppend(req.cost, arcs, a);
    NodesAppend(req.origin, arcs, a);
    assert Ids(req, arcs + [a]) == Ids(req, arcs) + [req.linkIds[link]];
  }

  // ----- Covering the legal routes

  /** `s` stands for some prefix of the route `arcs`. */
  ghost predicate Holds(req: Request, s: State, arcs: seq<Arc>) {
    exists k :: 0 <= k <= |arcs| && Stands(req, s, arcs[..k])
  }

  ghost predicate Waits(req: Request, heap: seq<State>, arcs: seq<Arc>) {
    exists s :: s in heap && Holds(req, s, arcs)
  }

  /** A legal route cheap enough for the search to consider. */
  ghost predicate Wanted(req: Request, arcs: seq<Arc>) {
    LegalRoute(req, arcs) && Cost(req.cost, arcs) < ROUTING_INF_COST * 0.5
  }

  /** Every wanted route has been answered or waits in the heap as a prefix. */
  ghost predicate AllCovered(req: Request, paths: seq<seq<int>>, heap: seq<State>) {
    forall arcs :: Wanted(req, arcs) ==> Ids(req, arcs) in paths || Waits(req, heap, arcs)
  }

  lemma StartHolds(req: Request, s: State)
    requires Stands(req, s, [])
    ensures forall arcs :: Holds(req, s, arcs)
  {
    forall arcs: seq<Arc> ensures Holds(req, s, arcs) {
      assert arcs[..0] == [];
    }
  }

  lemma CostSplit(w: seq<real>, arcs: seq<Arc>, k: nat)
    requires k <= |arcs|
    ensures Cost(w, arcs) == Cost(w, arcs[..k]) + Cost(w, arcs[k..])
  {
    assert arcs == arcs[..k] + arcs[k..];
    CostConcat(w, arcs[..k], arcs[k..]);
  }

  /** What is left of a legal route after `k` arcs costs at least the table's entry. */
  lemma Remainder(req: Request, arcs: seq<Arc>, k: nat)
    requires Consistent(req) && Chain(req.origin, arcs, req.destination) && AllOutgoing(req, arcs)
    requires k <= |arcs|
    ensures NodeAfter(req.origin, arcs, k) < req.nodeCount
    ensures Cost(req.cost, arcs[..k]) >= 0.0
    ensures Cost(req.cost, arcs[..k]) + req.costToGo[NodeAfter(req.origin, arcs, k)] <= Cost(req.cost, arcs)
  {
    ChainSplit(req.origin, arcs, req.destination, k);
    if k > 0 {
      assert OutgoingArc(req, arcs[k - 1]);
    }
    ConsistentIsLowerBound(req, NodeAfter(req.origin, arcs, k), arcs[k..]);
    CostSplit(req.cost, arcs, k);
    CostNonNegative(req, arcs[..k]);
  }

  lemma StandsAt(req: Request, s: State, arcs: seq<Arc>, k: nat)
    requires k <= |arcs| && Stands(req, s, arcs[..k])
    ensures s.node == NodeAfter(req.origin, arcs, k)
  {
    ChainEnd(req.origin, arcs[..k], s.node);
  }

  /** A state never costs more, by estimate, than a route it is a prefix of. */
  lemma EstimateIsLowerBound(req: Request, s: State, arcs: seq<Arc>, k: nat)
    requires Consistent(req) && LegalRoute(req, arcs)
    requires k <= |arcs| && Stands(req, s, arcs[..k])
    ensures s.estimated <= Cost(req.cost, arcs)
  {
    StandsAt(req, s, arcs, k);
    Remainder(req, arcs, k);
  }

  lemma HeldEstimate(req: Request, s: State, arcs: seq<Arc>)
    requires Consistent(req) && LegalRoute(req, arcs) && Holds(req, s, arcs)
    ensures s.estimated <= Cost(req.cost, arcs)
  {
    var k :| 0 <= k <= |arcs| && Stands(req, s, arcs[..k]);
    EstimateIsLowerBound(req, s, arcs, k);
  }

  /** The next link of a wanted route always opens: no test of the search prunes it. */
  lemma NextLinkOpens(req: Request, s: State, arcs: seq<Arc>, k: nat)
    requires Consistent(req) && Wanted(req, arcs)
    requires k < |arcs| && Stands(req, s, arcs[..k])
    ensures Opens(req, s, arcs[k].link) && req.dst[arcs[k].link] == arcs[k].head && arcs[k].tail == s.node
  {
    StandsAt(req, s, arcs, k);
    PartialRoutePrefix(req, arcs, req.destination, k);
    Remainder(req, arcs, k);
    Remainder(req, arcs, k + 1);
    PrefixStep(arcs, k);
    CostAppend(req.cost, arcs[..k], arcs[k]);
  }

  /** If `s` holds a longer wanted route, one of its children holds it too. */
  lemma ChildHolds(req: Request, s: State, arcs: seq<Arc>, k: nat, children: seq<State>)
    requires Consistent(req) && Wanted(req, arcs)
    requires k < |arcs| && Stands(req, s, arcs[..k])
    requires forall link: nat :: Opens(req, s, link) ==> HasChild(req, s, link, children)
    ensures Waits(req, children, arcs)
  {
    NextLinkOpens(req, s, arcs, k);
    var a := arcs[k];
    var c :| c in children && c == Child(req, s, a.link, c.serial);
    ChildStands(req, s, arcs[..k], a.link, c.serial);
    PrefixStep(arcs, k);
    assert Stands(req, c, arcs[..k + 1]);
    assert Holds(req, c, arcs);
  }

  /** A state at the destination holds no legal route but its own. */
  lemma ArrivedHoldsItself(req: Request, s: State, arcs: seq<Arc>, k: nat)
    requires LegalRoute(req, arcs) && k <= |arcs| && Stands(req, s, arcs[..k])
    requires s.node == req.destination && s.path != []
    ensures k == |arcs| && s.path == Ids(req, arcs)
  {
    ChainEnd(req.origin, arcs[..k], s.node);
    ChainEnd(req.origin, arcs, req.destination);
    assert Nodes(req.origin, arcs)[k] == Nodes(req.origin, arcs)[|arcs|];
    assert arcs[..k] == arcs;
  }

  lemma LegalRouteLeavesOrigin(req: Request, arcs: seq<Arc>)
    requires LegalRoute(req, arcs)
    ensures req.origin != req.destination
  {
    ChainEnd(req.origin, arcs, req.destination);
    assert Nodes(req.origin, arcs)[0] != Nodes(req.origin, arcs)[|arcs|];
  }

  // ----- What one pop does to the coverage

  ghost predicate Popped(heap: seq<State>, top: State, rest: seq<State>) {
    && multiset(heap) == multiset(rest) + multiset{top}
    && forall x :: x in rest ==> Precedes(top, x)
  }

  lemma PoppedElements(heap: seq<State>, top: State, rest: seq<State>)
    requires Popped(heap, top, rest)
    ensures top in heap
    ensures forall s :: s in heap <==> s == top || s in rest
  {
    assert top in multiset(heap);
    forall s ensures s in heap <==> s == top || s in rest {
      assert s in heap <==> s in multiset(heap);
      assert s in rest <==> s in multiset(rest);
    }
  }

  lemma CoverAfterArrival(req: Request, paths: seq<seq<int>>, paths': seq<seq<int>>, heap: seq<State>,
                          top: State, rest: seq<State>)
    requires AllCovered(req, paths, heap) && Popped(heap, top, rest)
    requires top.node == req.destination && top.path != []
    requires top.path in paths' && forall p :: p in paths ==> p in paths'
    ensures AllCovered(req, paths', rest)
  {
    PoppedElements(heap, top, rest);
    forall arcs | Wanted(req, arcs) ensures Ids(req, arcs) in paths' || Waits(req, rest, arcs) {
      if Ids(req, arcs) !in paths {
        var s :| s in heap && Holds(req, s, arcs);
        if s !in rest {
          var k :| 0 <= k <= |arcs| && Stands(req, s, arcs[..k]);
          ArrivedHoldsItself(req, s, arcs, k);
        }
      }
    }
  }

  lemma TopHandsOver(req: Request, top: State, arcs: seq<Arc>, children: seq<State>)
    requires Consistent(req) && Wanted(req, arcs) && Holds(req, top, arcs)
    requires top.node != req.destination
    requires |top.path| >= req.maxHops
          || forall link: nat :: Opens(req, top, link) ==> HasChild(req, top, link, children)
    ensures Waits(req, children, arcs)
  {
    var k :| 0 <= k <= |arcs| && Stands(req, top, arcs[..k]);
    if k == |arcs| {
      ChainEnd(req.origin, arcs, req.destination);
      StandsAt(req, top, arcs, k);
    }
    ChildHolds(req, top, arcs, k, children);
  }

  lemma CoverAfterExpansion(req: Request, paths: seq<seq<int>>, heap: seq<State>, top: State,
                            rest: seq<State>, children: seq<State>)
    requires Consistent(req) && AllCovered(req, paths, heap) && Popped(heap, top, rest)
    requires top.node != req.destination
    requires |top.path| >= req.maxHops
          || forall link: nat :: Opens(req, top, link) ==> HasChild(req, top, link, children)
    ensures AllCovered(req, paths, rest + children)
  {
    PoppedElements(heap, top, rest);
    forall arcs | Wanted(req, arcs) ensures Ids(req, arcs) in paths || Waits(req, rest + children, arcs) {
      if Ids(req, arcs) !in paths {
        var s :| s in heap && Holds(req, s, arcs);
        if s in rest {
          assert s in rest + children;
        } else {
          TopHandsOver(req, top, arcs, children);
          var c :| c in children && Holds(req, c, arcs);
          assert c in rest + children;
        }
      }
    }
  }

  // ----- What one pop does to the order

  /** Answers come in order of cost, none above `last`, and nothing in the heap is estimated
      below it. */
  ghost predicate Ordered(req: Request, routes: seq<seq<Arc>>, heap: seq<State>, last: real) {
    && (forall s :: s in heap ==> last <= s.estimated)
    && (forall i :: 0 <= i < |routes| ==> Cost(req.cost, routes[i]) <= last)
    && (forall i, j :: 0 <= i <= j < |routes| ==> Cost(req.cost, routes[i]) <= Cost(req.cost, routes[j]))
  }

  lemma ChildEstimate(req: Request, s: State, arcs: seq<Arc>, c: State)
    requires Consistent(req) && Stands(req, s, arcs) && IsChild(req, s, c)
    requires s.node != req.destination || arcs == []
    ensures s.estimated <= c.estimated
  {
    var link: nat :| Opens(req, s, link) && c == Child(req, s, link, c.serial);
    assert OutgoingArc(req, Arc(s.node, link, req.dst[link]));
    CostNonNegative(req, arcs);
  }

  lemma OrderAfterExpansion(req: Request, routes: seq<seq<Arc>>, heap: seq<State>, last: real,
                            top: State, rest: seq<State>, children: seq<State>)
    requires Consistent(req) && Represented(req, heap) && Ordered(req, routes, heap, last)
    requires Popped(heap, top, rest) && top.node != req.destination
    requires forall c :: c in children ==> IsChild(req, top, c)
    ensures Ordered(req, routes, rest + children, top.estimated)
  {
    PoppedElements(heap, top, rest);
    var arcs :| Stands(req, top, arcs);
    forall s | s in rest + children ensures top.estimated <= s.estimated {
      if s in children {
        ChildEstimate(req, top, arcs, s);
      }
    }
  }

  lemma OrderAfterArrival(req: Request, routes: seq<seq<Arc>>, heap: seq<State>, last: real,
                          top: State, rest: seq<State>, arcs: seq<Arc>)
    requires Ordered(req, routes, heap, last) && Popped(heap, top, rest)
    requires Stands(req, top, arcs) && arcs != [] && top.node == req.destination
    ensures Ordered(req, routes, rest, top.estimated)
    ensures Ordered(req, routes + [arcs], rest, top.estimated)
  {
    PoppedElements(heap, top, rest);
    assert top.estimated == Cost(req.cost, arcs);
  }

  /** No wanted route is cheaper than `route`, but for those an earlier answer has named. */
  ghost predicate Foremost(req: Request, route: seq<Arc>, earlier: seq<seq<int>>) {
    forall arcs :: Wanted(req, arcs) && Ids(req, arcs) !in earlier ==> Cost(req.cost, route) <= Cost(req.cost, arcs)
  }

  ghost predicate AllForemost(req: Request, routes: seq<seq<Arc>>, paths: seq<seq<int>>)
    requires |routes| == |paths|
  {
    forall i :: 0 <= i < |routes| ==> Foremost(req, routes[i], paths[..i])
  }

  /** What has not been named by an earlier answer waits in the heap, behind the arriving state. */
  lemma ArrivalIsForemost(req: Request, paths: seq<seq<int>>, heap: seq<State>, top: State, rest: seq<State>,
                          arcs: seq<Arc>)
    requires Consistent(req) && AllCovered(req, paths, heap) && Popped(heap, top, rest)
    requires Stands(req, top, arcs) && arcs != [] && top.node == req.destination
    ensures Foremost(req, arcs, paths)
  {
    PoppedElements(heap, top, rest);
    assert top.estimated == Cost(req.cost, arcs);
    forall other | Wanted(req, other) && Ids(req, other) !in paths
      ensures top.estimated <= Cost(req.cost, other)
    {
      var s :| s in heap && Holds(req, s, other);
      HeldEstimate(req, s, other);
    }
  }

  lemma ForemostGrows(req: Request, routes: seq<seq<Arc>>, paths: seq<seq<int>>, arcs: seq<Arc>, path: seq<int>)
    requires |routes| == |paths| && AllForemost(req, routes, paths) && Foremost(req, arcs, paths)
    ensures AllForemost(req, routes + [arcs], paths + [path])
  {
    forall i | 0 <= i < |routes + [arcs]| ensures Foremost(req, (routes + [arcs])[i], (paths + [path])[..i]) {
      if i < |routes| {
        assert (paths + [path])[..i] == paths[..i];
      } else {
        assert (paths + [path])[..i] == paths;
      }
    }
  }

  // ----- The enumeration

  /** Each answer is the id sequence of a legal route, and no answer is given twice. */
  ghost predicate Answers(req: Request, routes: seq<seq<Arc>>, paths: seq<seq<int>>) {
    && |routes| == |paths|
    && (forall i :: 0 <= i < |routes| ==> LegalRoute(req, routes[i]) && paths[i] == Ids(req, routes[i]))
    && Distinct(paths)
  }

  ghost predicate Ranking(req: Request, routes: seq<seq<Arc>>, paths: seq<seq<int>>,
                          heap: seq<State>, last: real)
  {
    && Represented(req, heap)
    && Answers(req, routes, paths)
    && (Consistent(req) ==>
          Ordered(req, routes, heap, last) && AllCovered(req, paths, heap) && AllForemost(req, routes, paths))
  }

  lemma Start(req: Request, s: State)
    requires s == State(0.0, 0.0, 0, [], req.origin, req.incoming, s.visited)
    requires |s.visited| == req.nodeCount && Marks(s.visited, [req.origin])
    ensures Ranking(req, [], [], [s], 0.0)
  {
    assert Nodes(req.origin, []) == [req.origin];
    assert Stands(req, s, []);
    StartHolds(req, s);
    forall arcs | Wanted(req, arcs) ensures Waits(req, [s], arcs) {
      assert s in [s] && Holds(req, s, arcs);
    }
  }

  lemma Arrive(req: Request, routes: seq<seq<Arc>>, paths: seq<seq<int>>, heap: seq<State>, last: real,
               top: State, rest: seq<State>) returns (arcs: seq<Arc>)
    requires Ranking(req, routes, paths, heap, last) && Popped(heap, top, rest)
    requires top.node == req.destination && top.path != []
    ensures top.path in paths ==> Ranking(req, routes, paths, rest, top.estimated)
    ensures top.path !in paths ==> Ranking(req, routes + [arcs], paths + [top.path], rest, top.estimated)
  {
    PoppedElements(heap, top, rest);
    arcs :| Stands(req, top, arcs);
    assert LegalRoute(req, arcs);
    if Consistent(req) {
      OrderAfterArrival(req, routes, heap, last, top, rest, arcs);
      if top.path in paths {
        CoverAfterArrival(req, paths, paths, heap, top, rest);
      } else {
        CoverAfterArrival(req, paths, paths + [top.path], heap, top, rest);
        ArrivalIsForemost(req, paths, heap, top, rest, arcs);
        ForemostGrows(req, routes, paths, arcs, top.path);
      }
    }
  }

  lemma Extend(req: Request, routes: seq<seq<Arc>>, paths: seq<seq<int>>, heap: seq<State>, last: real,
               top: State, rest: seq<State>, children: seq<State>)
    requires Ranking(req, routes, paths, heap, last) && Popped(heap, top, rest)
    requires top.node != req.destination
    requires forall c :: c in children ==> IsChild(req, top, c)
    requires if |top.path| >= req.maxHops then children == []
             else forall link: nat :: Opens(req, top, link) ==> HasChild(req, top, link, children)
    ensures Ranking(req, routes, paths, rest + children, top.estimated)
  {
    PoppedElements(heap, top, rest);
    var arcs :| Stands(req, top, arcs);
    forall s | s in rest + children ensures exists arcs :: Stands(req, s, arcs) {
      if s !in rest {
        var link: nat :| Opens(req, top, link) && s == Child(req, top, link, s.serial);
        ChildStands(req, top, arcs, link, s.serial);
      }
    }
    if Consistent(req) {
      OrderAfterExpansion(req, routes, heap, last, top, rest, children);
      CoverAfterExpansion(req, paths, heap, top, rest, children);
    }
  }

  // ----- What the limit on expansions allows

  /** For every bound the search has reached or may still reach: what has been spent and what is
      left below the heap fit into what there was to search. */
  ghost predicate Budgeted(req: Request, start: State, heap: seq<State>, last: real, spent: nat) {
    forall bound: real :: last <= bound ==> spent + HeapSize(req, heap, bound) <= Size(req, start, bound)
  }

  lemma BudgetAfterPop(req: Request, start: State, heap: seq<State>, last: real, spent: nat, top: State,
                       rest: seq<State>, children: seq<State>)
    requires Budgeted(req, start, heap, last, spent) && Popped(heap, top, rest) && last <= top.estimated
    requires Placed(req, top)
    requires if Arrived(req, top) || |top.path| >= req.maxHops then children == []
             else forall bound: real :: HeapSize(req, children, bound) == SizeBelow(req, top, bound)
    ensures Budgeted(req, start, rest + children, top.estimated, spent + 1)
  {
    forall bound: real | top.estimated <= bound
      ensures spent + 1 + HeapSize(req, rest + children, bound) <= Size(req, start, bound)
    {
      HeapSizeConcat(req, rest, children, bound);
      HeapSizePermutes(req, heap, rest + [top], bound);
      HeapSizeConcat(req, rest, [top], bound);
      HeapSizeOne(req, top, bound);
    }
  }

  /** Up to any cost below which there are at most `limit` states to search, every wanted route is
      answered. */
  ghost predicate CompleteWithin(req: Request, paths: seq<seq<int>>, limit: nat) {
    forall bound: real :: SearchSize(req, bound) <= limit ==> CompleteUpTo(req, paths, bound)
  }

  /** Every wanted route that costs at most `bound` is answered. */
  ghost predicate CompleteUpTo(req: Request, paths: seq<seq<int>>, bound: real) {
    forall arcs :: Wanted(req, arcs) && Cost(req.cost, arcs) <= bound ==> Ids(req, arcs) in paths
  }

  lemma {:induction false} SpentHeapIsAbove(req: Request, heap: seq<State>, bound: real, s: State)
    requires HeapSize(req, heap, bound) == 0 && s in heap
    ensures s.estimated > bound
  {
    var last := |heap| - 1;
    if s != heap[last] {
      SpentHeapIsAbove(req, heap[..last], bound, s);
    }
  }

  /** If all there is to search up to `bound` fits into what has been spent, then every wanted route
      up to `bound` has been answered. */
  lemma SpentBudgetIsComplete(req: Request, start: State, routes: seq<seq<Arc>>, paths: seq<seq<int>>,
                              heap: seq<State>, last: real, spent: nat, bound: real)
    requires Ranking(req, routes, paths, heap, last) && Consistent(req)
    requires Budgeted(req, start, heap, last, spent)
    requires heap == [] || Size(req, start, bound) <= spent
    ensures CompleteUpTo(req, paths, bound)
  {
    forall arcs | Wanted(req, arcs) && Cost(req.cost, arcs) <= bound ensures Ids(req, arcs) in paths {
      if Ids(req, arcs) !in paths {
        var s :| s in heap && Holds(req, s, arcs);
        HeldEstimate(req, s, arcs);
        assert last <= bound;
        assert spent + HeapSize(req, heap, bound) <= Size(req, start, bound);
        SpentHeapIsAbove(req, heap, bound, s);
      }
    }
  }

  function StartState(req: Request): State {
    State(0.0, 0.0, 0, [], req.origin, req.incoming, seq(req.nodeCount, i => i == req.origin))
  }

  /** The number of legal partial routes from the origin, counted by adjacency entries, that reach
      no estimate above `bound`. */
  ghost function SearchSize(req: Request, bound: real): nat {
    Size(req, StartState(req), bound)
  }

  /** The answers are in order of cost, and each is at least as cheap as every wanted route that no
      earlier answer names: as cheap as any of its own name, and as any that is not answered. */
  ghost predicate CheapestFirst(req: Request, routes: seq<seq<Arc>>, paths: seq<seq<int>>) {
    && |routes| == |paths|
    && (forall i, j :: 0 <= i <= j < |routes| ==> Cost(req.cost, routes[i]) <= Cost(req.cost, routes[j]))
    && AllForemost(req, routes, paths)
  }

  lemma RankingIsCheapestFirst(req: Request, routes: seq<seq<Arc>>, paths: seq<seq<int>>,
                               heap: seq<State>, last: real)
    requires Ranking(req, routes, paths, heap, last) && Consistent(req)
    ensures CheapestFirst(req, routes, paths)
    ensures forall arcs :: Wanted(req, arcs) && Ids(req, arcs) !in paths ==>
              last <= Cost(req.cost, arcs) && forall i :: 0 <= i < |routes| ==>
                Cost(req.cost, routes[i]) <= Cost(req.cost, arcs)
  {
    forall arcs | Wanted(req, arcs) && Ids(req, arcs) !in paths ensures last <= Cost(req.cost, arcs) {
      var s :| s in heap && Holds(req, s, arcs);
      HeldEstimate(req, s, arcs);
    }
  }

  // ----- The search as a sequence of expansions

  /** What the search holds between two expansions. */
  datatype Stage = Stage(heap: seq<State>, paths: seq<seq<int>>, serial: nat)

  /** A route that arrives is answered unless its ids were; one with hops left gives way to its
      children; any other is dropped. */
  ghost predicate ExpandsTo(req: Request, s: Stage, t: Stage, top: State, rest: seq<State>) {
    && Popped(s.heap, top, rest)
    && if top.node == req.destination && top.path != [] then
         t == Stage(rest, if top.path in s.paths then s.paths else s.paths + [top.path], s.serial)
       else if |top.path| >= req.maxHops then
         t == Stage(rest, s.paths, s.serial)
       else
         exists children :: AreChildren(req, top, s.serial, children)
           && t == Stage(rest + children, s.paths, s.serial + |children|)
  }

  ghost predicate IsExpansion(req: Request, s: Stage, t: Stage) {
    exists top, rest :: ExpandsTo(req, s, t, top, rest)
  }

  ghost predicate ExpansionAt(req: Request, stages: seq<Stage>, k: nat) {
    var next := k + 1;
    next < |stages| ==> IsExpansion(req, stages[k], stages[next])
  }

  ghost predicate IsEnumeration(req: Request, stages: seq<Stage>) {
    && stages != [] && stages[0] == Stage([StartState(req)], [], 0)
    && forall k: nat :: ExpansionAt(req, stages, k)
  }

  /** The search ends when the heap is empty, enough paths are found, or `maxCandidates` times the
      larger of 16 and four times the link count expansions are made; and never makes more. */
  ghost predicate StopsInTime(req: Request, stages: seq<Stage>, maxCandidates: nat) {
    var n := |req.linkIds|;
    var most := if 4 * n <= 16 then 16 * maxCandidates else 4 * n * maxCandidates;
    && stages != [] && |stages| - 1 <= most
    && var last := stages[|stages| - 1];
       last.heap == [] || |last.paths| == maxCandidates || |stages| - 1 == most
  }

  lemma NextStage(req: Request, stages: seq<Stage>, top: State, rest: seq<State>, t: Stage)
    requires IsEnumeration(req, stages) && ExpandsTo(req, stages[|stages| - 1], t, top, rest)
    ensures IsEnumeration(req, stages + [t])
  {
    var longer := stages + [t];
    forall k: nat ensures ExpansionAt(req, longer, k) {
      assert ExpansionAt(req, stages, k);
    }
  }

  function MaxExpansions(req: Request, maxCandidates: nat): nat {
    maxCandidates * if |req.linkIds| * 4 > 16 then |req.linkIds| * 4 else 16
  }

  /** The answers are distinct legal routes, at most `maxCandidates` of them. Over a consistent
      table they are a cheapest-first prefix of the wanted routes, whatever stops the search; and
      when fewer than `maxCandidates` came back, every wanted route is among them up to any cost
      below which there is no more to search than the limit on expansions. */
  method ComputeRankedRoutes(input: RouteInput, maxCandidates: nat)
    returns (r: Result<seq<seq<int>>, RouteError>, ghost routes: seq<seq<Arc>>, ghost stages: seq<Stage>)
    ensures r.Ok? <==> maxCandidates > 0 && ValidInput(input)
    ensures r.Err? ==> r.error == if maxCandidates == 0 then MaxCandidatesZero else Validate(input).error
    ensures r.Ok? ==> Answers(input, routes, r.value) && |r.value| <= maxCandidates
    ensures r.Ok? && Consistent(input) ==> CheapestFirst(input, routes, r.value)
    ensures r.Ok? && Consistent(input) && |r.value| < maxCandidates ==>
              CompleteWithin(input, r.value, 16 * maxCandidates)
              && CompleteWithin(input, r.value, 4 * |input.linkIds| * maxCandidates)
    ensures r.Ok? && input.origin != input.destination ==>
              && IsEnumeration(input, stages) && StopsInTime(input, stages, maxCandidates)
              && stages[|stages| - 1].paths == r.value
  {
    if maxCandidates == 0 {
      return Err(MaxCandidatesZero), [], [];
    }
    var check := Validate(input);
    if check.Err? {
      return Err(check.error), [], [];
    }
    if input.origin == input.destination {
      NoRouteToOrigin(input);
      return Ok([]), [], [];
    }
    var paths;
    paths, routes, stages := Enumerate(input, maxCandidates);
    return Ok(paths), routes, stages;
  }

  lemma NoRouteToOrigin(req: Request)
    requires req.origin == req.destination
    ensures forall arcs :: !LegalRoute(req, arcs)
  {
    forall arcs ensures !LegalRoute(req, arcs) {
      if LegalRoute(req, arcs) {
        LegalRouteLeavesOrigin(req, arcs);
      }
    }
  }

  /** The best-first loop. */
  method Enumerate(req: Request, maxCandidates: nat)
    returns (paths: seq<seq<int>>, ghost routes: seq<seq<Arc>>, ghost stages: seq<Stage>)
    requires req.origin != req.destination
    ensures Answers(req, routes, paths) && |paths| <= maxCandidates
    ensures Consistent(req) ==> CheapestFirst(req, routes, paths)
    ensures Consistent(req) && |paths| < maxCandidates ==>
              CompleteWithin(req, paths, 16 * maxCandidates)
              && CompleteWithin(req, paths, 4 * |req.linkIds| * maxCandidates)
    ensures IsEnumeration(req, stages) && StopsInTime(req, stages, maxCandidates)
    ensures stages[|stages| - 1].paths == paths
  {
    paths, routes := [], [];
    var seen: set<seq<int>> := {};
    var serial: nat := 0;
    var lookup := BuildTurnLookup(req);
    var heap := [StartState(req)];
    stages := StartEnumeration(req);
    var limit := MaxExpansions(req, maxCandidates);
    ghost var last := 0.0;
    var spent := 0;
    while |heap| > 0
      invariant Enumerating(req, routes, stages, last) && |stages| == spent + 1
      invariant stages[spent] == Stage(heap, paths, serial)
      invariant |paths| <= maxCandidates && spent <= limit
      invariant forall p :: p in seen <==> p in paths
      decreases limit - spent, |heap|
    {
      var top, rest := PopGreatest(heap, LOWER_PRIORITY);
      if |paths| >= maxCandidates || spent >= limit {
        break;
      }
      heap, serial, paths, seen, routes, stages :=
        ExpandTop(req, lookup, heap, top, rest, serial, paths, seen, routes, stages, last);
      spent := spent + 1;
      last := top.estimated;
    }
    LimitIs(req, maxCandidates);
    if Consistent(req) {
      EnumerationIsComplete(req, routes, stages, last, limit);
    }
  }

  /** What the loop does with the state it has popped. */
  method ExpandTop(req: Request, lookup: TurnLookup, ghost heap: seq<State>, top: State, rest: seq<State>,
                   serial: nat, paths: seq<seq<int>>, seen: set<seq<int>>, ghost routes: seq<seq<Arc>>,
                   ghost stages: seq<Stage>, ghost last: real)
    returns (heap': seq<State>, serial': nat, paths': seq<seq<int>>, seen': set<seq<int>>,
             ghost routes': seq<seq<Arc>>, ghost stages': seq<Stage>)
    requires LookupFor(req, lookup) && req.origin != req.destination && Popped(heap, top, rest)
    requires Enumerating(req, routes, stages, last) && stages[|stages| - 1] == Stage(heap, paths, serial)
    requires forall p :: p in seen <==> p in paths
    ensures Enumerating(req, routes', stages', top.estimated) && |stages'| == |stages| + 1
    ensures stages'[|stages|] == Stage(heap', paths', serial')
    ensures |paths'| <= |paths| + 1 && forall p :: p in seen' <==> p in paths'
  {
    serial', paths', seen', routes' := serial, paths, seen, routes;
    if Arrived(req, top) {
      ghost var arcs;
      arcs, stages' := Arrival(req, routes, stages, last, top, rest);
      if top.path !in seen {
        seen' := seen + {top.path};
        paths' := paths + [top.path];
        routes' := routes + [arcs];
      }
      heap' := rest;
      return;
    }
    TopStands(req, routes, paths, heap, last, top, rest);
    var children: seq<State> := [];
    if |top.path| < req.maxHops {
      children := Expand(req, lookup, top, serial);
    }
    stages' := Expansion(req, routes, stages, last, top, rest, children);
    serial' := serial + |children|;
    heap' := rest + children;
  }

  /** The search after the stages so far, with a route for every path. */
  ghost predicate Enumerating(req: Request, routes: seq<seq<Arc>>, stages: seq<Stage>, last: real) {
    && IsEnumeration(req, stages)
    && var s := stages[|stages| - 1];
       && Ranking(req, routes, s.paths, s.heap, last)
       && (Consistent(req) ==> Budgeted(req, StartState(req), s.heap, last, |stages| - 1))
  }

  lemma StartEnumeration(req: Request) returns (stages: seq<Stage>)
    ensures stages == [Stage([StartState(req)], [], 0)] && Enumerating(req, [], stages, 0.0)
  {
    stages := [Stage([StartState(req)], [], 0)];
    StartRanking(req);
  }

  lemma Arrival(req: Request, routes: seq<seq<Arc>>, stages: seq<Stage>, last: real, top: State, rest: seq<State>)
    returns (arcs: seq<Arc>, longer: seq<Stage>)
    requires Enumerating(req, routes, stages, last) && Popped(stages[|stages| - 1].heap, top, rest)
    requires Arrived(req, top)
    ensures var s := stages[|stages| - 1];
            var known := top.path in s.paths;
            && longer == stages + [Stage(rest, if known then s.paths else s.paths + [top.path], s.serial)]
            && Enumerating(req, if known then routes else routes + [arcs], longer, top.estimated)
  {
    var s := stages[|stages| - 1];
    var t := Stage(rest, if top.path in s.paths then s.paths else s.paths + [top.path], s.serial);
    longer := stages + [t];
    arcs := Arrive(req, routes, s.paths, s.heap, last, top, rest);
    TopStands(req, routes, s.paths, s.heap, last, top, rest);
    assert rest + [] == rest;
    if Consistent(req) {
      BudgetAfterPop(req, StartState(req), s.heap, last, |stages| - 1, top, rest, []);
    }
    NextStage(req, stages, top, rest, t);
  }

  lemma Expansion(req: Request, routes: seq<seq<Arc>>, stages: seq<Stage>, last: real, top: State, rest: seq<State>,
                  children: seq<State>)
    returns (longer: seq<Stage>)
    requires Enumerating(req, routes, stages, last) && Popped(stages[|stages| - 1].heap, top, rest)
    requires req.origin != req.destination && !Arrived(req, top)
    requires forall c :: c in children ==> IsChild(req, top, c)
    requires if |top.path| >= req.maxHops then children == []
             else && AreChildren(req, top, stages[|stages| - 1].serial, children)
                  && (forall link: nat :: Opens(req, top, link) ==> HasChild(req, top, link, children))
                  && forall bound: real ::
                       Placed(req, top) && HeapSize(req, children, bound) == SizeBelow(req, top, bound)
    ensures var s := stages[|stages| - 1];
            && longer == stages + [Stage(rest + children, s.paths, s.serial + |children|)]
            && Enumerating(req, routes, longer, top.estimated)
  {
    var s := stages[|stages| - 1];
    var t := Stage(rest + children, s.paths, s.serial + |children|);
    longer := stages + [t];
    TopStands(req, routes, s.paths, s.heap, last, top, rest);
    Extend(req, routes, s.paths, s.heap, last, top, rest, children);
    if Consistent(req) {
      BudgetAfterPop(req, StartState(req), s.heap, last, |stages| - 1, top, rest, children);
    }
    assert rest + [] == rest;
    NextStage(req, stages, top, rest, t);
  }

  lemma EnumerationIsComplete(req: Request, routes: seq<seq<Arc>>, stages: seq<Stage>, last: real, limit: nat)
    requires Enumerating(req, routes, stages, last) && Consistent(req)
    ensures var s := stages[|stages| - 1];
            && CheapestFirst(req, routes, s.paths)
            && (s.heap == [] || limit < |stages| ==> forall n: nat :: n <= limit ==> CompleteWithin(req, s.paths, n))
  {
    var s := stages[|stages| - 1];
    RankingIsCheapestFirst(req, routes, s.paths, s.heap, last);
    if s.heap == [] || limit < |stages| {
      SearchIsComplete(req, routes, s.paths, s.heap, last, |stages| - 1, limit);
    }
  }

  lemma LimitIs(req: Request, maxCandidates: nat)
    ensures var limit, n := MaxExpansions(req, maxCandidates), |req.linkIds|;
            && limit >= 16 * maxCandidates && limit >= 4 * n * maxCandidates
            && limit == if 4 * n <= 16 then 16 * maxCandidates else 4 * n * maxCandidates
  {
    var n := |req.linkIds|;
    if 4 * n <= 16 {
      assert (16 - 4 * n) * maxCandidates >= 0;
    } else {
      assert (4 * n - 16) * maxCandidates >= 0;
    }
  }

  lemma SearchIsComplete(req: Request, routes: seq<seq<Arc>>, paths: seq<seq<int>>, heap: seq<State>, last: real,
                         spent: nat, limit: nat)
    requires Ranking(req, routes, paths, heap, last) && Consistent(req)
    requires Budgeted(req, StartState(req), heap, last, spent) && (heap == [] || limit <= spent)
    ensures forall n: nat :: n <= limit ==> CompleteWithin(req, paths, n)
  {
    forall bound: real | SearchSize(req, bound) <= limit ensures CompleteUpTo(req, paths, bound) {
      SpentBudgetIsComplete(req, StartState(req), routes, paths, heap, last, spent, bound);
    }
  }

  lemma StartRanking(req: Request)
    ensures Ranking(req, [], [], [StartState(req)], 0.0)
    ensures Budgeted(req, StartState(req), [StartState(req)], 0.0, 0)
  {
    Start(req, StartState(req));
    forall bound: real ensures HeapSize(req, [StartState(req)], bound) == Size(req, StartState(req), bound) {
      HeapSizeOne(req, StartState(req), bound);
    }
  }

  lemma TopStands(req: Request, routes: seq<seq<Arc>>, paths: seq<seq<int>>, heap: seq<State>, last: real,
                  top: State, rest: seq<State>)
    requires Ranking(req, routes, paths, heap, last) && Popped(heap, top, rest)
    ensures Placed(req, top)
    ensures Consistent(req) ==> last <= top.estimated
    ensures top.node == req.destination && top.path == [] ==> req.origin == req.destination
  {
    PoppedElements(heap, top, rest);
    var arcs :| Stands(req, top, arcs);
  }
}
