/** The outgoing road network, its turn rules and the choice of the next link: what the greedy
    and the ranked route search share. */
module RouteNetwork {
  import opened Results
  import opened Sorting
  import opened RoadArcs

  /** The arguments of a route search: the network with its turn records, the cost-to-go table,
      the current link costs and blocks, and the question asked. */
  datatype RouteInput = RouteInput(
    nodeCount: nat,
    linkIds: seq<int>,
    dst: seq<int>,
    indptr: seq<int>,
    slots: seq<int>,
    turnFrom: seq<int>,
    turnTo: seq<int>,
    turnForbidden: seq<bool>,
    costToGo: seq<real>,
    cost: seq<real>,
    blocked: seq<bool>,
    origin: nat,
    destination: nat,
    incoming: int,
    maxHops: nat)

  datatype RouteError =
    | MaxHopsZero | OriginOutOfRange | DestinationOutOfRange | CostToGoLength
    | DstLength | CostLength | BlockedLength
    | IndptrLength | IndptrStart | IndptrDecreasing | IndptrEnd | SlotCount | SlotRange
    | DstRange | IncomingOutOfRange
    | TurnToLength | TurnForbiddenLength | TurnFromRange | TurnToRange
    | NegativeCostToGo | NegativeCost
    | MaxCandidatesZero

  predicate ValidInput(i: RouteInput) {
    var linkCount := |i.linkIds|;
    && i.maxHops > 0
    && i.origin < i.nodeCount && i.destination < i.nodeCount
    && |i.costToGo| == i.nodeCount
    && |i.dst| == |i.cost| == |i.blocked| == |i.slots| == linkCount
    && CsrIndex(i.indptr, i.nodeCount, linkCount)
    && AllBelow(i.slots, linkCount)
    && AllBelow(i.dst, i.nodeCount)
    && -1 <= i.incoming < linkCount
    && |i.turnTo| == |i.turnForbidden| == |i.turnFrom|
    && AllBelow(i.turnFrom, linkCount)
    && AllBelow(i.turnTo, linkCount)
    && NonNegative(i.costToGo)
    && NonNegative(i.cost)
  }

  const SINGLE_NODE := RouteInput(1, [], [], [0, 0], [], [], [], [], [0.0], [], [], 0, 0, -1, 1)

  /** An input that passes the source's validator. */
  type Request = i: RouteInput | ValidInput(i) witness SINGLE_NODE

  /** Where a check stands among the checks. */
  function CheckStage(e: RouteError): nat {
    match e
    case MaxHopsZero => 0
    case OriginOutOfRange => 1
    case DestinationOutOfRange => 2
    case CostToGoLength => 3
    case DstLength => 4
    case CostLength => 5
    case BlockedLength => 6
    case IndptrLength => 7
    case IndptrStart => 8
    case IndptrDecreasing => 9
    case IndptrEnd => 10
    case SlotCount => 11
    case SlotRange => 12
    case DstRange => 13
    case IncomingOutOfRange => 14
    case TurnToLength => 15
    case TurnForbiddenLength => 16
    case TurnFromRange => 17
    case TurnToRange => 18
    case NegativeCostToGo => 19
    case NegativeCost => 20
    case MaxCandidatesZero => 21
  }

  /** The input deserves the error `e`, whatever else is wrong with it. */
  predicate Deserves(i: RouteInput, e: RouteError) {
    match e
    case MaxHopsZero => i.maxHops == 0
    case OriginOutOfRange => i.origin >= i.nodeCount
    case DestinationOutOfRange => i.destination >= i.nodeCount
    case CostToGoLength => |i.costToGo| != i.nodeCount
    case DstLength => |i.dst| != |i.linkIds|
    case CostLength => |i.cost| != |i.linkIds|
    case BlockedLength => |i.blocked| != |i.linkIds|
    case IndptrLength => |i.indptr| != i.nodeCount + 1
    case IndptrStart => i.indptr != [] && i.indptr[0] != 0
    case IndptrDecreasing => !NonDecreasing(i.indptr)
    case IndptrEnd => |i.indptr| == i.nodeCount + 1 && i.indptr[i.nodeCount] != |i.slots|
    case SlotCount => |i.slots| != |i.linkIds|
    case SlotRange => !AllBelow(i.slots, |i.linkIds|)
    case DstRange => !AllBelow(i.dst, i.nodeCount)
    case IncomingOutOfRange => i.incoming < -1 || i.incoming >= |i.linkIds|
    case TurnToLength => |i.turnTo| != |i.turnFrom|
    case TurnForbiddenLength => |i.turnForbidden| != |i.turnFrom|
    case TurnFromRange => !AllBelow(i.turnFrom, |i.linkIds|)
    case TurnToRange => !AllBelow(i.turnTo, |i.linkIds|)
    case NegativeCostToGo => !NonNegative(i.costToGo)
    case NegativeCost => !NonNegative(i.cost)
    case MaxCandidatesZero => false
  }

  /** The checks in the source's order. */
  function Validate(i: RouteInput): (r: Result<nat, RouteError>)
    ensures r.Ok? <==> ValidInput(i)
    ensures r.Ok? ==> r.value == |i.linkIds|
    ensures r.Err? ==> Deserves(i, r.error)
  {
    var linkCount := |i.linkIds|;
    if i.maxHops == 0 then Err(MaxHopsZero)
    else if i.origin >= i.nodeCount then Err(OriginOutOfRange)
    else if i.destination >= i.nodeCount then Err(DestinationOutOfRange)
    else if |i.costToGo| != i.nodeCount then Err(CostToGoLength)
    else if |i.dst| != linkCount then Err(DstLength)
    else if |i.cost| != linkCount then Err(CostLength)
    else if |i.blocked| != linkCount then Err(BlockedLength)
    else if |i.indptr| != i.nodeCount + 1 then Err(IndptrLength)
    else if i.indptr[0] != 0 then Err(IndptrStart)
    else if !NonDecreasing(i.indptr) then Err(IndptrDecreasing)
    else if i.indptr[i.nodeCount] != |i.slots| then Err(IndptrEnd)
    else if |i.slots| != linkCount then Err(SlotCount)
    else if !AllBelow(i.slots, linkCount) then Err(SlotRange)
    else if !AllBelow(i.dst, i.nodeCount) then Err(DstRange)
    else if i.incoming < -1 || i.incoming >= linkCount then Err(IncomingOutOfRange)
    else if |i.turnTo| != |i.turnFrom| then Err(TurnToLength)
    else if |i.turnForbidden| != |i.turnFrom| then Err(TurnForbiddenLength)
    else if !AllBelow(i.turnFrom, linkCount) then Err(TurnFromRange)
    else if !AllBelow(i.turnTo, linkCount) then Err(TurnToRange)
    else if !NonNegative(i.costToGo) then Err(NegativeCostToGo)
    else if !NonNegative(i.cost) then Err(NegativeCost)
    else Ok(linkCount)
  }

  /** The error is the first in the source's order among those the input deserves. */
  lemma FirstErrorIsGiven(i: RouteInput, e: RouteError)
    requires Deserves(i, e)
    ensures Validate(i).Err? && (e == Validate(i).error || CheckStage(Validate(i).error) < CheckStage(e))
  {
  }

  // ----- Turn rules

  ghost predicate TurnRecord(req: Request, from: int, to: nat)
  {
    exists t :: 0 <= t < |req.turnFrom| && req.turnFrom[t] == from && req.turnTo[t] == to && !req.turnForbidden[t]
  }

  /** Without an incoming link, or without any turn record at all, every turn is open; otherwise
      a turn needs a record that does not forbid it. */
  ghost predicate TurnAllowed(req: Request, from: int, to: nat)
  {
    from < 0 || req.turnFrom == [] || TurnRecord(req, from, to)
  }

  datatype TurnLookup = TurnLookup(hasTurns: bool, hasSuccessors: seq<bool>, allowed: seq<seq<nat>>)

  predicate Increasing(s: seq<nat>) {
    forall i, j :: 0 <= i < j < |s| ==> s[i] < s[j]
  }

  predicate Ascending(s: seq<nat>) {
    forall i, j :: 0 <= i < j < |s| ==> s[i] <= s[j]
  }

  const BY_INDEX: (nat, nat) -> bool := (a, b) => a <= b

  /** `sort_unstable`. */
  function SortIndices(s: seq<nat>): (r: seq<nat>)
    ensures Ascending(r) && forall y :: y in r <==> y in s
  {
    var r := Sort(BY_INDEX, s);
    SameElements(s, r);
    r
  }

  /** `dedup`: drops elements equal to their predecessor. */
  function Dedup(s: seq<nat>): (r: seq<nat>)
    requires Ascending(s)
    ensures Increasing(r) && (forall y :: y in r <==> y in s)
    ensures s != [] ==> r != [] && r[0] == s[0]
  {
    if |s| <= 1 then s
    else
      var rest := Dedup(s[1..]);
      assert forall y :: y in s <==> y == s[0] || y in s[1..];
      if s[0] == s[1] then rest else [s[0]] + rest
  }

  /** The lookup lists, per link, exactly the links a non-forbidden record leads to. */
  ghost predicate LookupFor(req: Request, lookup: TurnLookup)
  {
    && |lookup.hasSuccessors| == |lookup.allowed| == |req.linkIds|
    && lookup.hasTurns == (req.turnFrom != [])
    && (forall l :: 0 <= l < |lookup.allowed| ==>
          && (lookup.hasSuccessors[l] <==> l in req.turnFrom)
          && Increasing(lookup.allowed[l])
          && forall x :: x in lookup.allowed[l] <==> TurnRecord(req, l, x))
  }

  /** Whether one of the first `t` records leads from `from` to `to`. */
  ghost predicate RecordBefore(req: Request, t: nat, from: int, to: nat)
    requires t <= |req.turnFrom|
  {
    exists k :: 0 <= k < t && req.turnFrom[k] == from && req.turnTo[k] == to && !req.turnForbidden[k]
  }

  lemma OneMoreRecord(req: Request, t: nat, from: int, to: nat)
    requires t < |req.turnFrom|
    ensures RecordBefore(req, t + 1, from, to) <==>
              || RecordBefore(req, t, from, to)
              || (req.turnFrom[t] == from && req.turnTo[t] == to && !req.turnForbidden[t])
  {
    if RecordBefore(req, t, from, to) {
      var k :| 0 <= k < t && req.turnFrom[k] == from && req.turnTo[k] == to && !req.turnForbidden[k];
      assert 0 <= k < t + 1;
    }
  }

  /** One list per link: of its first `t` records, where those that are not forbidden lead. */
  ghost predicate Listing(req: Request, t: nat, hasSuccessors: seq<bool>, allowed: seq<seq<nat>>)
    requires t <= |req.turnFrom|
  {
    && |hasSuccessors| == |allowed| == |req.linkIds|
    && (forall l :: 0 <= l < |allowed| ==> (hasSuccessors[l] <==> l in req.turnFrom[..t]))
    && (forall l, x :: 0 <= l < |allowed| ==> (x in allowed[l] <==> RecordBefore(req, t, l, x)))
  }

  lemma RecordListed(req: Request, t: nat, hasSuccessors: seq<bool>, allowed: seq<seq<nat>>)
    requires t < |req.turnFrom| && Listing(req, t, hasSuccessors, allowed)
    ensures var from := req.turnFrom[t];
            Listing(req, t + 1, hasSuccessors[from := true],
                    allowed[from := allowed[from] + if req.turnForbidden[t] then [] else [req.turnTo[t]]])
  {
    var from, added := req.turnFrom[t], if req.turnForbidden[t] then [] else [req.turnTo[t]];
    var more := allowed[from := allowed[from] + added];
    forall l, x | 0 <= l < |more| ensures x in more[l] <==> RecordBefore(req, t + 1, l, x) {
      OneMoreRecord(req, t, l, x);
    }
    assert req.turnFrom[..t + 1] == req.turnFrom[..t] + [req.turnFrom[t]];
  }

  method BuildTurnLookup(req: Request) returns (lookup: TurnLookup)
    ensures LookupFor(req, lookup)
  {
    var n := |req.linkIds|;
    var hasSuccessors := new bool[n](_ => false);
    var allowed := new seq<nat>[n](_ => []);
    for t := 0 to |req.turnFrom|
      invariant Listing(req, t, hasSuccessors[..], allowed[..])
    {
      var from := req.turnFrom[t];
      RecordListed(req, t, hasSuccessors[..], allowed[..]);
      hasSuccessors[from] := true;
      if !req.turnForbidden[t] {
        allowed[from] := allowed[from] + [req.turnTo[t]];
      }
    }
    ghost var listed := allowed[..];
    SortLists(allowed);
    lookup := TurnLookup(req.turnFrom != [], hasSuccessors[..], allowed[..]);
    ListingIsLookup(req, listed, lookup);
  }

  /** `r` lists the elements of `s` once each, in increasing order. */
  ghost predicate Tidied(s: seq<nat>, r: seq<nat>) {
    Increasing(r) && forall x :: x in r <==> x in s
  }

  method SortLists(lists: array<seq<nat>>)
    modifies lists
    ensures forall k :: 0 <= k < lists.Length ==> Tidied(old(lists[k]), lists[k])
  {
    ghost var was := lists[..];
    for l := 0 to lists.Length
      invariant forall k :: l <= k < lists.Length ==> lists[k] == was[k]
      invariant forall k :: 0 <= k < l ==> Tidied(was[k], lists[k])
    {
      lists[l] := Dedup(SortIndices(lists[l]));
    }
  }

  lemma ListingIsLookup(req: Request, listed: seq<seq<nat>>, lookup: TurnLookup)
    requires Listing(req, |req.turnFrom|, lookup.hasSuccessors, listed) && |lookup.allowed| == |listed|
    requires lookup.hasTurns == (req.turnFrom != [])
    requires forall l :: 0 <= l < |listed| ==> Tidied(listed[l], lookup.allowed[l])
    ensures LookupFor(req, lookup)
  {
    assert req.turnFrom[..|req.turnFrom|] == req.turnFrom;
    forall l, x | 0 <= l < |listed| ensures x in lookup.allowed[l] <==> TurnRecord(req, l, x) {
      assert x in lookup.allowed[l] <==> x in listed[l];
      assert RecordBefore(req, |req.turnFrom|, l, x) <==> TurnRecord(req, l, x);
    }
  }

  /** `None` when no turn out of `incoming` is open, `Some(None)` when all are. */
  function AllowedSuccessors(lookup: TurnLookup, incoming: int): Option<Option<seq<nat>>>
    requires |lookup.hasSuccessors| == |lookup.allowed| && incoming < |lookup.allowed|
  {
    if incoming < 0 || !lookup.hasTurns then Some(None)
    else if !lookup.hasSuccessors[incoming] then None
    else if lookup.allowed[incoming] == [] then None
    else Some(Some(lookup.allowed[incoming]))
  }

  predicate Admits(successors: Option<Option<seq<nat>>>, link: nat) {
    successors.Some? && (successors.value.None? || link in successors.value.value)
  }

  /** Sorting, deduplicating and searching a list is the same as asking the records. */
  lemma LookupDecidesTurns(req: Request, lookup: TurnLookup, incoming: int, link: nat)
    requires LookupFor(req, lookup) && incoming < |req.linkIds|
    ensures Admits(AllowedSuccessors(lookup, incoming), link) <==> TurnAllowed(req, incoming, link)
  {
    if incoming >= 0 && TurnRecord(req, incoming, link) {
      assert link in lookup.allowed[incoming];
    }
  }

  method BinarySearch(s: seq<nat>, key: nat) returns (found: bool)
    requires Increasing(s)
    ensures found <==> key in s
  {
    var lo, hi := 0, |s|;
    while lo < hi
      invariant 0 <= lo <= hi <= |s|
      invariant forall i :: 0 <= i < |s| && !(lo <= i < hi) ==> s[i] != key
    {
      var mid := lo + (hi - lo) / 2;
      if s[mid] == key {
        return true;
      } else if s[mid] < key {
        lo := mid + 1;
      } else {
        hi := mid;
      }
    }
    return false;
  }

  // ----- The links that may be taken next

  /** An unblocked link listed among the links leaving `a.tail`. */
  ghost predicate OutgoingArc(req: Request, a: Arc) {
    && Listed(req.indptr, req.slots, a.tail, a.link)
    && a.link < |req.dst| && req.dst[a.link] == a.head
    && a.link < |req.blocked| && !req.blocked[a.link]
  }

  function TotalCost(req: Request, link: nat): real
    requires link < |req.linkIds|
  {
    req.cost[link] + req.costToGo[req.dst[link]]
  }

  predicate WithinReach(req: Request, link: nat)
    requires link < |req.linkIds|
  {
    && req.costToGo[req.dst[link]] < ROUTING_INF_COST * 0.5
    && TotalCost(req, link) < ROUTING_INF_COST * 0.5
  }

  /** The test both searches apply to a link leaving `node`. */
  ghost predicate LegalNext(req: Request, node: nat, incoming: int, link: nat)
  {
    && Listed(req.indptr, req.slots, node, link)
    && link < |req.linkIds|
    && TurnAllowed(req, incoming, link)
    && !req.blocked[link]
    && WithinReach(req, link)
  }

  /** A link may be taken if it leaves the node, is not blocked, may be turned into, and neither the
      way on from its end nor that and the link cost 5e11 or more. */
  lemma LegalNextIs(req: Request, node: nat, incoming: int, link: nat)
    requires node < req.nodeCount && link < |req.linkIds|
    ensures LegalNext(req, node, incoming, link) <==>
              && (exists pos :: 0 <= req.indptr[node] <= pos < req.indptr[node + 1] <= |req.slots|
                                && req.slots[pos] == link)
              && !req.blocked[link]
              && (incoming < 0 || |req.turnFrom| == 0
                  || exists t :: 0 <= t < |req.turnFrom| && req.turnFrom[t] == incoming && req.turnTo[t] == link
                                 && !req.turnForbidden[t])
              && req.costToGo[req.dst[link]] < 500000000000.0
              && req.cost[link] + req.costToGo[req.dst[link]] < 500000000000.0
  {
  }

  /** The test on one adjacency entry, as both searches perform it. */
  method LegalEntry(req: Request, ghost node: nat, ghost incoming: int,
                    lookup: TurnLookup, successors: Option<seq<nat>>, pos: nat)
    returns (legal: bool)
    requires LookupFor(req, lookup)
    requires node < req.nodeCount && req.indptr[node] <= pos < req.indptr[node + 1] <= |req.slots|
    requires 0 <= req.indptr[node]
    requires incoming < |req.linkIds| && AllowedSuccessors(lookup, incoming) == Some(successors)
    ensures legal <==> LegalNext(req, node, incoming, req.slots[pos])
  {
    var link := req.slots[pos];
    assert Listed(req.indptr, req.slots, node, link);
    LookupDecidesTurns(req, lookup, incoming, link);
    if successors.Some? {
      var found := BinarySearch(successors.value, link);
      if !found {
        return false;
      }
    }
    return !req.blocked[link] && WithinReach(req, link);
  }

  /** Smaller total cost first, then smaller link id. */
  /** Link `a` comes no later than link `b`: it and the way on from its end cost less together, or as
      much and its id is no greater. */
  ghost predicate NoLater(req: Request, a: nat, b: nat) {
    && a < |req.linkIds| && b < |req.linkIds|
    && var x, y := req.cost[a] + req.costToGo[req.dst[a]], req.cost[b] + req.costToGo[req.dst[b]];
       x < y || (x == y && req.linkIds[a] <= req.linkIds[b])
  }

  predicate AtMost(totalA: real, idA: int, totalB: real, idB: int) {
    totalA < totalB || (totalA == totalB && idA <= idB)
  }

  lemma NodeRange(req: Request, node: nat)
    requires node < req.nodeCount
    ensures 0 <= req.indptr[node] <= req.indptr[node + 1] <= |req.slots|
  {
  }

  method BestLegalNext(req: Request, lookup: TurnLookup, node: nat, incoming: int)
    returns (best: Option<nat>)
    requires LookupFor(req, lookup)
    requires node < req.nodeCount && incoming < |req.linkIds|
    ensures best.None? <==> forall link: nat :: !LegalNext(req, node, incoming, link)
    ensures best.Some? ==> LegalNext(req, node, incoming, best.value)
    ensures best.Some? ==>
              forall link: nat :: LegalNext(req, node, incoming, link) ==> NoLater(req, best.value, link)
  {
    best := None;
    var successors := AllowedSuccessors(lookup, incoming);
    if successors.None? {
      forall link: nat ensures !LegalNext(req, node, incoming, link) {
        LookupDecidesTurns(req, lookup, incoming, link);
      }
      return;
    }
    NodeRange(req, node);
    var bestCost := ROUTING_INF_COST;
    for pos := req.indptr[node] to req.indptr[node + 1]
      invariant best.Some? ==>
        LegalNext(req, node, incoming, best.value) && bestCost == TotalCost(req, best.value)
      invariant forall p ::
        req.indptr[node] <= p < pos && LegalNext(req, node, incoming, req.slots[p]) ==>
          best.Some? && NoLater(req, best.value, req.slots[p])
    {
      var link := req.slots[pos];
      var legal := LegalEntry(req, node, incoming, lookup, successors.value, pos);
      if !legal {
        continue;
      }
      var total := TotalCost(req, link);
      match best {
        case None =>
          best, bestCost := Some(link), total;
        case Some(current) =>
          if total < bestCost || (total == bestCost && req.linkIds[link] < req.linkIds[current]) {
            best, bestCost := Some(link), total;
          }
      }
    }
  }

  datatype ScoredLink = ScoredLink(total: real, id: int, link: nat)

  const BY_SCORE: (ScoredLink, ScoredLink) -> bool :=
    (a: ScoredLink, b: ScoredLink) => AtMost(a.total, a.id, b.total, b.id)

  predicate ScoreSorted(s: seq<ScoredLink>) {
    forall i, j :: 0 <= i < j < |s| ==> AtMost(s[i].total, s[i].id, s[j].total, s[j].id)
  }

  /** `sort_by` on (total, id). */
  function SortScored(s: seq<ScoredLink>): (r: seq<ScoredLink>)
    ensures ScoreSorted(r) && multiset(r) == multiset(s) && forall x :: x in r <==> x in s
  {
    var r := Sort(BY_SCORE, s);
    SameElements(s, r);
    r
  }

  function Scored(req: Request, link: nat): ScoredLink
    requires link < |req.linkIds|
  {
    ScoredLink(TotalCost(req, link), req.linkIds[link], link)
  }

  /** The legal links among the adjacency entries from `lo` to `hi`, one per entry. */
  ghost function LegalEntries(req: Request, node: nat, incoming: int, lo: nat, hi: nat): seq<ScoredLink>
    requires lo <= hi <= |req.slots|
    decreases hi
  {
    if lo == hi then []
    else
      LegalEntries(req, node, incoming, lo, hi - 1)
      + if LegalNext(req, node, incoming, req.slots[hi - 1]) then [Scored(req, req.slots[hi - 1])] else []
  }

  lemma {:induction false} NoLegalEntries(req: Request, node: nat, incoming: int, lo: nat, hi: nat)
    requires lo <= hi <= |req.slots| && forall link: nat :: !LegalNext(req, node, incoming, link)
    ensures LegalEntries(req, node, incoming, lo, hi) == []
    decreases hi
  {
    if lo < hi {
      NoLegalEntries(req, node, incoming, lo, hi - 1);
    }
  }

  lemma NoneIsLater(req: Request, scored: seq<ScoredLink>)
    requires ScoreSorted(scored)
    requires forall s :: s in scored ==> s.link < |req.linkIds| && s == Scored(req, s.link)
    ensures forall i, j :: 0 <= i < j < |scored| ==> NoLater(req, scored[i].link, scored[j].link)
  {
    forall i, j | 0 <= i < j < |scored| ensures NoLater(req, scored[i].link, scored[j].link) {
      assert scored[i] in scored && scored[j] in scored;
    }
  }

  method ScoredLegalNext(req: Request, lookup: TurnLookup, node: nat, incoming: int)
    returns (scored: seq<ScoredLink>)
    requires LookupFor(req, lookup)
    requires node < req.nodeCount && incoming < |req.linkIds|
    ensures ScoreSorted(scored)
    ensures forall s :: s in scored ==>
              && LegalNext(req, node, incoming, s.link)
              && s.total == TotalCost(req, s.link) && s.id == req.linkIds[s.link]
    ensures forall link: nat :: LegalNext(req, node, incoming, link) ==>
              ScoredLink(TotalCost(req, link), req.linkIds[link], link) in scored
    ensures forall i, j :: 0 <= i < j < |scored| ==> NoLater(req, scored[i].link, scored[j].link)
    ensures 0 <= req.indptr[node] <= req.indptr[node + 1] <= |req.slots|
    ensures multiset(scored) == multiset(LegalEntries(req, node, incoming, req.indptr[node], req.indptr[node + 1]))
  {
    NodeRange(req, node);
    var successors := AllowedSuccessors(lookup, incoming);
    if successors.None? {
      forall link: nat ensures !LegalNext(req, node, incoming, link) {
        LookupDecidesTurns(req, lookup, incoming, link);
      }
      NoLegalEntries(req, node, incoming, req.indptr[node], req.indptr[node + 1]);
      return [];
    }
    var found: seq<ScoredLink> := [];
    for pos := req.indptr[node] to req.indptr[node + 1]
      invariant found == LegalEntries(req, node, incoming, req.indptr[node], pos)
      invariant forall s :: s in found ==>
        && LegalNext(req, node, incoming, s.link)
        && s.total == TotalCost(req, s.link) && s.id == req.linkIds[s.link]
      invariant forall p ::
        req.indptr[node] <= p < pos && LegalNext(req, node, incoming, req.slots[p]) ==>
          ScoredLink(TotalCost(req, req.slots[p]), req.linkIds[req.slots[p]], req.slots[p]) in found
    {
      var link := req.slots[pos];
      var legal := LegalEntry(req, node, incoming, lookup, successors.value, pos);
      if !legal {
        continue;
      }
      found := found + [Scored(req, link)];
    }
    scored := SortScored(found);
    NoneIsLater(req, scored);
  }
}
