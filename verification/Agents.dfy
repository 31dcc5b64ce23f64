/** One tick of the active agents: ordered service under per-link movement and completion
    budgets. */
module Agents {
  import opened Results

  datatype AgentInput = AgentInput(
    slotIds: seq<int>,
    tripIds: seq<int>,
    links: seq<int>,
    ptrs: seq<int>,
    cooldowns: seq<int>,
    offsets: seq<int>,
    routeLinks: seq<int>,
    movementIds: seq<int>,
    movementCounts: seq<int>,
    completionIds: seq<int>,
    completionCounts: seq<int>,
    skip: seq<int>)

  datatype AgentOutput = AgentOutput(
    links: seq<int>,
    ptrs: seq<int>,
    cooldowns: seq<int>,
    moved: seq<int>,
    sinkWait: seq<int>,
    released: seq<int>,
    completedTrips: seq<int>)

  datatype AgentError =
    | TripLength | LinkLength | PtrLength | CooldownLength | OffsetLength
    | MovementLength | CompletionLength
    | OffsetDecreasing | OffsetRange | OffsetEnd
    | Negative(field: Field)

  /** The arrays that must not hold a negative number, in the order they are looked at. */
  datatype Field =
    | SlotIds | TripIds | Links | Ptrs | Cooldowns | RouteLinks
    | MovementIds | MovementCounts | CompletionIds | CompletionCounts | Skip

  predicate NonNegativeInts(s: seq<int>) {
    forall k :: 0 <= k < |s| ==> s[k] >= 0
  }

  predicate ValidOffsets(offsets: seq<int>, limit: int) {
    && (forall j, k :: 0 <= j <= k < |offsets| ==> offsets[j] <= offsets[k])
    && (forall k :: 0 <= k < |offsets| ==> 0 <= offsets[k] <= limit)
  }

  predicate AllNonNegative(i: AgentInput) {
    && NonNegativeInts(i.slotIds) && NonNegativeInts(i.tripIds) && NonNegativeInts(i.links)
    && NonNegativeInts(i.ptrs) && NonNegativeInts(i.cooldowns) && NonNegativeInts(i.routeLinks)
    && NonNegativeInts(i.movementIds) && NonNegativeInts(i.movementCounts)
    && NonNegativeInts(i.completionIds) && NonNegativeInts(i.completionCounts)
    && NonNegativeInts(i.skip)
  }

  predicate ValidInput(i: AgentInput) {
    && |i.tripIds| == |i.links| == |i.ptrs| == |i.cooldowns| == |i.slotIds|
    && |i.offsets| == |i.slotIds| + 1
    && |i.movementIds| == |i.movementCounts| && |i.completionIds| == |i.completionCounts|
    && ValidOffsets(i.offsets, |i.routeLinks|)
    && i.offsets[|i.slotIds|] == |i.routeLinks|
    && AllNonNegative(i)
  }

  type TickInput = i: AgentInput | ValidInput(i) witness AgentInput([], [], [], [], [], [0], [], [], [], [], [], [])

  /** The first offset that drops below its predecessor or leaves the route array decides. */
  function FirstBadOffset(offsets: seq<int>, previous: int, limit: int): (r: Option<AgentError>)
    ensures previous >= 0 ==>
              (r.None? <==> ValidOffsets(offsets, limit) && (offsets == [] || offsets[0] >= previous))
    ensures r.Some? ==> r.value.OffsetDecreasing? || r.value.OffsetRange?
  {
    if offsets == [] then None
    else if offsets[0] < previous then Some(OffsetDecreasing)
    else if offsets[0] < 0 || offsets[0] > limit then Some(OffsetRange)
    else
      var r := FirstBadOffset(offsets[1..], offsets[0], limit);
      assert offsets == [offsets[0]] + offsets[1..];
      r
  }

  function FieldOf(i: AgentInput, f: Field): seq<int> {
    match f
    case SlotIds => i.slotIds
    case TripIds => i.tripIds
    case Links => i.links
    case Ptrs => i.ptrs
    case Cooldowns => i.cooldowns
    case RouteLinks => i.routeLinks
    case MovementIds => i.movementIds
    case MovementCounts => i.movementCounts
    case CompletionIds => i.completionIds
    case CompletionCounts => i.completionCounts
    case Skip => i.skip
  }

  const FIELDS := [
    SlotIds, TripIds, Links, Ptrs, Cooldowns, RouteLinks,
    MovementIds, MovementCounts, CompletionIds, CompletionCounts, Skip]

  /** The field at `k` is the first to hold a negative number. */
  predicate NegativeFrom(i: AgentInput, fields: seq<Field>, k: nat)
    requires k < |fields|
  {
    && !NonNegativeInts(FieldOf(i, fields[k]))
    && forall j :: 0 <= j < k ==> NonNegativeInts(FieldOf(i, fields[j]))
  }

  function FirstNegative(i: AgentInput, fields: seq<Field>): (r: Option<Field>)
    ensures r.None? <==> forall f :: f in fields ==> NonNegativeInts(FieldOf(i, f))
    ensures r.Some? ==> exists k :: 0 <= k < |fields| && fields[k] == r.value && NegativeFrom(i, fields, k)
  {
    if fields == [] then None
    else if !NonNegativeInts(FieldOf(i, fields[0])) then Some(fields[0])
    else
      var r := FirstNegative(i, fields[1..]);
      assert forall f :: f in fields <==> f == fields[0] || f in fields[1..];
      assert r.Some? ==> exists k :: 0 <= k < |fields| && fields[k] == r.value && NegativeFrom(i, fields, k) by {
        if r.Some? {
          var k :| 0 <= k < |fields| - 1 && fields[1..][k] == r.value && NegativeFrom(i, fields[1..], k);
          assert fields[k + 1] == r.value && NegativeFrom(i, fields, k + 1);
        }
      }
      r
  }

  lemma FieldsAreAll(i: AgentInput)
    ensures AllNonNegative(i) <==> forall f :: f in FIELDS ==> NonNegativeInts(FieldOf(i, f))
  {
    var s := FIELDS;
    assert s[0] == SlotIds && s[1] == TripIds && s[2] == Links && s[3] == Ptrs && s[4] == Cooldowns;
    assert s[5] == RouteLinks && s[6] == MovementIds && s[7] == MovementCounts;
    assert s[8] == CompletionIds && s[9] == CompletionCounts && s[10] == Skip;
    if AllNonNegative(i) {
      forall f: Field ensures NonNegativeInts(FieldOf(i, f)) {
        match f
        case _ =>
      }
    } else {
      assert !NonNegativeInts(FieldOf(i, SlotIds)) || !NonNegativeInts(FieldOf(i, TripIds))
          || !NonNegativeInts(FieldOf(i, Links)) || !NonNegativeInts(FieldOf(i, Ptrs))
          || !NonNegativeInts(FieldOf(i, Cooldowns)) || !NonNegativeInts(FieldOf(i, RouteLinks))
          || !NonNegativeInts(FieldOf(i, MovementIds)) || !NonNegativeInts(FieldOf(i, MovementCounts))
          || !NonNegativeInts(FieldOf(i, CompletionIds)) || !NonNegativeInts(FieldOf(i, CompletionCounts))
          || !NonNegativeInts(FieldOf(i, Skip));
    }
  }

  /** Where a check stands among the checks; the offsets are looked at in one pass. */
  function Stage(e: AgentError): nat {
    match e
    case TripLength => 0
    case LinkLength => 1
    case PtrLength => 2
    case CooldownLength => 3
    case OffsetLength => 4
    case MovementLength => 5
    case CompletionLength => 6
    case OffsetDecreasing => 7
    case OffsetRange => 7
    case OffsetEnd => 8
    case Negative(_) => 9
  }

  /** The input deserves the error `e`, whatever else is wrong with it. */
  predicate Deserves(i: AgentInput, e: AgentError) {
    match e
    case TripLength => |i.tripIds| != |i.slotIds|
    case LinkLength => |i.links| != |i.slotIds|
    case PtrLength => |i.ptrs| != |i.slotIds|
    case CooldownLength => |i.cooldowns| != |i.slotIds|
    case OffsetLength => |i.offsets| != |i.slotIds| + 1
    case MovementLength => |i.movementIds| != |i.movementCounts|
    case CompletionLength => |i.completionIds| != |i.completionCounts|
    case OffsetDecreasing => FirstBadOffset(i.offsets, 0, |i.routeLinks|) == Some(OffsetDecreasing)
    case OffsetRange => FirstBadOffset(i.offsets, 0, |i.routeLinks|) == Some(OffsetRange)
    case OffsetEnd => i.offsets == [] || i.offsets[|i.offsets| - 1] != |i.routeLinks|
    case Negative(f) => FirstNegative(i, FIELDS) == Some(f)
  }

  /** The checks in the source's order. */
  function Validate(i: AgentInput): (r: Result<(), AgentError>)
    ensures r.Ok? <==> ValidInput(i)
    ensures r.Err? ==> Deserves(i, r.error)
  {
    FieldsAreAll(i);
    var n := |i.slotIds|;
    if |i.tripIds| != n then Err(TripLength)
    else if |i.links| != n then Err(LinkLength)
    else if |i.ptrs| != n then Err(PtrLength)
    else if |i.cooldowns| != n then Err(CooldownLength)
    else if |i.offsets| != n + 1 then Err(OffsetLength)
    else if |i.movementIds| != |i.movementCounts| then Err(MovementLength)
    else if |i.completionIds| != |i.completionCounts| then Err(CompletionLength)
    else
      var bad := FirstBadOffset(i.offsets, 0, |i.routeLinks|);
      if bad.Some? then Err(bad.value)
      else if i.offsets[n] != |i.routeLinks| then Err(OffsetEnd)
      else
        var negative := FirstNegative(i, FIELDS);
        if negative.Some? then Err(Negative(negative.value)) else Ok(())
  }

  /** The error is the first in the source's order among those the input deserves. */
  lemma FirstErrorIsGiven(i: AgentInput, e: AgentError)
    requires Deserves(i, e)
    ensures Validate(i).Err? && (e == Validate(i).error || Stage(Validate(i).error) < Stage(e))
  {
    FieldsAreAll(i);
  }

  // ----- Agents and what a tick does to them

  datatype Agent = Agent(slot: int, trip: int, link: int, ptr: int, cooldown: int, path: seq<int>)

  function AgentAt(i: TickInput, k: nat): Agent
    requires k < |i.slotIds|
  {
    Agent(i.slotIds[k], i.tripIds[k], i.links[k], i.ptrs[k], i.cooldowns[k],
          i.routeLinks[i.offsets[k]..i.offsets[k + 1]])
  }

  ghost function AgentsOf(i: TickInput): (agents: seq<Agent>)
    ensures |agents| == |i.slotIds|
    ensures forall k :: 0 <= k < |agents| ==> agents[k] == AgentAt(i, k)
  {
    seq(|i.slotIds|, k requires 0 <= k < |i.slotIds| => AgentAt(i, k))
  }

  /** Skipped agents are left alone, agents without a path are released, agents on their last link
      queue for completion, the others queue for movement. */
  datatype Need = Nothing | Release | Completion | Movement

  function NeedOf(i: TickInput, k: nat): Need
    requires k < |i.slotIds|
  {
    var a := AgentAt(i, k);
    if a.slot in i.skip then Nothing
    else if a.path == [] then Release
    else if a.ptr >= |a.path| - 1 then Completion
    else Movement
  }

  /** Rows for the same link add up. */
  ghost function Budget(ids: seq<int>, counts: seq<int>, link: int): int
    requires |ids| == |counts|
  {
    if ids == [] then 0
    else Budget(ids[..|ids| - 1], counts[..|ids| - 1], link)
         + if ids[|ids| - 1] == link then counts[|ids| - 1] else 0
  }

  ghost function BudgetFor(i: TickInput, need: Need, link: int): int {
    match need
    case Movement => Budget(i.movementIds, i.movementCounts, link)
    case Completion => Budget(i.completionIds, i.completionCounts, link)
    case _ => 0
  }

  /** How many of the first `n` agents on `link` have `need`. */
  ghost function Ahead(i: TickInput, need: Need, link: int, n: nat): nat
    requires n <= |i.slotIds|
  {
    if n == 0 then 0
    else Ahead(i, need, link, n - 1) + if NeedOf(i, n - 1) == need && i.links[n - 1] == link then 1 else 0
  }

  /** Agent `k` is served: fewer agents with the same need stand before it on its link than the
      link's budget admits. */
  ghost predicate Served(i: TickInput, k: nat)
    requires k < |i.slotIds|
  {
    var need := NeedOf(i, k);
    (need.Movement? || need.Completion?) && Ahead(i, need, i.links[k], k) < BudgetFor(i, need, i.links[k])
  }

  ghost predicate Moves(i: TickInput, k: nat)
    requires k < |i.slotIds|
  {
    NeedOf(i, k).Movement? && Served(i, k)
  }

  ghost predicate Leaves(i: TickInput, k: nat)
    requires k < |i.slotIds|
  {
    NeedOf(i, k).Release? || (NeedOf(i, k).Completion? && Served(i, k))
  }

  ghost predicate Waits(i: TickInput, k: nat)
    requires k < |i.slotIds|
  {
    NeedOf(i, k).Completion? && !Served(i, k)
  }

  /** The agent after the tick. */
  ghost function AfterTick(i: TickInput, k: nat): Agent
    requires k < |i.slotIds|
  {
    var a := AgentAt(i, k);
    if Moves(i, k) then
      a.(link := a.path[a.ptr + 1], ptr := a.ptr + 1, cooldown := if a.cooldown > 0 then a.cooldown - 1 else 0)
    else a
  }

  datatype List = MovedList | WaitList | LeaveList

  ghost predicate Belongs(i: TickInput, list: List, k: nat)
    requires k < |i.slotIds|
  {
    match list
    case MovedList => Moves(i, k)
    case WaitList => Waits(i, k)
    case LeaveList => Leaves(i, k)
  }

  /** The entries of `ids` that belong to a list, in agent order. */
  ghost function Listing(i: TickInput, list: List, ids: seq<int>, n: nat): seq<int>
    requires n <= |i.slotIds| == |ids|
  {
    if n == 0 then []
    else Listing(i, list, ids, n - 1) + if Belongs(i, list, n - 1) then [ids[n - 1]] else []
  }

  ghost predicate IsTick(i: TickInput, o: AgentOutput, n: nat)
    requires n <= |i.slotIds|
  {
    && |o.links| == |o.ptrs| == |o.cooldowns| == |i.slotIds|
    && (forall k :: 0 <= k < n ==>
          var a := AfterTick(i, k);
          o.links[k] == a.link && o.ptrs[k] == a.ptr && o.cooldowns[k] == a.cooldown)
    && o.moved == Listing(i, MovedList, i.slotIds, n)
    && o.sinkWait == Listing(i, WaitList, i.slotIds, n)
    && o.released == Listing(i, LeaveList, i.slotIds, n)
    && o.completedTrips == Listing(i, LeaveList, i.tripIds, n)
  }

  // ----- The tick in terms of the input arrays

  /** Not skipped, and not on the last link of its path. */
  ghost predicate HasLinkAhead(i: TickInput, k: nat)
    requires k < |i.slotIds|
  {
    i.slotIds[k] !in i.skip && i.ptrs[k] + 1 < i.offsets[k + 1] - i.offsets[k]
  }

  /** Not skipped, and at the end of a path. */
  ghost predicate OnLastLink(i: TickInput, k: nat)
    requires k < |i.slotIds|
  {
    i.slotIds[k] !in i.skip && i.offsets[k] < i.offsets[k + 1] && i.ptrs[k] + 1 >= i.offsets[k + 1] - i.offsets[k]
  }

  ghost predicate WithoutPath(i: TickInput, k: nat)
    requires k < |i.slotIds|
  {
    i.slotIds[k] !in i.skip && i.offsets[k] == i.offsets[k + 1]
  }

  /** The agents on `link` with a link ahead, among the first `n`. */
  ghost function Movers(i: TickInput, link: int, n: nat): set<nat>
    requires n <= |i.slotIds|
  {
    set k: nat | k < n && i.links[k] == link && HasLinkAhead(i, k)
  }

  ghost function Finishers(i: TickInput, link: int, n: nat): set<nat>
    requires n <= |i.slotIds|
  {
    set k: nat | k < n && i.links[k] == link && OnLastLink(i, k)
  }

  /** Fewer movers stand before agent `k` on its link than the movement rows of the link admit. */
  ghost predicate MayMove(i: TickInput, k: nat)
    requires k < |i.slotIds|
  {
    HasLinkAhead(i, k) && |Movers(i, i.links[k], k)| < Budget(i.movementIds, i.movementCounts, i.links[k])
  }

  ghost predicate MayFinish(i: TickInput, k: nat)
    requires k < |i.slotIds|
  {
    OnLastLink(i, k) && |Finishers(i, i.links[k], k)| < Budget(i.completionIds, i.completionCounts, i.links[k])
  }

  /** An agent that may move stands on the next link of its path, one tick closer to the end of its
      cooldown; any other is where it was. */
  ghost predicate AgentServed(i: TickInput, o: AgentOutput, k: nat)
    requires k < |i.slotIds| == |o.links| == |o.ptrs| == |o.cooldowns|
  {
    if MayMove(i, k) then
      && o.links[k] == i.routeLinks[i.offsets[k] + i.ptrs[k] + 1] && o.ptrs[k] == i.ptrs[k] + 1
      && o.cooldowns[k] == if i.cooldowns[k] == 0 then 0 else i.cooldowns[k] - 1
    else
      o.links[k] == i.links[k] && o.ptrs[k] == i.ptrs[k] && o.cooldowns[k] == i.cooldowns[k]
  }

  ghost predicate Increasing(p: seq<nat>) {
    forall a, b :: 0 <= a < b < |p| ==> p[a] < p[b]
  }

  ghost predicate PicksAt(ids: seq<int>, chosen: set<nat>, listed: seq<int>, p: seq<nat>) {
    && |p| == |listed| && Increasing(p) && (forall k :: k in p <==> k in chosen)
    && forall j :: 0 <= j < |p| ==> p[j] < |ids| && listed[j] == ids[p[j]]
  }

  /** `listed` holds the ids at the chosen positions, in their order. */
  ghost predicate Picks(ids: seq<int>, chosen: set<nat>, listed: seq<int>) {
    exists p :: PicksAt(ids, chosen, listed, p)
  }

  ghost predicate ListsServed(i: TickInput, o: AgentOutput) {
    var n := |i.slotIds|;
    var moving := set k: nat | k < n && MayMove(i, k);
    var waiting := set k: nat | k < n && OnLastLink(i, k) && !MayFinish(i, k);
    var leaving := set k: nat | k < n && (WithoutPath(i, k) || MayFinish(i, k));
    && Picks(i.slotIds, moving, o.moved) && Picks(i.slotIds, waiting, o.sinkWait)
    && Picks(i.slotIds, leaving, o.released) && Picks(i.tripIds, leaving, o.completedTrips)
  }

  ghost predicate Serves(i: TickInput, o: AgentOutput) {
    && |o.links| == |o.ptrs| == |o.cooldowns| == |i.slotIds|
    && (forall k: nat :: k < |i.slotIds| ==> AgentServed(i, o, k))
    && ListsServed(i, o)
  }

  /** Rows add up, and those of other links do not count. */
  lemma {:induction false} BudgetSplits(ids: seq<int>, more: seq<int>, counts: seq<int>, others: seq<int>, link: int)
    requires |ids| == |counts| && |more| == |others|
    ensures Budget(ids + more, counts + others, link) == Budget(ids, counts, link) + Budget(more, others, link)
    ensures forall id, count :: Budget([id], [count], link) == if id == link then count else 0
    ensures link !in more ==> Budget(more, others, link) == 0
    decreases |more|
  {
    forall id, count ensures Budget([id], [count], link) == if id == link then count else 0 {
      assert [id][..0] == [] && [count][..0] == [];
    }
    if more == [] {
      assert ids + more == ids && counts + others == counts;
    } else {
      var n := |more| - 1;
      BudgetSplits(ids, more[..n], counts, others[..n], link);
      assert (ids + more)[..|ids| + n] == ids + more[..n];
      assert (counts + others)[..|ids| + n] == counts + others[..n];
    }
  }

  lemma NeedsAre(i: TickInput, k: nat)
    requires k < |i.slotIds|
    ensures NeedOf(i, k).Movement? <==> HasLinkAhead(i, k)
    ensures NeedOf(i, k).Completion? <==> OnLastLink(i, k)
    ensures NeedOf(i, k).Release? <==> WithoutPath(i, k)
  {
  }

  lemma OneMore(a: set<nat>, b: set<nat>, k: nat, added: bool)
    requires k !in a && forall x :: x in b <==> x in a || (added && x == k)
    ensures |b| == |a| + if added then 1 else 0
  {
    assert b == if added then a + {k} else a;
  }

  lemma OneMoreMover(i: TickInput, link: int, k: nat)
    requires k < |i.slotIds|
    ensures |Movers(i, link, k + 1)| == |Movers(i, link, k)| + if i.links[k] == link && HasLinkAhead(i, k) then 1 else 0
  {
    OneMore(Movers(i, link, k), Movers(i, link, k + 1), k, i.links[k] == link && HasLinkAhead(i, k));
  }

  lemma OneMoreFinisher(i: TickInput, link: int, k: nat)
    requires k < |i.slotIds|
    ensures |Finishers(i, link, k + 1)| ==
            |Finishers(i, link, k)| + if i.links[k] == link && OnLastLink(i, k) then 1 else 0
  {
    OneMore(Finishers(i, link, k), Finishers(i, link, k + 1), k, i.links[k] == link && OnLastLink(i, k));
  }

  lemma NoneBefore(i: TickInput, link: int)
    ensures Movers(i, link, 0) == {} && Finishers(i, link, 0) == {} && Finished(i, link, 0) == {}
  {
  }

  lemma {:induction false} MoversAhead(i: TickInput, link: int, n: nat)
    requires n <= |i.slotIds|
    ensures Ahead(i, Movement, link, n) == |Movers(i, link, n)|
  {
    if n == 0 {
      NoneBefore(i, link);
    } else {
      MoversAhead(i, link, n - 1);
      NeedsAre(i, n - 1);
      OneMoreMover(i, link, n - 1);
    }
  }

  lemma {:induction false} FinishersAhead(i: TickInput, link: int, n: nat)
    requires n <= |i.slotIds|
    ensures Ahead(i, Completion, link, n) == |Finishers(i, link, n)|
  {
    if n == 0 {
      NoneBefore(i, link);
    } else {
      FinishersAhead(i, link, n - 1);
      NeedsAre(i, n - 1);
      OneMoreFinisher(i, link, n - 1);
    }
  }

  /** Who moves, leaves and waits, in terms of the input arrays. */
  lemma ServiceIs(i: TickInput, k: nat)
    requires k < |i.slotIds|
    ensures Moves(i, k) <==> MayMove(i, k)
    ensures Leaves(i, k) <==> WithoutPath(i, k) || MayFinish(i, k)
    ensures Waits(i, k) <==> OnLastLink(i, k) && !MayFinish(i, k)
  {
    NeedsAre(i, k);
    MoversAhead(i, i.links[k], k);
    FinishersAhead(i, i.links[k], k);
  }

  ghost function Belonging(i: TickInput, list: List, n: nat): set<nat>
    requires n <= |i.slotIds|
  {
    set k: nat | k < n && Belongs(i, list, k)
  }

  lemma {:induction false} ListingPicks(i: TickInput, list: List, ids: seq<int>, n: nat) returns (p: seq<nat>)
    requires n <= |i.slotIds| == |ids|
    ensures PicksAt(ids, Belonging(i, list, n), Listing(i, list, ids, n), p)
    ensures forall j :: 0 <= j < |p| ==> p[j] < n
  {
    if n == 0 {
      p := [];
    } else {
      p := ListingPicks(i, list, ids, n - 1);
      if Belongs(i, list, n - 1) {
        assert Belonging(i, list, n) == Belonging(i, list, n - 1) + {n - 1};
        p := p + [n - 1];
      } else {
        assert Belonging(i, list, n) == Belonging(i, list, n - 1);
      }
    }
  }

  lemma ListPicks(i: TickInput, list: List, ids: seq<int>)
    requires |i.slotIds| == |ids|
    ensures Picks(ids, Belonging(i, list, |ids|), Listing(i, list, ids, |ids|))
  {
    var p := ListingPicks(i, list, ids, |ids|);
  }

  lemma TickListsServed(i: TickInput, o: AgentOutput)
    requires IsTick(i, o, |i.slotIds|)
    ensures ListsServed(i, o)
  {
    var n := |i.slotIds|;
    forall k: nat | k < n
      ensures Belongs(i, MovedList, k) <==> MayMove(i, k)
      ensures Belongs(i, WaitList, k) <==> OnLastLink(i, k) && !MayFinish(i, k)
      ensures Belongs(i, LeaveList, k) <==> WithoutPath(i, k) || MayFinish(i, k)
    {
      ServiceIs(i, k);
    }
    assert Belonging(i, MovedList, n) == set k: nat | k < n && MayMove(i, k);
    assert Belonging(i, WaitList, n) == set k: nat | k < n && OnLastLink(i, k) && !MayFinish(i, k);
    assert Belonging(i, LeaveList, n) == set k: nat | k < n && (WithoutPath(i, k) || MayFinish(i, k));
    ListPicks(i, MovedList, i.slotIds);
    ListPicks(i, WaitList, i.slotIds);
    ListPicks(i, LeaveList, i.slotIds);
    ListPicks(i, LeaveList, i.tripIds);
  }

  lemma TickServesAgent(i: TickInput, o: AgentOutput, k: nat)
    requires IsTick(i, o, |i.slotIds|) && k < |i.slotIds|
    ensures AgentServed(i, o, k)
  {
    ServiceIs(i, k);
    var a := AfterTick(i, k);
    assert o.links[k] == a.link && o.ptrs[k] == a.ptr && o.cooldowns[k] == a.cooldown;
  }

  lemma TickServes(i: TickInput, o: AgentOutput)
    requires IsTick(i, o, |i.slotIds|)
    ensures Serves(i, o)
  {
    TickListsServed(i, o);
    forall k: nat | k < |i.slotIds| ensures AgentServed(i, o, k) {
      TickServesAgent(i, o, k);
    }
  }

  /** The agents among the first `n` that have left `link` for the next link of their path. */
  ghost function Moved(i: TickInput, o: AgentOutput, link: int, n: nat): set<nat>
    requires n <= |i.slotIds| == |o.ptrs|
  {
    set k: nat | k < n && i.links[k] == link && o.ptrs[k] == i.ptrs[k] + 1
  }

  ghost function Finished(i: TickInput, link: int, n: nat): set<nat>
    requires n <= |i.slotIds|
  {
    set k: nat | k < n && i.links[k] == link && MayFinish(i, k)
  }

  lemma OneMoreMoved(i: TickInput, o: AgentOutput, link: int, k: nat)
    requires Serves(i, o) && k < |i.slotIds|
    ensures |Moved(i, o, link, k + 1)| == |Moved(i, o, link, k)| + if i.links[k] == link && MayMove(i, k) then 1 else 0
  {
    assert AgentServed(i, o, k);
    OneMore(Moved(i, o, link, k), Moved(i, o, link, k + 1), k, i.links[k] == link && MayMove(i, k));
  }

  lemma OneMoreFinished(i: TickInput, link: int, k: nat)
    requires k < |i.slotIds|
    ensures |Finished(i, link, k + 1)| ==
            |Finished(i, link, k)| + if i.links[k] == link && MayFinish(i, k) then 1 else 0
  {
    OneMore(Finished(i, link, k), Finished(i, link, k + 1), k, i.links[k] == link && MayFinish(i, k));
  }

  /** On every link as many agents move as its movement rows admit, or as have a link ahead. */
  lemma {:induction false} MovedExactly(i: TickInput, o: AgentOutput, link: int, n: nat)
    requires Serves(i, o) && n <= |i.slotIds|
    ensures var rows, queued := Budget(i.movementIds, i.movementCounts, link), |Movers(i, link, n)|;
            |Moved(i, o, link, n)| == if queued < rows then queued else rows
  {
    BudgetNonNegative(i.movementIds, i.movementCounts, link);
    if n == 0 {
      NoneBefore(i, link);
      assert Moved(i, o, link, 0) == {};
    } else {
      MovedExactly(i, o, link, n - 1);
      OneMoreMoved(i, o, link, n - 1);
      OneMoreMover(i, link, n - 1);
    }
  }

  /** And as many finish as its completion rows admit, or as are on their last link. */
  lemma {:induction false} FinishedExactly(i: TickInput, link: int, n: nat)
    requires n <= |i.slotIds|
    ensures var rows, queued := Budget(i.completionIds, i.completionCounts, link), |Finishers(i, link, n)|;
            |Finished(i, link, n)| == if queued < rows then queued else rows
  {
    BudgetNonNegative(i.completionIds, i.completionCounts, link);
    if n == 0 {
      NoneBefore(i, link);
    } else {
      FinishedExactly(i, link, n - 1);
      OneMoreFinished(i, link, n - 1);
      OneMoreFinisher(i, link, n - 1);
    }
  }

  /** Without a row for its link nobody moves off it, and nobody finishes on it. */
  lemma NoRowsNoService(i: TickInput, o: AgentOutput, k: nat)
    requires Serves(i, o) && k < |i.slotIds|
    ensures i.links[k] !in i.movementIds ==> o.links[k] == i.links[k] && o.ptrs[k] == i.ptrs[k]
    ensures i.links[k] !in i.completionIds && OnLastLink(i, k) ==> i.slotIds[k] in o.sinkWait
  {
    BudgetSplits([], i.movementIds, [], i.movementCounts, i.links[k]);
    BudgetSplits([], i.completionIds, [], i.completionCounts, i.links[k]);
    assert AgentServed(i, o, k);
    var waiting := set j: nat | j < |i.slotIds| && OnLastLink(i, j) && !MayFinish(i, j);
    var p :| PicksAt(i.slotIds, waiting, o.sinkWait, p);
    if i.links[k] !in i.completionIds && OnLastLink(i, k) {
      assert k in p;
    }
  }

  // ----- The loop

  function Remaining(budget: map<int, int>, link: int): int {
    if link in budget then budget[link] else 0
  }

  method AccumulateBudget(ids: seq<int>, counts: seq<int>) returns (budget: map<int, int>)
    requires |ids| == |counts|
    ensures forall link :: Remaining(budget, link) == Budget(ids, counts, link)
  {
    budget := map[];
    for k := 0 to |ids|
      invariant forall link :: Remaining(budget, link) == Budget(ids[..k], counts[..k], link)
    {
      assert ids[..k + 1][..k] == ids[..k] && counts[..k + 1][..k] == counts[..k];
      budget := budget[ids[k] := if ids[k] in budget then budget[ids[k]] + counts[k] else counts[k]];
    }
    assert ids[..|ids|] == ids && counts[..|counts|] == counts;
  }

  ghost function LeftOver(i: TickInput, need: Need, link: int, n: nat): int
    requires n <= |i.slotIds|
  {
    var left := BudgetFor(i, need, link) - Ahead(i, need, link, n);
    if left > 0 then left else 0
  }

  /** Both budget maps after the first `n` agents. */
  ghost predicate BudgetsAfter(i: TickInput, movement: map<int, int>, completion: map<int, int>, n: nat)
    requires n <= |i.slotIds|
  {
    forall link :: BudgetsAt(i, movement, completion, n, link)
  }

  ghost predicate BudgetsAt(i: TickInput, movement: map<int, int>, completion: map<int, int>, n: nat, link: int)
    requires n <= |i.slotIds|
  {
    && Remaining(movement, link) == LeftOver(i, Movement, link, n)
    && Remaining(completion, link) == LeftOver(i, Completion, link, n)
  }

  lemma {:induction false} BudgetNonNegative(ids: seq<int>, counts: seq<int>, link: int)
    requires |ids| == |counts| && NonNegativeInts(counts)
    ensures Budget(ids, counts, link) >= 0
  {
    if ids != [] {
      BudgetNonNegative(ids[..|ids| - 1], counts[..|ids| - 1], link);
    }
  }

  /** Agent `n` takes nothing from the budgets: it needs none, or its link's is used up. */
  lemma BudgetsUntouched(i: TickInput, movement: map<int, int>, completion: map<int, int>, n: nat)
    requires n < |i.slotIds| && BudgetsAfter(i, movement, completion, n)
    requires NeedOf(i, n).Movement? ==> Remaining(movement, i.links[n]) <= 0
    requires NeedOf(i, n).Completion? ==> Remaining(completion, i.links[n]) <= 0
    ensures BudgetsAfter(i, movement, completion, n + 1)
    ensures !Served(i, n)
  {
    assert BudgetsAt(i, movement, completion, n, i.links[n]);
    var next := n + 1;
    forall link ensures BudgetsAt(i, movement, completion, next, link) {
      assert BudgetsAt(i, movement, completion, n, link);
    }
  }

  lemma MovementTaken(i: TickInput, movement: map<int, int>, completion: map<int, int>, n: nat)
    requires n < |i.slotIds| && BudgetsAfter(i, movement, completion, n)
    requires NeedOf(i, n).Movement? && Remaining(movement, i.links[n]) > 0
    ensures BudgetsAfter(i, movement[i.links[n] := Remaining(movement, i.links[n]) - 1], completion, n + 1)
    ensures Served(i, n)
  {
    var taken := movement[i.links[n] := Remaining(movement, i.links[n]) - 1];
    assert BudgetsAt(i, movement, completion, n, i.links[n]);
    var next := n + 1;
    forall link ensures BudgetsAt(i, taken, completion, next, link) {
      assert BudgetsAt(i, movement, completion, n, link);
    }
  }

  lemma CompletionTaken(i: TickInput, movement: map<int, int>, completion: map<int, int>, n: nat)
    requires n < |i.slotIds| && BudgetsAfter(i, movement, completion, n)
    requires NeedOf(i, n).Completion? && Remaining(completion, i.links[n]) > 0
    ensures BudgetsAfter(i, movement, completion[i.links[n] := Remaining(completion, i.links[n]) - 1], n + 1)
    ensures Served(i, n)
  {
    var taken := completion[i.links[n] := Remaining(completion, i.links[n]) - 1];
    assert BudgetsAt(i, movement, completion, n, i.links[n]);
    var next := n + 1;
    forall link ensures BudgetsAt(i, movement, taken, next, link) {
      assert BudgetsAt(i, movement, completion, n, link);
    }
  }

  /** What one agent adds to the output. */
  ghost function Recorded(i: TickInput, o: AgentOutput, n: nat): AgentOutput
    requires n < |i.slotIds| == |o.links| == |o.ptrs| == |o.cooldowns|
  {
    var a := AfterTick(i, n);
    AgentOutput(
      o.links[n := a.link], o.ptrs[n := a.ptr], o.cooldowns[n := a.cooldown],
      o.moved + (if Moves(i, n) then [i.slotIds[n]] else []),
      o.sinkWait + (if Waits(i, n) then [i.slotIds[n]] else []),
      o.released + (if Leaves(i, n) then [i.slotIds[n]] else []),
      o.completedTrips + (if Leaves(i, n) then [i.tripIds[n]] else []))
  }

  ghost predicate Recording(i: TickInput, o: AgentOutput, n: nat)
    requires n <= |i.slotIds|
  {
    IsTick(i, o, n) && forall k :: n <= k < |i.slotIds| ==>
      o.links[k] == i.links[k] && o.ptrs[k] == i.ptrs[k] && o.cooldowns[k] == i.cooldowns[k]
  }

  lemma RecordOne(i: TickInput, o: AgentOutput, n: nat)
    requires n < |i.slotIds| && Recording(i, o, n)
    ensures Recording(i, Recorded(i, o, n), n + 1)
  {
  }

  /** Serving one agent: which list it joins, which budget it uses. */
  method ServeAgent(i: TickInput, movement: map<int, int>, completion: map<int, int>, o: AgentOutput, k: nat)
    returns (movement': map<int, int>, completion': map<int, int>, o': AgentOutput)
    requires k < |i.slotIds| && BudgetsAfter(i, movement, completion, k) && Recording(i, o, k)
    ensures BudgetsAfter(i, movement', completion', k + 1) && o' == Recorded(i, o, k)
  {
    movement', completion', o' := movement, completion, o;
    var slot, link, ptr := i.slotIds[k], i.links[k], i.ptrs[k];
    if slot in i.skip {
      BudgetsUntouched(i, movement, completion, k);
      return;
    }
    var path := i.routeLinks[i.offsets[k]..i.offsets[k + 1]];
    if path == [] {
      BudgetsUntouched(i, movement, completion, k);
      o' := o.(released := o.released + [slot], completedTrips := o.completedTrips + [i.tripIds[k]]);
      return;
    }
    if ptr >= |path| - 1 {
      var remaining := Remaining(completion, link);
      if remaining <= 0 {
        BudgetsUntouched(i, movement, completion, k);
        o' := o.(sinkWait := o.sinkWait + [slot]);
        return;
      }
      CompletionTaken(i, movement, completion, k);
      completion' := completion[link := remaining - 1];
      o' := o.(released := o.released + [slot], completedTrips := o.completedTrips + [i.tripIds[k]]);
      return;
    }
    var remaining := Remaining(movement, link);
    if remaining <= 0 {
      BudgetsUntouched(i, movement, completion, k);
      return;
    }
    MovementTaken(i, movement, completion, k);
    movement' := movement[link := remaining - 1];
    o' := o.(links := o.links[k := path[ptr + 1]],
             ptrs := o.ptrs[k := ptr + 1],
             cooldowns := o.cooldowns[k := if i.cooldowns[k] > 0 then i.cooldowns[k] - 1 else 0],
             moved := o.moved + [slot]);
  }

  /** Budgets are served exactly and in list order; every other agent is unchanged. */
  method AdvanceActiveAgents(input: AgentInput) returns (r: Result<AgentOutput, AgentError>)
    ensures r.Ok? <==> ValidInput(input)
    ensures r.Err? ==> Validate(input) == Err(r.error)
    ensures r.Ok? ==> IsTick(input, r.value, |input.slotIds|) && Serves(input, r.value)
  {
    var check := Validate(input);
    if check.Err? {
      return Err(check.error);
    }
    var i: TickInput := input;
    var movement := AccumulateBudget(i.movementIds, i.movementCounts);
    var completion := AccumulateBudget(i.completionIds, i.completionCounts);
    forall link ensures BudgetsAt(i, movement, completion, 0, link) {
      BudgetNonNegative(i.movementIds, i.movementCounts, link);
      BudgetNonNegative(i.completionIds, i.completionCounts, link);
    }
    var o := AgentOutput(i.links, i.ptrs, i.cooldowns, [], [], [], []);
    for k := 0 to |i.slotIds|
      invariant BudgetsAfter(i, movement, completion, k) && Recording(i, o, k)
    {
      RecordOne(i, o, k);
      movement, completion, o := ServeAgent(i, movement, completion, o, k);
    }
    TickServes(i, o);
    return Ok(o);
  }

  // ----- What a tick guarantees

  ghost function CountServed(i: TickInput, need: Need, link: int, n: nat): nat
    requires n <= |i.slotIds|
  {
    if n == 0 then 0
    else CountServed(i, need, link, n - 1)
         + if NeedOf(i, n - 1) == need && i.links[n - 1] == link && Served(i, n - 1) then 1 else 0
  }

  /** On every link, exactly min(budget, queue) agents are served. */
  lemma {:induction false} ServedExactly(i: TickInput, need: Need, link: int, n: nat)
    requires n <= |i.slotIds| && (need.Movement? || need.Completion?)
    ensures var budget, queued := BudgetFor(i, need, link), Ahead(i, need, link, n);
            CountServed(i, need, link, n) == if queued < budget then queued else budget
  {
    BudgetNonNegative(i.movementIds, i.movementCounts, link);
    BudgetNonNegative(i.completionIds, i.completionCounts, link);
    if n > 0 {
      ServedExactly(i, need, link, n - 1);
    }
  }

  lemma {:induction false} AheadMonotone(i: TickInput, need: Need, link: int, j: nat, k: nat)
    requires j <= k <= |i.slotIds|
    ensures Ahead(i, need, link, j) <= Ahead(i, need, link, k)
    decreases k - j
  {
    if j < k {
      AheadMonotone(i, need, link, j, k - 1);
    }
  }

  /** Service is in list order: whoever stands before a served agent in its queue is served. */
  lemma ServedInOrder(i: TickInput, j: nat, k: nat)
    requires j < k < |i.slotIds| && i.links[j] == i.links[k] && NeedOf(i, j) == NeedOf(i, k)
    requires Served(i, k)
    ensures Served(i, j)
  {
    AheadMonotone(i, NeedOf(i, j), i.links[j], j, k);
  }

  ghost function CountOn(i: TickInput, link: int, n: nat): nat
    requires n <= |i.slotIds|
  {
    if n == 0 then 0 else CountOn(i, link, n - 1) + if i.links[n - 1] == link then 1 else 0
  }

  /** Agents on `link` after the tick, those that left not counted. */
  ghost function CountAfter(i: TickInput, o: AgentOutput, link: int, n: nat): nat
    requires n <= |i.slotIds| == |o.links|
  {
    if n == 0 then 0
    else CountAfter(i, o, link, n - 1) + if !Leaves(i, n - 1) && o.links[n - 1] == link then 1 else 0
  }

  ghost function CountMovedIn(i: TickInput, link: int, n: nat): nat
    requires n <= |i.slotIds|
  {
    if n == 0 then 0
    else CountMovedIn(i, link, n - 1) + if Moves(i, n - 1) && AfterTick(i, n - 1).link == link then 1 else 0
  }

  ghost function CountMovedOut(i: TickInput, link: int, n: nat): nat
    requires n <= |i.slotIds|
  {
    if n == 0 then 0
    else CountMovedOut(i, link, n - 1) + if Moves(i, n - 1) && i.links[n - 1] == link then 1 else 0
  }

  ghost function CountLeft(i: TickInput, link: int, n: nat): nat
    requires n <= |i.slotIds|
  {
    if n == 0 then 0
    else CountLeft(i, link, n - 1) + if Leaves(i, n - 1) && i.links[n - 1] == link then 1 else 0
  }

  /** Agents balance on every link: after = before - moved out - released + moved in. */
  lemma {:induction false} LinkCountsBalance(i: TickInput, o: AgentOutput, link: int, n: nat)
    requires n <= |i.slotIds| && IsTick(i, o, |i.slotIds|)
    ensures CountAfter(i, o, link, n) + CountMovedOut(i, link, n) + CountLeft(i, link, n)
         == CountOn(i, link, n) + CountMovedIn(i, link, n)
  {
    if n > 0 {
      LinkCountsBalance(i, o, link, n - 1);
      var a := AfterTick(i, n - 1);
      assert o.links[n - 1] == a.link;
    }
  }

  // ----- Runs

  /** The pointer of an agent with a path is inside the path and names the link the agent is on. */
  ghost predicate OnRoute(a: Agent) {
    a.path != [] ==> 0 <= a.ptr < |a.path| && a.link == a.path[a.ptr]
  }

  /** The agents that are still there after the tick, in order. */
  ghost function Survivors(i: TickInput, n: nat): seq<Agent>
    requires n <= |i.slotIds|
  {
    if n == 0 then [] else Survivors(i, n - 1) + if Leaves(i, n - 1) then [] else [AfterTick(i, n - 1)]
  }

  lemma {:induction false} SurvivorsOnRoute(i: TickInput, n: nat)
    requires n <= |i.slotIds| && forall a :: a in AgentsOf(i) ==> OnRoute(a)
    ensures forall a :: a in Survivors(i, n) ==> OnRoute(a)
  {
    if n > 0 {
      SurvivorsOnRoute(i, n - 1);
      assert AgentsOf(i)[n - 1] == AgentAt(i, n - 1);
    }
  }

  /** A new agent starts on the first link of its path, unless it has none. */
  ghost predicate Enters(b: Agent) {
    b.path != [] ==> b.ptr == 0 && b.link == b.path[0]
  }

  /** Between ticks an agent may get a new cooldown, and a new path after the link it stands on. */
  ghost predicate Continues(a: Agent, b: Agent) {
    || b == a.(cooldown := b.cooldown)
    || (&& 0 <= a.ptr < |a.path| && a.ptr < |b.path| && b.path[..a.ptr + 1] == a.path[..a.ptr + 1]
        && b == a.(cooldown := b.cooldown, path := b.path))
  }

  ghost predicate ComesFrom(b: Agent, survivors: seq<Agent>) {
    exists a :: a in survivors && Continues(a, b)
  }

  ghost predicate Follows(prev: TickInput, next: TickInput) {
    forall b :: b in AgentsOf(next) ==> Enters(b) || ComesFrom(b, Survivors(prev, |prev.slotIds|))
  }

  ghost predicate FollowsAt(ticks: seq<TickInput>, j: nat) {
    var k := j + 1;
    k < |ticks| ==> Follows(ticks[j], ticks[k])
  }

  /** A run: at every tick the agents are survivors of the tick before, rerouted or not, and agents
      that have entered in any slot; budgets and skips are free. */
  ghost predicate IsRun(ticks: seq<TickInput>) {
    forall j: nat :: FollowsAt(ticks, j)
  }

  lemma ContinuesOnRoute(a: Agent, b: Agent)
    requires OnRoute(a) && Continues(a, b)
    ensures OnRoute(b)
  {
    if b != a.(cooldown := b.cooldown) {
      assert b.path[..a.ptr + 1][a.ptr] == a.path[..a.ptr + 1][a.ptr];
    }
  }

  /** Over every run, agents stay on the link their pointer names. */
  lemma {:induction false} RunKeepsRoutes(ticks: seq<TickInput>, k: nat)
    requires IsRun(ticks) && k < |ticks|
    requires forall a :: a in AgentsOf(ticks[0]) ==> OnRoute(a)
    ensures forall a :: a in AgentsOf(ticks[k]) ==> OnRoute(a)
  {
    if k > 0 {
      var j := k - 1;
      RunKeepsRoutes(ticks, j);
      SurvivorsOnRoute(ticks[j], |ticks[j].slotIds|);
      assert FollowsAt(ticks, j);
      forall b | b in AgentsOf(ticks[k]) ensures OnRoute(b) {
        if !Enters(b) {
          var a :| a in Survivors(ticks[j], |ticks[j].slotIds|) && Continues(a, b);
          ContinuesOnRoute(a, b);
        }
      }
    }
  }
}
