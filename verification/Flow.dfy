/** One step of the point-queue flow model: demand is shared out over supply turn by turn. */
module Flow {
  import opened Results

  const MIN_TRAVEL_COST := 0.001
  const VIOLATION_TOLERANCE := 0.000001

  datatype FlowInput = FlowInput(
    queue: seq<real>,
    capacity: seq<real>,
    from: seq<int>,
    to: seq<int>,
    demand: seq<real>,
    timer: seq<int>,
    base: seq<real>,
    priority: seq<real>,
    forbidden: seq<bool>)

  datatype FlowOutput = FlowOutput(
    demand: seq<real>,
    supply: seq<real>,
    flow: seq<real>,
    inflow: seq<real>,
    outflow: seq<real>,
    queue: seq<real>,
    travelTime: seq<real>,
    violations: seq<bool>,
    timer: seq<int>)

  datatype FlowError =
    | CapacityLength | BaseLength | FromLength | ToLength | PriorityLength | ForbiddenLength
    | NegativeQueue | NegativeCapacity | NegativeDemand | NegativeBase | NegativePriority
    | FromRange | ToRange

  predicate ValidArrays(i: FlowInput) {
    && |i.capacity| == |i.base| == |i.queue|
    && |i.from| == |i.to| == |i.priority| == |i.forbidden| == |i.demand|
    && NonNegative(i.queue) && NonNegative(i.capacity) && NonNegative(i.demand)
    && NonNegative(i.base) && NonNegative(i.priority)
  }

  predicate ValidTurns(i: FlowInput) {
    AllBelow(i.from, |i.queue|) && AllBelow(i.to, |i.queue|)
  }

  const EMPTY := FlowInput([], [], [], [], [], [], [], [], [])

  /** An input the step can work on: matching arrays and turns between existing links. */
  type FlowCase = i: FlowInput | ValidArrays(i) && ValidTurns(i) witness EMPTY

  /** Where a check stands among the checks. */
  function Stage(e: FlowError): nat {
    match e
    case CapacityLength => 0
    case BaseLength => 1
    case FromLength => 2
    case ToLength => 3
    case PriorityLength => 4
    case ForbiddenLength => 5
    case NegativeQueue => 6
    case NegativeCapacity => 7
    case NegativeDemand => 8
    case NegativeBase => 9
    case NegativePriority => 10
    case FromRange => 11
    case ToRange => 12
  }

  /** The input deserves the error `e`, whatever else is wrong with it. */
  predicate Deserves(i: FlowInput, e: FlowError) {
    match e
    case CapacityLength => |i.capacity| != |i.queue|
    case BaseLength => |i.base| != |i.queue|
    case FromLength => |i.from| != |i.demand|
    case ToLength => |i.to| != |i.demand|
    case PriorityLength => |i.priority| != |i.demand|
    case ForbiddenLength => |i.forbidden| != |i.demand|
    case NegativeQueue => !NonNegative(i.queue)
    case NegativeCapacity => !NonNegative(i.capacity)
    case NegativeDemand => !NonNegative(i.demand)
    case NegativeBase => !NonNegative(i.base)
    case NegativePriority => !NonNegative(i.priority)
    case FromRange => i.queue != [] && !AllBelow(i.from, |i.queue|)
    case ToRange => i.queue != [] && !AllBelow(i.to, |i.queue|)
  }

  /** The checks in the source's order; turn indices are only looked at when there are links. */
  function Validate(i: FlowInput): (r: Result<(), FlowError>)
    ensures r.Ok? <==> ValidArrays(i) && (i.queue == [] || ValidTurns(i))
    ensures r.Err? ==> Deserves(i, r.error)
                       && forall e :: Deserves(i, e) ==> e == r.error || Stage(r.error) < Stage(e)
  {
    if |i.capacity| != |i.queue| then Err(CapacityLength)
    else if |i.base| != |i.queue| then Err(BaseLength)
    else if |i.from| != |i.demand| then Err(FromLength)
    else if |i.to| != |i.demand| then Err(ToLength)
    else if |i.priority| != |i.demand| then Err(PriorityLength)
    else if |i.forbidden| != |i.demand| then Err(ForbiddenLength)
    else if !NonNegative(i.queue) then Err(NegativeQueue)
    else if !NonNegative(i.capacity) then Err(NegativeCapacity)
    else if !NonNegative(i.demand) then Err(NegativeDemand)
    else if !NonNegative(i.base) then Err(NegativeBase)
    else if !NonNegative(i.priority) then Err(NegativePriority)
    else if i.queue != [] && !AllBelow(i.from, |i.queue|) then Err(FromRange)
    else if i.queue != [] && !AllBelow(i.to, |i.queue|) then Err(ToRange)
    else Ok(())
  }

  // ----- What one step computes

  /** The sum of the values whose index is `k`. */
  function SegSum(values: seq<real>, indices: seq<int>, k: int): real
    requires |values| == |indices|
  {
    if values == [] then 0.0
    else (if indices[|indices| - 1] == k then values[|values| - 1] else 0.0)
         + SegSum(values[..|values| - 1], indices[..|indices| - 1], k)
  }

  ghost function Total(values: seq<real>): real {
    if values == [] then 0.0 else values[|values| - 1] + Total(values[..|values| - 1])
  }

  function Weight(i: FlowCase, t: nat): real
    requires t < |i.demand|
  {
    if i.demand[t] > 0.0 then i.demand[t] * (if i.forbidden[t] then 0.0 else MaxReal(i.priority[t], 0.0)) else 0.0
  }

  ghost function Weights(i: FlowCase): (w: seq<real>)
    ensures |w| == |i.demand| && forall t :: 0 <= t < |w| ==> w[t] == Weight(i, t)
  {
    seq(|i.demand|, t requires 0 <= t < |i.demand| => Weight(i, t))
  }

  function Share(weight: real, sum: real): real {
    if sum > 0.0 then weight / sum else 0.0
  }

  /** The part of `available` earned by `weight` out of `sum`. */
  function Grant(available: real, weight: real, sum: real): real {
    available * Share(weight, sum)
  }

  function TravelTime(base: real, queue: real, capacity: real): real {
    MaxReal(base, MIN_TRAVEL_COST) + MaxReal(queue, 0.0) / MaxReal(capacity, MIN_TRAVEL_COST)
  }

  /** What a turn may carry: its share of what its source can send, or of what its target admits. */
  ghost function Supply(i: FlowCase, t: nat): real
    requires t < |i.demand|
  {
    var f, to, w := i.from[t], i.to[t], Weight(i, t);
    MinReal(Grant(MinReal(i.queue[f], i.capacity[f]), w, SegSum(Weights(i), i.from, f)),
            Grant(i.capacity[to], w, SegSum(Weights(i), i.to, to)))
  }

  ghost function Carried(i: FlowCase, t: nat): real
    requires t < |i.demand|
  {
    if i.forbidden[t] then 0.0 else MinReal(i.demand[t], Supply(i, t))
  }

  ghost function Flows(i: FlowCase): (flow: seq<real>)
    ensures |flow| == |i.demand| && forall t :: 0 <= t < |flow| ==> flow[t] == MaxReal(Carried(i, t), 0.0)
  {
    seq(|i.demand|, t requires 0 <= t < |i.demand| => MaxReal(Carried(i, t), 0.0))
  }

  ghost function Supplies(i: FlowCase): (supply: seq<real>)
    ensures |supply| == |i.demand| && forall t :: 0 <= t < |supply| ==> supply[t] == MaxReal(Supply(i, t), 0.0)
  {
    seq(|i.demand|, t requires 0 <= t < |i.demand| => MaxReal(Supply(i, t), 0.0))
  }

  ghost function Outflow(i: FlowCase, l: nat): real {
    SegSum(Flows(i), i.from, l)
  }

  ghost function Inflow(i: FlowCase, l: nat): real {
    SegSum(Flows(i), i.to, l)
  }

  ghost function NextQueue(i: FlowCase, l: nat): real
    requires l < |i.queue|
  {
    MaxReal(i.queue[l] - Outflow(i, l) + Inflow(i, l), 0.0)
  }

  /** `o` is the output of one step on `i`, entry by entry. */
  ghost predicate IsStep(i: FlowCase, o: FlowOutput) {
    && o.demand == i.demand
    && o.supply == Supplies(i) && o.flow == Flows(i)
    && |o.inflow| == |o.outflow| == |o.queue| == |o.travelTime| == |o.violations| == |i.queue|
    && (forall l :: 0 <= l < |i.queue| ==>
          && o.outflow[l] == Outflow(i, l)
          && o.inflow[l] == Inflow(i, l)
          && o.queue[l] == NextQueue(i, l)
          && o.travelTime[l] == TravelTime(i.base[l], NextQueue(i, l), i.capacity[l])
          && o.violations[l] == (Outflow(i, l) > i.capacity[l] + VIOLATION_TOLERANCE))
    && |o.timer| == |i.timer|
    && forall k :: 0 <= k < |i.timer| ==> o.timer[k] == i.timer[k] + 1
  }

  // ----- The clamps never bite

  lemma ScaledStep(a: real, x: real, b: real, y: real, ratio: real)
    requires a <= ratio * x && b <= ratio * y
    ensures a + b <= ratio * (x + y)
  {
  }

  ghost predicate Scaled(small: real, big: real, ratio: real) {
    small <= ratio * big
  }

  lemma {:induction false} SegSumScaled(small: seq<real>, big: seq<real>, indices: seq<int>, k: int, ratio: real)
    requires |small| == |big| == |indices|
    requires forall t :: 0 <= t < |small| && indices[t] == k ==> Scaled(small[t], big[t], ratio)
    ensures Scaled(SegSum(small, indices, k), SegSum(big, indices, k), ratio)
  {
    if small != [] {
      var n := |small| - 1;
      SegSumScaled(small[..n], big[..n], indices[..n], k, ratio);
      if indices[n] == k {
        ScaledStep(small[n], big[n], SegSum(small[..n], indices[..n], k), SegSum(big[..n], indices[..n], k), ratio);
      }
    }
  }

  lemma {:induction false} SegSumNonNegative(values: seq<real>, indices: seq<int>, k: int)
    requires |values| == |indices| && NonNegative(values)
    ensures SegSum(values, indices, k) >= 0.0
    ensures SegSum(values, indices, k) == 0.0 ==>
              forall t :: 0 <= t < |values| && indices[t] == k ==> values[t] == 0.0
  {
    if values != [] {
      var n := |values| - 1;
      SegSumNonNegative(values[..n], indices[..n], k);
      forall t | SegSum(values, indices, k) == 0.0 && 0 <= t < |values| && indices[t] == k
        ensures values[t] == 0.0
      {
        if t < n {
          assert values[..n][t] == values[t] && indices[..n][t] == indices[t];
        }
      }
    }
  }

  lemma WeightFacts(i: FlowCase, t: nat)
    requires t < |i.demand|
    ensures Weight(i, t) >= 0.0
    ensures i.forbidden[t] ==> Weight(i, t) == 0.0
  {
    if i.demand[t] > 0.0 && !i.forbidden[t] {
      ProductNonNegative(i.demand[t], i.priority[t]);
    }
  }

  lemma ProductNonNegative(a: real, b: real)
    requires a >= 0.0 && b >= 0.0
    ensures a * b >= 0.0
  {
  }

  function Ratio(available: real, sum: real): real {
    if sum > 0.0 then available / sum else 0.0
  }

  lemma ShareFacts(weight: real, sum: real, available: real)
    requires weight >= 0.0 && available >= 0.0
    ensures Grant(available, weight, sum) >= 0.0
    ensures Grant(available, weight, sum) == Ratio(available, sum) * weight
    ensures weight == 0.0 ==> Grant(available, weight, sum) == 0.0
  {
    if sum > 0.0 {
      assert weight / sum >= 0.0;
      ProductNonNegative(available, weight / sum);
    }
  }

  /** `flow` is within the share of `available` that `weight` earns. */
  ghost predicate WithinShare(flow: real, weight: real, sum: real, available: real) {
    flow <= Grant(available, weight, sum)
  }

  lemma TurnWithinShares(i: FlowCase, t: nat)
    requires t < |i.demand|
    ensures 0.0 <= Flows(i)[t] == Carried(i, t) <= i.demand[t]
    ensures Flows(i)[t] <= Supply(i, t) == Supplies(i)[t]
    ensures i.forbidden[t] ==> Flows(i)[t] == 0.0 && Supply(i, t) == 0.0
    ensures var f := i.from[t];
            WithinShare(Flows(i)[t], Weights(i)[t], SegSum(Weights(i), i.from, f), MinReal(i.queue[f], i.capacity[f]))
    ensures var to := i.to[t];
            WithinShare(Flows(i)[t], Weights(i)[t], SegSum(Weights(i), i.to, to), i.capacity[to])
  {
    var f, to, w := i.from[t], i.to[t], Weight(i, t);
    WeightFacts(i, t);
    ShareFacts(w, SegSum(Weights(i), i.from, f), MinReal(i.queue[f], i.capacity[f]));
    ShareFacts(w, SegSum(Weights(i), i.to, to), i.capacity[to]);
  }

  /** Supply is never negative and a forbidden turn has none: the clamps at 0 are inactive. */
  lemma TurnFacts(i: FlowCase, t: nat)
    requires t < |i.demand|
    ensures 0.0 <= Flows(i)[t] == Carried(i, t) <= i.demand[t]
    ensures Flows(i)[t] <= Supplies(i)[t] == Supply(i, t)
    ensures i.forbidden[t] ==> Flows(i)[t] == 0.0 && Supplies(i)[t] == 0.0
  {
    TurnWithinShares(i, t);
  }

  lemma WeightsNonNegative(i: FlowCase)
    ensures NonNegative(Weights(i))
  {
    forall t | 0 <= t < |i.demand| ensures Weights(i)[t] >= 0.0 {
      WeightFacts(i, t);
    }
  }

  lemma RatioTimesSum(sum: real, available: real)
    requires sum >= 0.0 && available >= 0.0
    ensures Ratio(available, sum) * sum <= available
  {
  }

  lemma ShareIsScaled(flow: real, weight: real, sum: real, available: real)
    requires weight >= 0.0 && available >= 0.0 && WithinShare(flow, weight, sum, available)
    ensures Scaled(flow, weight, Ratio(available, sum))
  {
    ShareFacts(weight, sum, available);
  }

  /** The flows of segment `k` stay within their shares of `available`. */
  ghost predicate FitIn(flows: seq<real>, weights: seq<real>, indices: seq<int>, k: int, available: real)
    requires |flows| == |weights| == |indices|
  {
    forall t :: 0 <= t < |flows| && indices[t] == k ==>
      WithinShare(flows[t], weights[t], SegSum(weights, indices, k), available)
  }

  lemma SharesScaled(flows: seq<real>, weights: seq<real>, indices: seq<int>, k: int, available: real)
    requires |flows| == |weights| == |indices| && NonNegative(weights) && available >= 0.0
    requires FitIn(flows, weights, indices, k, available)
    ensures var sum := SegSum(weights, indices, k);
            Scaled(SegSum(flows, indices, k), sum, Ratio(available, sum))
  {
    var sum := SegSum(weights, indices, k);
    forall t | 0 <= t < |flows| && indices[t] == k ensures Scaled(flows[t], weights[t], Ratio(available, sum)) {
      ShareIsScaled(flows[t], weights[t], sum, available);
    }
    SegSumScaled(flows, weights, indices, k, Ratio(available, sum));
  }

  lemma ScaledFits(flow: real, sum: real, available: real)
    requires sum >= 0.0 && available >= 0.0 && Scaled(flow, sum, Ratio(available, sum))
    ensures flow <= available
  {
    RatioTimesSum(sum, available);
  }

  /** Flows that stay within shares of `available` sum to at most `available`. */
  lemma SharesFitIn(flows: seq<real>, weights: seq<real>, indices: seq<int>, k: int, available: real)
    requires |flows| == |weights| == |indices| && NonNegative(weights) && available >= 0.0
    requires FitIn(flows, weights, indices, k, available)
    ensures SegSum(flows, indices, k) <= available
  {
    SegSumNonNegative(weights, indices, k);
    SharesScaled(flows, weights, indices, k, available);
    ScaledFits(SegSum(flows, indices, k), SegSum(weights, indices, k), available);
  }

  /** A link sends at most what it holds and its capacity, and admits at most its capacity. */
  lemma LinkFacts(i: FlowCase, l: nat)
    requires l < |i.queue|
    ensures 0.0 <= Outflow(i, l) <= MinReal(i.queue[l], i.capacity[l])
    ensures 0.0 <= Inflow(i, l) <= i.capacity[l]
    ensures NextQueue(i, l) == i.queue[l] - Outflow(i, l) + Inflow(i, l)
    ensures !(Outflow(i, l) > i.capacity[l] + VIOLATION_TOLERANCE)
  {
    var flows, weights := Flows(i), Weights(i);
    WeightsNonNegative(i);
    FlowsNonNegative(i);
    SegSumNonNegative(flows, i.from, l);
    SegSumNonNegative(flows, i.to, l);
    forall t | 0 <= t < |flows| && i.from[t] == l
      ensures WithinShare(flows[t], weights[t], SegSum(weights, i.from, l), MinReal(i.queue[l], i.capacity[l]))
    {
      TurnWithinShares(i, t);
    }
    SharesFitIn(flows, weights, i.from, l, MinReal(i.queue[l], i.capacity[l]));
    forall t | 0 <= t < |flows| && i.to[t] == l
      ensures WithinShare(flows[t], weights[t], SegSum(weights, i.to, l), i.capacity[l])
    {
      TurnWithinShares(i, t);
    }
    SharesFitIn(flows, weights, i.to, l, i.capacity[l]);
  }

  lemma FlowsNonNegative(i: FlowCase)
    ensures NonNegative(Flows(i))
  {
    forall t | 0 <= t < |i.demand| ensures Flows(i)[t] >= 0.0 {
      TurnFacts(i, t);
    }
  }

  // ----- Conservation

  function SegSums(values: seq<real>, indices: seq<int>, n: nat): (s: seq<real>)
    requires |values| == |indices|
    ensures |s| == n && forall k :: 0 <= k < n ==> s[k] == SegSum(values, indices, k)
  {
    seq(n, k => SegSum(values, indices, k))
  }

  /** Each value counts once, for its own segment. */
  lemma {:induction false} SegSumSplits(values: seq<real>, more: seq<real>, indices: seq<int>, others: seq<int>, k: int)
    requires |values| == |indices| && |more| == |others|
    ensures SegSum(values + more, indices + others, k) == SegSum(values, indices, k) + SegSum(more, others, k)
    ensures forall x: real, j: int :: SegSum([x], [j], k) == if j == k then x else 0.0
    decreases |more|
  {
    forall x: real, j: int ensures SegSum([x], [j], k) == if j == k then x else 0.0 {
      assert [x][..0] == [] && [j][..0] == [];
    }
    if more == [] {
      assert values + more == values && indices + others == indices;
    } else {
      var n := |more| - 1;
      SegSumSplits(values, more[..n], indices, others[..n], k);
      assert (values + more)[..|values| + n] == values + more[..n];
      assert (indices + others)[..|indices| + n] == indices + others[..n];
    }
  }

  /** Distributing values over segments loses nothing. */
  lemma {:induction false} SegSumsTotal(values: seq<real>, indices: seq<int>, n: nat)
    requires |values| == |indices| && AllBelow(indices, n)
    ensures Total(SegSums(values, indices, n)) == Total(values)
  {
    var sums := SegSums(values, indices, n);
    if values == [] {
      TotalZeros(sums);
    } else {
      var m := |values| - 1;
      var before := SegSums(values[..m], indices[..m], n);
      SegSumsTotal(values[..m], indices[..m], n);
      TotalOneMore(before, sums, indices[m], values[m]);
    }
  }

  lemma {:induction false} TotalZeros(s: seq<real>)
    requires forall k :: 0 <= k < |s| ==> s[k] == 0.0
    ensures Total(s) == 0.0
  {
    if s != [] {
      TotalZeros(s[..|s| - 1]);
    }
  }

  lemma {:induction false} TotalOneMore(a: seq<real>, b: seq<real>, at: int, x: real)
    requires |a| == |b|
    requires forall k :: 0 <= k < |a| ==> b[k] == a[k] + if k == at then x else 0.0
    ensures Total(b) == Total(a) + if 0 <= at < |a| then x else 0.0
  {
    if a != [] {
      TotalOneMore(a[..|a| - 1], b[..|b| - 1], at, x);
    }
  }

  lemma {:induction false} TotalBalance(next: seq<real>, queue: seq<real>, outflow: seq<real>, inflow: seq<real>)
    requires |next| == |queue| == |outflow| == |inflow|
    requires forall l :: 0 <= l < |next| ==> next[l] == queue[l] - outflow[l] + inflow[l]
    ensures Total(next) == Total(queue) - Total(outflow) + Total(inflow)
  {
    if next != [] {
      var n := |next| - 1;
      TotalBalance(next[..n], queue[..n], outflow[..n], inflow[..n]);
    }
  }

  /** Everything a step promises: bounds on every turn and link, no violation, and as many queued
      vehicles after as before. */
  lemma StepIsSafe(i: FlowCase, o: FlowOutput)
    requires IsStep(i, o)
    ensures forall t :: 0 <= t < |i.demand| ==>
              && 0.0 <= o.flow[t] <= i.demand[t] && o.flow[t] <= o.supply[t]
              && (i.forbidden[t] ==> o.flow[t] == o.supply[t] == 0.0)
    ensures forall l :: 0 <= l < |i.queue| ==>
              && 0.0 <= o.outflow[l] <= MinReal(i.queue[l], i.capacity[l])
              && 0.0 <= o.inflow[l] <= i.capacity[l]
              && o.queue[l] == i.queue[l] - o.outflow[l] + o.inflow[l] >= 0.0
              && !o.violations[l]
    ensures Total(o.queue) == Total(i.queue)
    ensures Total(o.inflow) == Total(o.outflow) == Total(o.flow)
  {
    forall t | 0 <= t < |i.demand|
      ensures 0.0 <= o.flow[t] <= i.demand[t] && o.flow[t] <= o.supply[t]
      ensures i.forbidden[t] ==> o.flow[t] == o.supply[t] == 0.0
    {
      TurnFacts(i, t);
    }
    forall l | 0 <= l < |i.queue|
      ensures 0.0 <= o.outflow[l] <= MinReal(i.queue[l], i.capacity[l])
      ensures 0.0 <= o.inflow[l] <= i.capacity[l]
      ensures o.queue[l] == i.queue[l] - o.outflow[l] + o.inflow[l] && !o.violations[l]
    {
      LinkFacts(i, l);
    }
    VehiclesBalance(i, o);
  }

  lemma VehiclesBalance(i: FlowCase, o: FlowOutput)
    requires IsStep(i, o)
    ensures Total(o.queue) == Total(i.queue)
    ensures Total(o.inflow) == Total(o.outflow) == Total(o.flow)
  {
    forall l | 0 <= l < |i.queue| ensures o.queue[l] == i.queue[l] - o.outflow[l] + o.inflow[l] {
      LinkFacts(i, l);
    }
    assert o.outflow == SegSums(o.flow, i.from, |i.queue|);
    assert o.inflow == SegSums(o.flow, i.to, |i.queue|);
    SegSumsTotal(o.flow, i.from, |i.queue|);
    SegSumsTotal(o.flow, i.to, |i.queue|);
    TotalBalance(o.queue, i.queue, o.outflow, o.inflow);
  }

  // ----- What every turn gets

  /** How strongly each turn asks: demand times priority, nothing for a forbidden turn. */
  ghost function Pressures(i: FlowCase): (p: seq<real>)
    ensures |p| == |i.demand|
    ensures forall t :: 0 <= t < |p| ==> p[t] == if i.forbidden[t] then 0.0 else i.demand[t] * i.priority[t]
  {
    seq(|i.demand|, t requires 0 <= t < |i.demand| => if i.forbidden[t] then 0.0 else i.demand[t] * i.priority[t])
  }

  /** What link `l` can send. */
  ghost function Sendable(i: FlowCase, l: nat): real
    requires l < |i.queue|
  {
    if i.queue[l] <= i.capacity[l] then i.queue[l] else i.capacity[l]
  }

  /** `supply` is the smaller of two proportional shares: of what the source can send and of what
      the target admits. */
  ghost predicate Proportional(supply: real, pressure: real, fromSum: real, toSum: real, sendable: real,
                               admitted: real)
  {
    && supply * fromSum <= sendable * pressure
    && supply * toSum <= admitted * pressure
    && (supply * fromSum == sendable * pressure || supply * toSum == admitted * pressure)
    && (pressure == 0.0 ==> supply == 0.0)
  }

  ghost predicate TurnShared(i: FlowCase, o: FlowOutput, t: nat)
    requires t < |i.demand| == |o.supply| == |o.flow|
  {
    var p := Pressures(i);
    && Proportional(o.supply[t], p[t], SegSum(p, i.from, i.from[t]), SegSum(p, i.to, i.to[t]),
                    Sendable(i, i.from[t]), i.capacity[i.to[t]])
    && (i.forbidden[t] ==> o.flow[t] == 0.0)
    && (!i.forbidden[t] ==> o.flow[t] <= i.demand[t] && o.flow[t] <= o.supply[t]
                            && (o.flow[t] == i.demand[t] || o.flow[t] == o.supply[t]))
  }

  /** The travel time is the free time, at least 0.001, and the time to discharge the queue at the
      link's capacity. */
  ghost predicate Discharges(time: real, base: real, queue: real, capacity: real) {
    var free := if base >= 0.001 then base else 0.001;
    var rate := if capacity >= 0.001 then capacity else 0.001;
    (time - free) * rate == queue
  }

  /** What passes link `l`, and the time it takes. */
  ghost predicate LinkServed(i: FlowCase, o: FlowOutput, l: nat)
    requires |o.flow| == |i.demand|
    requires l < |i.queue| == |o.inflow| == |o.outflow| == |o.queue| == |o.travelTime|
  {
    && o.outflow[l] == SegSum(o.flow, i.from, l) && o.inflow[l] == SegSum(o.flow, i.to, l)
    && Discharges(o.travelTime[l], i.base[l], o.queue[l], i.capacity[l])
  }

  /** The output in terms of the input alone. */
  ghost predicate SharedOut(i: FlowCase, o: FlowOutput) {
    && |o.supply| == |o.flow| == |i.demand|
    && |o.inflow| == |o.outflow| == |o.queue| == |o.travelTime| == |i.queue|
    && (forall t: nat :: t < |i.demand| ==> TurnShared(i, o, t))
    && forall l: nat :: l < |i.queue| ==> LinkServed(i, o, l)
  }

  lemma PressuresAreWeights(i: FlowCase)
    ensures Pressures(i) == Weights(i)
  {
    forall t | 0 <= t < |i.demand| ensures Pressures(i)[t] == Weights(i)[t] {
      assert i.demand[t] >= 0.0 && i.priority[t] >= 0.0;
    }
  }

  lemma {:induction false} PartOfSum(values: seq<real>, indices: seq<int>, t: nat)
    requires |values| == |indices| && NonNegative(values) && t < |values|
    ensures values[t] <= SegSum(values, indices, indices[t])
  {
    var n := |values| - 1;
    SegSumNonNegative(values[..n], indices[..n], indices[t]);
    if t < n {
      PartOfSum(values[..n], indices[..n], t);
    }
  }

  ghost predicate IsShare(share: real, pressure: real, sum: real, sendable: real) {
    share * sum == sendable * pressure
  }

  /** A grant is a share, and nothing without a weight. */
  lemma GrantIsShare(available: real, weight: real, sum: real)
    requires available >= 0.0 && 0.0 <= weight <= sum
    ensures IsShare(Grant(available, weight, sum), weight, sum, available)
    ensures weight == 0.0 ==> Grant(available, weight, sum) == 0.0
  {
    if sum > 0.0 {
      var share := weight / sum;
      assert share * sum == weight;
      assert (available * share) * sum == available * (share * sum);
    }
  }

  lemma SmallerShare(a: real, b: real, weight: real, fromSum: real, toSum: real, sendable: real, admitted: real)
    requires IsShare(a, weight, fromSum, sendable) && IsShare(b, weight, toSum, admitted)
    requires fromSum >= 0.0 && toSum >= 0.0 && (weight == 0.0 ==> a == 0.0 && b == 0.0)
    ensures Proportional(MinReal(a, b), weight, fromSum, toSum, sendable, admitted)
  {
    if a <= b {
      ProductOrder(a, b, toSum);
    } else {
      ProductOrder(b, a, fromSum);
    }
  }

  lemma ProductOrder(a: real, b: real, scale: real)
    requires a <= b && scale >= 0.0
    ensures a * scale <= b * scale
  {
    assert (b - a) * scale >= 0.0;
  }

  lemma SmallerGrant(weight: real, fromSum: real, toSum: real, sendable: real, admitted: real)
    requires sendable >= 0.0 && admitted >= 0.0 && 0.0 <= weight <= fromSum && weight <= toSum
    ensures Proportional(MinReal(Grant(sendable, weight, fromSum), Grant(admitted, weight, toSum)),
                         weight, fromSum, toSum, sendable, admitted)
  {
    GrantIsShare(sendable, weight, fromSum);
    GrantIsShare(admitted, weight, toSum);
    SmallerShare(Grant(sendable, weight, fromSum), Grant(admitted, weight, toSum),
                 weight, fromSum, toSum, sendable, admitted);
  }

  /** The bounds that make a turn's pressure a part of both sums. */
  lemma PressureInSums(i: FlowCase, t: nat)
    requires t < |i.demand|
    ensures 0.0 <= Pressures(i)[t] == Weight(i, t)
    ensures Pressures(i)[t] <= SegSum(Pressures(i), i.from, i.from[t])
    ensures Pressures(i)[t] <= SegSum(Pressures(i), i.to, i.to[t])
  {
    PressuresAreWeights(i);
    WeightsNonNegative(i);
    PartOfSum(Pressures(i), i.from, t);
    PartOfSum(Pressures(i), i.to, t);
  }

  lemma SupplyIsProportional(i: FlowCase, t: nat)
    requires t < |i.demand|
    ensures var p, f, to := Pressures(i), i.from[t], i.to[t];
            Proportional(Supply(i, t), p[t], SegSum(p, i.from, f), SegSum(p, i.to, to), Sendable(i, f), i.capacity[to])
  {
    var p, f, to := Pressures(i), i.from[t], i.to[t];
    PressureInSums(i, t);
    PressuresAreWeights(i);
    SmallerGrant(p[t], SegSum(p, i.from, f), SegSum(p, i.to, to), Sendable(i, f), i.capacity[to]);
  }

  lemma TimeToDischarge(base: real, queue: real, capacity: real)
    requires queue >= 0.0
    ensures Discharges(TravelTime(base, queue, capacity), base, queue, capacity)
  {
  }

  lemma TurnIsShared(i: FlowCase, o: FlowOutput, t: nat)
    requires IsStep(i, o) && t < |i.demand|
    ensures TurnShared(i, o, t)
  {
    TurnFacts(i, t);
    SupplyIsProportional(i, t);
    assert o.supply[t] == Supply(i, t) && o.flow[t] == Carried(i, t);
  }

  lemma LinkIsServed(i: FlowCase, o: FlowOutput, l: nat)
    requires IsStep(i, o) && l < |i.queue|
    ensures LinkServed(i, o, l)
  {
    TimeToDischarge(i.base[l], o.queue[l], i.capacity[l]);
  }

  /** One step shares out supply in proportion to demand and priority, carries what demand and
      supply allow, and reports the flows and the travel times that follow. */
  lemma StepSharesOut(i: FlowCase, o: FlowOutput)
    requires IsStep(i, o)
    ensures SharedOut(i, o)
  {
    forall t: nat | t < |i.demand| ensures TurnShared(i, o, t) {
      TurnIsShared(i, o, t);
    }
    forall l: nat | l < |i.queue| ensures LinkServed(i, o, l) {
      LinkIsServed(i, o, l);
    }
  }

  lemma {:induction false} SharesScale(shares: seq<real>, pressures: seq<real>, indices: seq<int>, l: int,
                                       sum: real, sendable: real)
    requires |shares| == |pressures| == |indices|
    requires forall t :: 0 <= t < |shares| && indices[t] == l ==> IsShare(shares[t], pressures[t], sum, sendable)
    ensures IsShare(SegSum(shares, indices, l), SegSum(pressures, indices, l), sum, sendable)
  {
    if shares != [] {
      var n := |shares| - 1;
      SharesScale(shares[..n], pressures[..n], indices[..n], l, sum, sendable);
      if indices[n] == l {
        assert IsShare(shares[n], pressures[n], sum, sendable);
        var a, b := SegSum(shares[..n], indices[..n], l), SegSum(pressures[..n], indices[..n], l);
        assert (a + shares[n]) * sum == a * sum + shares[n] * sum;
        assert sendable * (b + pressures[n]) == sendable * b + sendable * pressures[n];
      }
    }
  }

  lemma ShareOfAll(share: real, sum: real, sendable: real)
    requires IsShare(share, sum, sum, sendable) && sum > 0.0
    ensures share == sendable
  {
    assert (share - sendable) * sum == 0.0;
  }

  /** The shares of a link that anyone asks of add up to all it can send: where neither targets nor
      demands hold its turns back, exactly that leaves it. */
  lemma LinkIsDrained(i: FlowCase, o: FlowOutput, l: nat)
    requires IsStep(i, o) && l < |i.queue| && SegSum(Pressures(i), i.from, l) > 0.0
    requires forall t :: 0 <= t < |i.demand| && i.from[t] == l ==>
               IsShare(o.flow[t], Pressures(i)[t], SegSum(Pressures(i), i.from, l), Sendable(i, l))
    ensures o.outflow[l] == Sendable(i, l)
  {
    var sum := SegSum(Pressures(i), i.from, l);
    SharesScale(o.flow, Pressures(i), i.from, l, sum, Sendable(i, l));
    ShareOfAll(o.outflow[l], sum, Sendable(i, l));
  }

  // ----- Runs

  /** A run of steps in which every queue vector is the previous step's output; everything else
      about a step's input may change from tick to tick. */
  ghost predicate IsRun(inputs: seq<FlowCase>, outputs: seq<FlowOutput>) {
    && |inputs| == |outputs|
    && (forall k :: 0 <= k < |inputs| ==> IsStep(inputs[k], outputs[k]))
    && forall k: nat :: QueueFed(inputs, outputs, k)
  }

  ghost predicate QueueFed(inputs: seq<FlowCase>, outputs: seq<FlowOutput>, k: nat) {
    var next := k + 1;
    next < |inputs| && k < |outputs| ==> inputs[next].queue == outputs[k].queue
  }

  /** Vehicles are conserved and no queue turns negative over a run of any length. */
  lemma {:induction false} RunConserves(inputs: seq<FlowCase>, outputs: seq<FlowOutput>, k: nat)
    requires IsRun(inputs, outputs) && k < |inputs|
    ensures Total(outputs[k].queue) == Total(inputs[0].queue)
    ensures NonNegative(outputs[k].queue) && |outputs[k].queue| == |inputs[0].queue|
    ensures forall l :: 0 <= l < |outputs[k].violations| ==> !outputs[k].violations[l]
  {
    StepIsSafe(inputs[k], outputs[k]);
    if k > 0 {
      RunConserves(inputs, outputs, k - 1);
      assert QueueFed(inputs, outputs, k - 1);
    }
  }

  // ----- The computation

  method SegmentSum(values: seq<real>, indices: seq<int>, n: nat) returns (sums: seq<real>)
    requires |values| == |indices| && AllBelow(indices, n)
    ensures |sums| == n && forall k :: 0 <= k < n ==> sums[k] == SegSum(values, indices, k)
  {
    var out := new real[n](_ => 0.0);
    for t := 0 to |values|
      invariant forall k :: 0 <= k < n ==> out[k] == SegSum(values[..t], indices[..t], k)
    {
      assert values[..t + 1][..t] == values[..t] && indices[..t + 1][..t] == indices[..t];
      out[indices[t]] := out[indices[t]] + values[t];
    }
    assert values[..|values|] == values && indices[..|indices|] == indices;
    sums := out[..];
  }

  function Zeros(n: nat): (s: seq<real>)
    ensures |s| == n && forall k :: 0 <= k < n ==> s[k] == 0.0
  {
    seq(n, _ => 0.0)
  }

  function IncrementTimers(timer: seq<int>): (s: seq<int>)
    ensures |s| == |timer| && forall k :: 0 <= k < |s| ==> s[k] == timer[k] + 1
  {
    seq(|timer|, k requires 0 <= k < |timer| => timer[k] + 1)
  }

  function TravelTimes(base: seq<real>, queue: seq<real>, capacity: seq<real>): (s: seq<real>)
    requires |base| == |queue| == |capacity|
    ensures |s| == |base| && forall l :: 0 <= l < |s| ==> s[l] == TravelTime(base[l], queue[l], capacity[l])
  {
    seq(|base|, l requires 0 <= l < |base| => TravelTime(base[l], queue[l], capacity[l]))
  }

  method WeightedDemand(i: FlowCase) returns (weights: seq<real>)
    ensures weights == Weights(i)
  {
    weights := [];
    for t := 0 to |i.demand|
      invariant |weights| == t && forall k :: 0 <= k < t ==> weights[k] == Weight(i, k)
    {
      var priorityWeight := if i.forbidden[t] then 0.0 else MaxReal(i.priority[t], 0.0);
      weights := weights + [if i.demand[t] > 0.0 then i.demand[t] * priorityWeight else 0.0];
    }
  }

  lemma TakeOneMore(s: seq<real>, t: nat)
    requires t < |s|
    ensures s[..t + 1] == s[..t] + [s[t]]
  {
  }

  method TurnFlow(i: FlowCase, t: nat, weight: real, fromSum: real, toSum: real) returns (supply: real, flow: real)
    requires t < |i.demand| && weight == Weight(i, t)
    requires fromSum == SegSum(Weights(i), i.from, i.from[t]) && toSum == SegSum(Weights(i), i.to, i.to[t])
    ensures supply == Supplies(i)[t] && flow == Flows(i)[t]
  {
    var from, to := i.from[t], i.to[t];
    var available := MinReal(i.queue[from], i.capacity[from]);
    var s := MinReal(Grant(available, weight, fromSum), Grant(i.capacity[to], weight, toSum));
    var f := if i.forbidden[t] then 0.0 else MinReal(i.demand[t], s);
    supply, flow := MaxReal(s, 0.0), MaxReal(f, 0.0);
  }

  method TurnFlows(i: FlowCase, weights: seq<real>, byFrom: seq<real>, byTo: seq<real>)
    returns (supply: seq<real>, flow: seq<real>)
    requires weights == Weights(i) && |byFrom| == |byTo| == |i.queue|
    requires forall l :: 0 <= l < |i.queue| ==>
               byFrom[l] == SegSum(weights, i.from, l) && byTo[l] == SegSum(weights, i.to, l)
    ensures supply == Supplies(i) && flow == Flows(i)
  {
    supply, flow := [], [];
    for t := 0 to |i.demand|
      invariant supply == Supplies(i)[..t] && flow == Flows(i)[..t]
    {
      var s, f := TurnFlow(i, t, weights[t], byFrom[i.from[t]], byTo[i.to[t]]);
      TakeOneMore(Supplies(i), t);
      TakeOneMore(Flows(i), t);
      supply, flow := supply + [s], flow + [f];
    }
  }

  ghost predicate IsZeroStep(i: FlowInput, o: FlowOutput) {
    o == FlowOutput(i.demand, Zeros(|i.demand|), Zeros(|i.demand|), [], [], [], [], [], IncrementTimers(i.timer))
  }

  /** One step; with no link at all every turn gets nothing, and with no turn nothing moves. */
  method ComputeBaselineFlow(input: FlowInput) returns (r: Result<FlowOutput, FlowError>)
    ensures r.Ok? <==> Validate(input).Ok?
    ensures r.Err? ==> Validate(input) == Err(r.error)
    ensures r.Ok? && input.queue != [] ==> IsStep(input, r.value) && SharedOut(input, r.value)
    ensures r.Ok? && input.queue == [] ==> IsZeroStep(input, r.value)
  {
    var check := Validate(input);
    if check.Err? {
      return Err(check.error);
    }
    var links, turns := |input.queue|, |input.demand|;
    var timer := IncrementTimers(input.timer);
    if links == 0 {
      return Ok(FlowOutput(input.demand, Zeros(turns), Zeros(turns), [], [], [], [], [], timer));
    }
    var i: FlowCase := input;
    if turns == 0 {
      assert Flows(i) == [] && Supplies(i) == [];
      var still := FlowOutput(i.demand, [], [], Zeros(links), Zeros(links), i.queue,
                              TravelTimes(i.base, i.queue, i.capacity), seq(links, _ => false), timer);
      StepSharesOut(i, still);
      return Ok(still);
    }
    var weights := WeightedDemand(i);
    var byFrom := SegmentSum(weights, i.from, links);
    var byTo := SegmentSum(weights, i.to, links);
    var supply, flow := TurnFlows(i, weights, byFrom, byTo);
    var outflow := SegmentSum(flow, i.from, links);
    var inflow := SegmentSum(flow, i.to, links);
    var queue := seq(links, l requires 0 <= l < links => MaxReal(i.queue[l] - outflow[l] + inflow[l], 0.0));
    var violations := seq(links, l requires 0 <= l < links => outflow[l] > i.capacity[l] + VIOLATION_TOLERANCE);
    var o := FlowOutput(i.demand, supply, flow, inflow, outflow, queue,
                        TravelTimes(i.base, queue, i.capacity), violations, timer);
    StepSharesOut(i, o);
    return Ok(o);
  }
}
