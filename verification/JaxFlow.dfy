/** The array formulation of the flow step, its two execution modes, and their agreement with
    the turn-by-turn step. */
module JaxFlow {
  import opened Results
  import opened Flow

  /** The arguments that stay the same over all steps of a call. */
  datatype StepArgs = StepArgs(
    capacity: seq<real>,
    base: seq<real>,
    from: seq<int>,
    to: seq<int>,
    demand: seq<real>,
    priority: seq<real>,
    forbidden: seq<bool>)

  /** The step's nine arrays, in the order it returns them. */
  datatype StepResult = StepResult(
    queue: seq<real>,
    inflow: seq<real>,
    outflow: seq<real>,
    travelTime: seq<real>,
    violations: seq<bool>,
    demand: seq<real>,
    supply: seq<real>,
    flow: seq<real>,
    timer: seq<int>)

  predicate Shaped(args: StepArgs, links: nat) {
    && |args.capacity| == |args.base| == links
    && |args.from| == |args.to| == |args.priority| == |args.forbidden| == |args.demand|
    && AllBelow(args.from, links) && AllBelow(args.to, links)
  }

  function ArgsOf(i: FlowInput): StepArgs {
    StepArgs(i.capacity, i.base, i.from, i.to, i.demand, i.priority, i.forbidden)
  }

  function ResultOf(o: FlowOutput): StepResult {
    StepResult(o.queue, o.inflow, o.outflow, o.travelTime, o.violations, o.demand, o.supply, o.flow, o.timer)
  }

  function CaseOf(args: StepArgs, queue: seq<real>, timer: seq<int>): FlowInput {
    FlowInput(queue, args.capacity, args.from, args.to, args.demand, timer, args.base, args.priority, args.forbidden)
  }

  // ----- Array operations

  /** `values[indices]` */
  function Gather(values: seq<real>, indices: seq<int>): (r: seq<real>)
    requires AllBelow(indices, |values|)
    ensures |r| == |indices| && forall t :: 0 <= t < |r| ==> r[t] == values[indices[t]]
  {
    seq(|indices|, t requires 0 <= t < |indices| => values[indices[t]])
  }

  /** `where(cond, 0, values)` */
  function ZeroWhere(cond: seq<bool>, values: seq<real>): (r: seq<real>)
    requires |cond| == |values|
    ensures |r| == |values| && forall t :: 0 <= t < |r| ==> r[t] == if cond[t] then 0.0 else values[t]
  {
    seq(|values|, t requires 0 <= t < |values| => if cond[t] then 0.0 else values[t])
  }

  /** `maximum(values, bound)` */
  function AtLeast(values: seq<real>, bound: real): (r: seq<real>)
    ensures |r| == |values| && forall t :: 0 <= t < |r| ==> r[t] == MaxReal(values[t], bound)
  {
    seq(|values|, t requires 0 <= t < |values| => MaxReal(values[t], bound))
  }

  /** `minimum(a, b)` */
  function Minimum(a: seq<real>, b: seq<real>): (r: seq<real>)
    requires |a| == |b|
    ensures |r| == |a| && forall t :: 0 <= t < |r| ==> r[t] == MinReal(a[t], b[t])
  {
    seq(|a|, t requires 0 <= t < |a| => MinReal(a[t], b[t]))
  }

  /** `where(demand > 0, demand * weight, 0)` */
  function Weigh(demand: seq<real>, weight: seq<real>): (r: seq<real>)
    requires |demand| == |weight|
    ensures |r| == |demand|
    ensures forall t :: 0 <= t < |r| ==> r[t] == if demand[t] > 0.0 then demand[t] * weight[t] else 0.0
  {
    seq(|demand|, t requires 0 <= t < |demand| => if demand[t] > 0.0 then demand[t] * weight[t] else 0.0)
  }

  /** `available * where(sums > 0, weights / sums, 0)` */
  function Grants(available: seq<real>, weights: seq<real>, sums: seq<real>): (r: seq<real>)
    requires |available| == |weights| == |sums|
    ensures |r| == |weights| && forall t :: 0 <= t < |r| ==> r[t] == Grant(available[t], weights[t], sums[t])
  {
    seq(|weights|, t requires 0 <= t < |weights| => Grant(available[t], weights[t], sums[t]))
  }

  // ----- The step

  function TurnSupply(queue: seq<real>, args: StepArgs): (supply: seq<real>)
    requires Shaped(args, |queue|)
    ensures |supply| == |args.demand|
  {
    var weighted := Weigh(args.demand, ZeroWhere(args.forbidden, AtLeast(args.priority, 0.0)));
    var byFrom := SegSums(weighted, args.from, |queue|);
    var byTo := SegSums(weighted, args.to, |queue|);
    var available := Minimum(queue, args.capacity);
    Minimum(Grants(Gather(available, args.from), weighted, Gather(byFrom, args.from)),
            Grants(Gather(args.capacity, args.to), weighted, Gather(byTo, args.to)))
  }

  function UnclampedTravelTime(base: real, queue: real, capacity: real): real {
    MaxReal(base, MIN_TRAVEL_COST) + queue / MaxReal(capacity, MIN_TRAVEL_COST)
  }

  lemma TravelTimeAgrees(base: real, queue: real, capacity: real)
    requires queue >= 0.0
    ensures UnclampedTravelTime(base, queue, capacity) == TravelTime(base, queue, capacity)
  {
  }

  function NextQueues(queue: seq<real>, outflow: seq<real>, inflow: seq<real>): (r: seq<real>)
    requires |queue| == |outflow| == |inflow|
    ensures |r| == |queue|
    ensures forall l :: 0 <= l < |r| ==> r[l] == MaxReal(0.0, queue[l] - outflow[l] + inflow[l])
  {
    seq(|queue|, l requires 0 <= l < |queue| => MaxReal(0.0, queue[l] - outflow[l] + inflow[l]))
  }

  function UnclampedTimes(base: seq<real>, queue: seq<real>, capacity: seq<real>): (r: seq<real>)
    requires |base| == |queue| == |capacity|
    ensures |r| == |base|
    ensures forall l :: 0 <= l < |r| ==> r[l] == UnclampedTravelTime(base[l], queue[l], capacity[l])
  {
    seq(|base|, l requires 0 <= l < |base| => UnclampedTravelTime(base[l], queue[l], capacity[l]))
  }

  function Violations(outflow: seq<real>, capacity: seq<real>): (r: seq<bool>)
    requires |outflow| == |capacity|
    ensures |r| == |outflow|
    ensures forall l :: 0 <= l < |r| ==> r[l] == (outflow[l] > capacity[l] + VIOLATION_TOLERANCE)
  {
    seq(|outflow|, l requires 0 <= l < |outflow| => outflow[l] > capacity[l] + VIOLATION_TOLERANCE)
  }

  function Step(queue: seq<real>, timer: seq<int>, args: StepArgs): (r: StepResult)
    requires Shaped(args, |queue|)
    ensures |r.queue| == |queue|
  {
    var supply := TurnSupply(queue, args);
    var flow := ZeroWhere(args.forbidden, Minimum(args.demand, supply));
    var outflow := SegSums(flow, args.from, |queue|);
    var inflow := SegSums(flow, args.to, |queue|);
    var next := NextQueues(queue, outflow, inflow);
    StepResult(
      next, inflow, outflow, UnclampedTimes(args.base, next, args.capacity), Violations(outflow, args.capacity),
      args.demand, AtLeast(supply, 0.0), AtLeast(flow, 0.0), IncrementTimers(timer))
  }

  lemma WeightsAgree(i: FlowCase)
    ensures Weigh(i.demand, ZeroWhere(i.forbidden, AtLeast(i.priority, 0.0))) == Weights(i)
  {
    var priorities := ZeroWhere(i.forbidden, AtLeast(i.priority, 0.0));
    var weighted := Weigh(i.demand, priorities);
    forall t | 0 <= t < |i.demand| ensures weighted[t] == Weights(i)[t] {
      assert priorities[t] == if i.forbidden[t] then 0.0 else MaxReal(i.priority[t], 0.0);
    }
  }

  lemma SupplyAgrees(i: FlowCase)
    ensures TurnSupply(i.queue, ArgsOf(i)) == Supplies(i)
  {
    var supply := TurnSupply(i.queue, ArgsOf(i));
    WeightsAgree(i);
    forall t | 0 <= t < |i.demand| ensures supply[t] == Supplies(i)[t] {
      SupplyAgreesAt(i, supply, t);
    }
  }

  lemma SupplyAgreesAt(i: FlowCase, supply: seq<real>, t: nat)
    requires supply == TurnSupply(i.queue, ArgsOf(i)) && t < |i.demand|
    ensures supply[t] == Supplies(i)[t]
  {
    WeightsAgree(i);
    TurnFacts(i, t);
  }

  /** The array form's flows are not clamped at 0, and need not be. */
  lemma FlowsAgree(i: FlowCase)
    ensures ZeroWhere(i.forbidden, Minimum(i.demand, Supplies(i))) == Flows(i)
    ensures AtLeast(Flows(i), 0.0) == Flows(i) && AtLeast(Supplies(i), 0.0) == Supplies(i)
  {
    forall t | 0 <= t < |i.demand|
      ensures Flows(i)[t] == (if i.forbidden[t] then 0.0 else MinReal(i.demand[t], Supplies(i)[t]))
      ensures Flows(i)[t] >= 0.0 && Supplies(i)[t] >= 0.0
    {
      TurnFacts(i, t);
    }
  }

  /** The links' arrays follow from the flows in the array form too. */
  lemma LinkArraysAgree(i: FlowCase, o: FlowOutput)
    requires IsStep(i, o)
    ensures o.outflow == SegSums(o.flow, i.from, |i.queue|) && o.inflow == SegSums(o.flow, i.to, |i.queue|)
    ensures o.queue == NextQueues(i.queue, o.outflow, o.inflow)
    ensures o.travelTime == UnclampedTimes(i.base, o.queue, i.capacity)
    ensures o.violations == Violations(o.outflow, i.capacity)
  {
    assert o.queue == NextQueues(i.queue, o.outflow, o.inflow);
    forall l | 0 <= l < |i.queue|
      ensures o.travelTime[l] == UnclampedTimes(i.base, o.queue, i.capacity)[l]
    {
      TravelTimeAgrees(i.base[l], o.queue[l], i.capacity[l]);
    }
  }

  /** The array step returns the arrays of the turn-by-turn step, zero turns included: its clamps
      sit in other places, but neither set ever bites. */
  lemma StepAgrees(i: FlowCase, o: FlowOutput)
    requires IsStep(i, o)
    ensures Step(i.queue, i.timer, ArgsOf(i)) == ResultOf(o)
  {
    var r := Step(i.queue, i.timer, ArgsOf(i));
    SupplyAgrees(i);
    FlowsAgree(i);
    LinkArraysAgree(i, o);
    assert r.timer == o.timer;
  }

  // ----- The two execution modes

  /** `n` steps, each fed the queue and the timer of the one before. */
  function Iterate(queue: seq<real>, timer: seq<int>, args: StepArgs, n: nat): (r: StepResult)
    requires Shaped(args, |queue|) && n > 0
    ensures |r.queue| == |queue|
  {
    if n == 1 then Step(queue, timer, args)
    else
      var before := Iterate(queue, timer, args, n - 1);
      Step(before.queue, before.timer, args)
  }

  ghost predicate FedBack(inputs: seq<FlowCase>, outputs: seq<FlowOutput>, k: nat) {
    var next := k + 1;
    next < |inputs| && k < |outputs| ==>
      inputs[next] == inputs[k].(queue := outputs[k].queue, timer := outputs[k].timer)
  }

  /** A run of turn-by-turn steps in which only the queues and the timers change. */
  ghost predicate IsSteadyRun(inputs: seq<FlowCase>, outputs: seq<FlowOutput>) {
    && |inputs| == |outputs|
    && (forall k :: 0 <= k < |inputs| ==> IsStep(inputs[k], outputs[k]))
    && forall k: nat :: FedBack(inputs, outputs, k)
  }

  /** Over runs of any length the two implementations agree in all nine arrays. */
  lemma {:induction false} IterateAgrees(inputs: seq<FlowCase>, outputs: seq<FlowOutput>, k: nat)
    requires IsSteadyRun(inputs, outputs) && k < |inputs|
    ensures ArgsOf(inputs[k]) == ArgsOf(inputs[0]) && |inputs[k].queue| == |inputs[0].queue|
    ensures Iterate(inputs[0].queue, inputs[0].timer, ArgsOf(inputs[0]), k + 1) == ResultOf(outputs[k])
  {
    StepAgrees(inputs[k], outputs[k]);
    if k > 0 {
      var before := k - 1;
      IterateAgrees(inputs, outputs, before);
      assert FedBack(inputs, outputs, before);
    }
  }

  /** One compiled call per step; the first is made whatever `numSteps` is. */
  method HostStepLoop(queue: seq<real>, timer: seq<int>, args: StepArgs, numSteps: nat)
    returns (result: StepResult)
    requires Shaped(args, |queue|)
    ensures result == Iterate(queue, timer, args, if numSteps == 0 then 1 else numSteps)
  {
    result := Step(queue, timer, args);
    var q, s := result.queue, result.timer;
    for done := 1 to if numSteps == 0 then 1 else numSteps
      invariant result == Iterate(queue, timer, args, done)
      invariant q == result.queue && s == result.timer
    {
      result := Step(q, s, args);
      q, s := result.queue, result.timer;
    }
  }

  /** The loop state of the device chunk: the timer comes second, the rest follows. */
  datatype Carry = Carry(
    queue: seq<real>,
    timer: seq<int>,
    inflow: seq<real>,
    outflow: seq<real>,
    travelTime: seq<real>,
    violations: seq<bool>,
    demand: seq<real>,
    supply: seq<real>,
    flow: seq<real>)

  /** The final permutation back to the order of a step's result. */
  function Unpack(c: Carry): StepResult {
    StepResult(c.queue, c.inflow, c.outflow, c.travelTime, c.violations, c.demand, c.supply, c.flow, c.timer)
  }

  /** The loop body: one step, its result permuted into the next carry. */
  function Body(c: Carry, args: StepArgs): Carry
    requires Shaped(args, |c.queue|)
  {
    var r := Step(c.queue, c.timer, args);
    Carry(r.queue, r.timer, r.inflow, r.outflow, r.travelTime, r.violations, r.demand, r.supply, r.flow)
  }

  lemma UnpackBody(c: Carry, args: StepArgs)
    requires Shaped(args, |c.queue|)
    ensures Unpack(Body(c, args)) == Step(c.queue, c.timer, args)
  {
  }

  /** What no step at all leaves: the queues and timers as they were, base times, and nothing moved. */
  ghost predicate Unstepped(r: StepResult, queue: seq<real>, timer: seq<int>, args: StepArgs) {
    && r.queue == queue && r.timer == timer && r.travelTime == args.base && r.demand == args.demand
    && |r.inflow| == |r.outflow| == |r.violations| == |queue|
    && (forall l :: 0 <= l < |queue| ==> r.inflow[l] == r.outflow[l] == 0.0 && !r.violations[l])
    && |r.supply| == |r.flow| == |args.demand|
    && forall t :: 0 <= t < |args.demand| ==> r.supply[t] == r.flow[t] == 0.0
  }

  function Start(queue: seq<real>, timer: seq<int>, args: StepArgs): (c: Carry)
    ensures |args.base| == |queue| ==> Unstepped(Unpack(c), queue, timer, args)
  {
    var links, turns := |queue|, |args.demand|;
    Carry(queue, timer, Zeros(links), Zeros(links), args.base, seq(links, _ => false),
          args.demand, Zeros(turns), Zeros(turns))
  }

  /** The whole loop in one compiled call. */
  method DeviceChunk(queue: seq<real>, timer: seq<int>, args: StepArgs, numSteps: nat)
    returns (result: StepResult)
    requires Shaped(args, |queue|)
    ensures numSteps > 0 ==> result == Iterate(queue, timer, args, numSteps)
    ensures numSteps == 0 ==> Unstepped(result, queue, timer, args)
  {
    var links := |queue|;
    var carry := Start(queue, timer, args);
    for done := 0 to numSteps
      invariant done == 0 ==> carry == Start(queue, timer, args)
      invariant done > 0 ==> Unpack(carry) == Iterate(queue, timer, args, done)
    {
      ghost var before := carry;
      assert |carry.queue| == links && carry.queue == Unpack(carry).queue && carry.timer == Unpack(carry).timer;
      carry := Body(carry, args);
      UnpackBody(before, args);
    }
    result := Unpack(carry);
  }

  /** Any number of array steps conserves vehicles, keeps queues non-negative and raises no flag. */
  lemma {:induction false} IterateConserves(i: FlowCase, n: nat)
    requires n > 0
    ensures var r := Iterate(i.queue, i.timer, ArgsOf(i), n);
            && Total(r.queue) == Total(i.queue) && NonNegative(r.queue)
            && forall l :: 0 <= l < |r.violations| ==> !r.violations[l]
  {
    var before := i;
    if n > 1 {
      IterateConserves(i, n - 1);
      var r := Iterate(i.queue, i.timer, ArgsOf(i), n - 1);
      before := CaseOf(ArgsOf(i), r.queue, r.timer);
    }
    var o := SomeStep(before);
    StepAgrees(before, o);
    StepIsSafe(before, o);
  }

  /** Every case has a step. */
  lemma SomeStep(i: FlowCase) returns (o: FlowOutput)
    ensures IsStep(i, o)
  {
    var links := |i.queue|;
    var inflow, outflow := SegSums(Flows(i), i.to, links), SegSums(Flows(i), i.from, links);
    var queue := seq(links, l requires 0 <= l < links => NextQueue(i, l));
    o := FlowOutput(i.demand, Supplies(i), Flows(i), inflow, outflow, queue,
                    TravelTimes(i.base, queue, i.capacity),
                    seq(links, l requires 0 <= l < links => Outflow(i, l) > i.capacity[l] + VIOLATION_TOLERANCE),
                    IncrementTimers(i.timer));
  }
}
