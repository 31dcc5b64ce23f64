/** Evolution of edge queues and stocks, one edge at a time or as a parallel map. */
module Edges {
  import opened Results

  const EPS := 0.000001
  const PARALLEL_THRESHOLD := 1024

  datatype EdgeBatch = EdgeBatch(
    queue: seq<real>,
    stock: seq<real>,
    inflow: seq<real>,
    outflow: seq<real>,
    freeFlow: seq<real>,
    capacity: seq<real>)

  datatype EdgeError =
    | StockLength | InflowLength | OutflowLength | FreeFlowLength | CapacityLength
    | NegativeQueue | NegativeStock | NegativeInflow | NegativeOutflow | NegativeFreeFlow | NegativeCapacity
    | QueueAboveStock

  /** The part of a batch that is not state. */
  predicate ValidInputs(b: EdgeBatch) {
    && |b.inflow| == |b.outflow| == |b.freeFlow| == |b.capacity| == |b.queue|
    && NonNegative(b.inflow) && NonNegative(b.outflow) && NonNegative(b.freeFlow) && NonNegative(b.capacity)
  }

  predicate ValidBatch(b: EdgeBatch) {
    && ValidInputs(b)
    && |b.stock| == |b.queue| && NonNegative(b.queue) && NonNegative(b.stock)
  }

  /** Where a check stands among the checks. */
  function Stage(e: EdgeError): nat {
    match e
    case StockLength => 0
    case InflowLength => 1
    case OutflowLength => 2
    case FreeFlowLength => 3
    case CapacityLength => 4
    case NegativeQueue => 5
    case NegativeStock => 6
    case NegativeInflow => 7
    case NegativeOutflow => 8
    case NegativeFreeFlow => 9
    case NegativeCapacity => 10
    case QueueAboveStock => 11
  }

  /** The input deserves the error `e`, whatever else is wrong with it. */
  predicate Deserves(b: EdgeBatch, e: EdgeError) {
    match e
    case StockLength => |b.stock| != |b.queue|
    case InflowLength => |b.inflow| != |b.queue|
    case OutflowLength => |b.outflow| != |b.queue|
    case FreeFlowLength => |b.freeFlow| != |b.queue|
    case CapacityLength => |b.capacity| != |b.queue|
    case NegativeQueue => !NonNegative(b.queue)
    case NegativeStock => !NonNegative(b.stock)
    case NegativeInflow => !NonNegative(b.inflow)
    case NegativeOutflow => !NonNegative(b.outflow)
    case NegativeFreeFlow => !NonNegative(b.freeFlow)
    case NegativeCapacity => !NonNegative(b.capacity)
    case QueueAboveStock => false
  }

  /** The error is the first in the source's order among those the input deserves. */
  function Validate(b: EdgeBatch): (r: Result<nat, EdgeError>)
    ensures r.Ok? <==> ValidBatch(b)
    ensures r.Ok? ==> r.value == |b.queue|
    ensures r.Err? ==> Deserves(b, r.error)
                       && forall e :: Deserves(b, e) ==> e == r.error || Stage(r.error) < Stage(e)
  {
    var n := |b.queue|;
    if |b.stock| != n then Err(StockLength)
    else if |b.inflow| != n then Err(InflowLength)
    else if |b.outflow| != n then Err(OutflowLength)
    else if |b.freeFlow| != n then Err(FreeFlowLength)
    else if |b.capacity| != n then Err(CapacityLength)
    else if !NonNegative(b.queue) then Err(NegativeQueue)
    else if !NonNegative(b.stock) then Err(NegativeStock)
    else if !NonNegative(b.inflow) then Err(NegativeInflow)
    else if !NonNegative(b.outflow) then Err(NegativeOutflow)
    else if !NonNegative(b.freeFlow) then Err(NegativeFreeFlow)
    else if !NonNegative(b.capacity) then Err(NegativeCapacity)
    else Ok(n)
  }

  /** What happens at one edge during one step. */
  datatype EdgeInput = EdgeInput(inflow: real, outflow: real, freeFlow: real, capacity: real)

  datatype EdgeState = EdgeState(queue: real, stock: real, travelTime: real)

  predicate ValidEdge(e: EdgeInput) {
    e.inflow >= 0.0 && e.outflow >= 0.0 && e.freeFlow >= 0.0 && e.capacity >= 0.0
  }

  function EdgeAt(b: EdgeBatch, k: nat): EdgeInput
    requires ValidBatch(b) && k < |b.queue|
  {
    EdgeInput(b.inflow[k], b.outflow[k], b.freeFlow[k], b.capacity[k])
  }

  /** The outflow that is realised: no more than asked for, than present, or than capacity. */
  function Realised(stock: real, e: EdgeInput): real {
    if e.capacity <= 0.0 then 0.0 else MinReal(MinReal(e.outflow, stock + e.inflow), e.capacity)
  }

  function Evolve(queue: real, stock: real, e: EdgeInput): EdgeState {
    var realised := Realised(stock, e);
    var stockAfter := stock + e.inflow - realised;
    var queued := queue + MaxReal(e.inflow - realised, 0.0);
    var queueAfter := MinReal(MaxReal(queued, 0.0), stockAfter);
    EdgeState(queueAfter, stockAfter, e.freeFlow + queueAfter / MaxReal(e.capacity, EPS))
  }

  /** A state the step accepts. */
  predicate Sound(queue: real, stock: real) {
    0.0 <= queue <= stock
  }

  /** One step keeps 0 <= queue <= stock, realises no more than capacity, demand or mass, and
      accounts for every vehicle. */
  lemma EvolveKeepsSound(queue: real, stock: real, e: EdgeInput)
    requires Sound(queue, stock) && ValidEdge(e)
    ensures var s := Evolve(queue, stock, e);
            && Sound(s.queue, s.stock)
            && 0.0 <= Realised(stock, e) <= MinReal(e.capacity, MinReal(e.outflow, stock + e.inflow))
            && s.stock == stock + e.inflow - Realised(stock, e)
            && s.queue <= queue + e.inflow
            && s.travelTime >= e.freeFlow
  {
    var s := Evolve(queue, stock, e);
    assert s.queue / MaxReal(e.capacity, EPS) >= 0.0;
  }

  /** As much leaves as is asked for, as is there, or as capacity lets through, whichever is least;
      the rest of the inflow queues up within the stock; and the travel time is the free time and
      the time to discharge the queue at capacity, taken as at least 1e-6. */
  ghost predicate Discharged(queue: real, stock: real, e: EdgeInput, s: EdgeState) {
    var left := stock + e.inflow - s.stock;
    var joining := if e.inflow > left then e.inflow - left else 0.0;
    var rate := if e.capacity > 0.000001 then e.capacity else 0.000001;
    && left <= e.outflow && left <= stock + e.inflow && left <= e.capacity
    && (left == e.outflow || left == stock + e.inflow || left == e.capacity)
    && s.queue <= queue + joining && s.queue <= s.stock
    && (s.queue == queue + joining || s.queue == s.stock)
    && (s.travelTime - e.freeFlow) * rate == s.queue
  }

  lemma EvolveDischarges(queue: real, stock: real, e: EdgeInput)
    requires Sound(queue, stock) && ValidEdge(e)
    ensures Discharged(queue, stock, e, Evolve(queue, stock, e))
  {
    var rate := MaxReal(e.capacity, EPS);
    var s := Evolve(queue, stock, e);
    assert (s.queue / rate) * rate == s.queue;
  }

  // ----- The batch

  function Check(b: EdgeBatch, k: nat): Result<EdgeState, EdgeError>
    requires ValidBatch(b) && k < |b.queue|
  {
    if b.queue[k] > b.stock[k] then Err(QueueAboveStock) else Ok(Evolve(b.queue[k], b.stock[k], EdgeAt(b, k)))
  }

  ghost predicate Evolved(b: EdgeBatch, states: seq<EdgeState>, n: nat)
    requires ValidBatch(b) && n <= |b.queue|
  {
    |states| == n && forall k :: 0 <= k < n ==>
      b.queue[k] <= b.stock[k] && states[k] == Evolve(b.queue[k], b.stock[k], EdgeAt(b, k))
  }

  method Sequential(b: EdgeBatch) returns (r: Result<seq<EdgeState>, EdgeError>)
    requires ValidBatch(b)
    ensures r.Ok? <==> forall k :: 0 <= k < |b.queue| ==> b.queue[k] <= b.stock[k]
    ensures r.Err? ==> r.error == QueueAboveStock
    ensures r.Ok? ==> Evolved(b, r.value, |b.queue|)
  {
    var states: seq<EdgeState> := [];
    for k := 0 to |b.queue|
      invariant Evolved(b, states, k)
    {
      if b.queue[k] > b.stock[k] {
        return Err(QueueAboveStock);
      }
      states := states + [Evolve(b.queue[k], b.stock[k], EdgeAt(b, k))];
    }
    return Ok(states);
  }

  /** A map over all edges, collected into one result: an error anywhere is the error of all. */
  function Parallel(b: EdgeBatch): (r: Result<seq<EdgeState>, EdgeError>)
    requires ValidBatch(b)
    ensures r.Ok? <==> forall k :: 0 <= k < |b.queue| ==> b.queue[k] <= b.stock[k]
    ensures r.Err? ==> r.error == QueueAboveStock
    ensures r.Ok? ==> Evolved(b, r.value, |b.queue|)
  {
    var results := seq(|b.queue|, k requires 0 <= k < |b.queue| => Check(b, k));
    assert forall k :: 0 <= k < |results| ==> (results[k].Err? <==> b.queue[k] > b.stock[k]);
    if exists k :: 0 <= k < |results| && results[k].Err? then Err(QueueAboveStock)
    else
      assert forall k :: 0 <= k < |results| ==> !results[k].Err? && b.queue[k] <= b.stock[k];
      Ok(seq(|results|, k requires 0 <= k < |results| && results[k].Ok? => results[k].value))
  }

  /** Whether the batch is long enough for the parallel branch makes no difference. */
  method EvolveEdges(b: EdgeBatch) returns (r: Result<seq<EdgeState>, EdgeError>)
    ensures r.Ok? <==> ValidBatch(b) && forall k :: 0 <= k < |b.queue| ==> b.queue[k] <= b.stock[k]
    ensures !ValidBatch(b) ==> r.Err? && Validate(b) == Err(r.error)
    ensures ValidBatch(b) ==> r == Parallel(b)
    ensures r.Ok? ==> |r.value| == |b.queue|
    ensures r.Ok? ==> forall k :: 0 <= k < |b.queue| ==>
              Discharged(b.queue[k], b.stock[k],
                         EdgeInput(b.inflow[k], b.outflow[k], b.freeFlow[k], b.capacity[k]), r.value[k])
  {
    var check := Validate(b);
    if check.Err? {
      return Err(check.error);
    }
    if |b.queue| >= PARALLEL_THRESHOLD {
      r := Parallel(b);
    } else {
      r := Sequential(b);
      assert r.Ok? ==> r.value == Parallel(b).value;
    }
    if r.Ok? {
      BatchDischarges(b, r.value);
    }
  }

  lemma BatchDischarges(b: EdgeBatch, states: seq<EdgeState>)
    requires ValidBatch(b) && Evolved(b, states, |b.queue|)
    ensures forall k :: 0 <= k < |b.queue| ==>
              Discharged(b.queue[k], b.stock[k],
                         EdgeInput(b.inflow[k], b.outflow[k], b.freeFlow[k], b.capacity[k]), states[k])
  {
    forall k | 0 <= k < |b.queue| ensures Discharged(b.queue[k], b.stock[k], EdgeAt(b, k), states[k]) {
      EvolveDischarges(b.queue[k], b.stock[k], EdgeAt(b, k));
    }
  }

  // ----- Runs

  /** The queue and the stock of one edge after a run. */
  ghost function After(queue: real, stock: real, run: seq<EdgeInput>): EdgeState {
    if run == [] then EdgeState(queue, stock, 0.0)
    else
      var before := After(queue, stock, run[..|run| - 1]);
      Evolve(before.queue, before.stock, run[|run| - 1])
  }

  ghost function TotalInflow(run: seq<EdgeInput>): real {
    if run == [] then 0.0 else TotalInflow(run[..|run| - 1]) + run[|run| - 1].inflow
  }

  ghost function TotalRealised(queue: real, stock: real, run: seq<EdgeInput>): real {
    if run == [] then 0.0
    else TotalRealised(queue, stock, run[..|run| - 1])
         + Realised(After(queue, stock, run[..|run| - 1]).stock, run[|run| - 1])
  }

  /** A sound start stays sound, and the final stock is the initial one plus all that
      flowed in minus all that was realised. */
  lemma {:induction false} RunIsSound(queue: real, stock: real, run: seq<EdgeInput>)
    requires Sound(queue, stock) && forall k :: 0 <= k < |run| ==> ValidEdge(run[k])
    ensures Sound(After(queue, stock, run).queue, After(queue, stock, run).stock)
    ensures After(queue, stock, run).stock == stock + TotalInflow(run) - TotalRealised(queue, stock, run)
  {
    if run != [] {
      var before := After(queue, stock, run[..|run| - 1]);
      RunIsSound(queue, stock, run[..|run| - 1]);
      EvolveKeepsSound(before.queue, before.stock, run[|run| - 1]);
    }
  }

  /** The call on `b` succeeds. */
  ghost predicate Accepted(b: EdgeBatch) {
    ValidBatch(b) && Parallel(b).Ok?
  }

  /** The queues and stocks of `next` are those that the call on `prev` gave. */
  ghost predicate Feeds(prev: EdgeBatch, next: EdgeBatch) {
    Accepted(prev) ==>
      && |next.queue| == |next.stock| == |prev.queue|
      && forall e :: 0 <= e < |next.queue| ==>
           next.queue[e] == Parallel(prev).value[e].queue && next.stock[e] == Parallel(prev).value[e].stock
  }

  ghost predicate FeedsAt(batches: seq<EdgeBatch>, j: nat) {
    var k := j + 1;
    k < |batches| ==> Feeds(batches[j], batches[k])
  }

  /** A series of calls, each on the outcome of the one before, with any inputs. */
  ghost predicate IsBatchRun(batches: seq<EdgeBatch>) {
    && batches != []
    && (forall j :: 0 <= j < |batches| ==> ValidInputs(batches[j]))
    && forall j: nat :: FeedsAt(batches, j)
  }

  /** The calls are accepted, all over the same number of edges. */
  ghost predicate AllAccepted(batches: seq<EdgeBatch>) {
    forall j :: 0 <= j < |batches| ==> Accepted(batches[j]) && |batches[j].queue| == |batches[0].queue|
  }

  lemma FedIsAccepted(prev: EdgeBatch, next: EdgeBatch)
    requires Accepted(prev) && Feeds(prev, next) && ValidInputs(next)
    ensures Accepted(next) && |next.queue| == |prev.queue|
  {
    forall e | 0 <= e < |next.queue| ensures Sound(next.queue[e], next.stock[e]) {
      EvolveKeepsSound(prev.queue[e], prev.stock[e], EdgeAt(prev, e));
    }
  }

  /** After a first call that is accepted no later one is rejected. */
  lemma {:induction false} BatchRunIsAccepted(batches: seq<EdgeBatch>, k: nat)
    requires IsBatchRun(batches) && Accepted(batches[0]) && k < |batches|
    ensures Accepted(batches[k]) && |batches[k].queue| == |batches[0].queue|
    decreases k
  {
    if k > 0 {
      BatchRunIsAccepted(batches, k - 1);
      assert FeedsAt(batches, k - 1);
      FedIsAccepted(batches[k - 1], batches[k]);
    }
  }

  /** What happens at edge `e` in a series of calls. */
  ghost function EdgeRun(batches: seq<EdgeBatch>, e: nat): seq<EdgeInput>
    requires AllAccepted(batches) && (batches == [] || e < |batches[0].queue|)
    ensures |EdgeRun(batches, e)| == |batches|
    ensures forall j :: 0 <= j < |batches| ==> EdgeRun(batches, e)[j] == EdgeAt(batches[j], e)
  {
    seq(|batches|, j requires 0 <= j < |batches| => EdgeAt(batches[j], e))
  }

  lemma PrefixIsRun(batches: seq<EdgeBatch>, k: nat)
    requires IsBatchRun(batches) && AllAccepted(batches) && 0 < k <= |batches|
    ensures IsBatchRun(batches[..k]) && AllAccepted(batches[..k])
  {
    forall j: nat ensures FeedsAt(batches[..k], j) {
      assert FeedsAt(batches, j);
    }
  }

  lemma FedEdge(prev: EdgeBatch, next: EdgeBatch, e: nat)
    requires Accepted(prev) && Accepted(next) && Feeds(prev, next) && e < |prev.queue|
    ensures e < |next.queue|
    ensures var was := Parallel(prev).value[e];
            Parallel(next).value[e] == Evolve(was.queue, was.stock, EdgeAt(next, e))
  {
  }

  lemma EdgeRunPrefix(batches: seq<EdgeBatch>, e: nat, k: nat)
    requires AllAccepted(batches) && 0 < k <= |batches| && AllAccepted(batches[..k]) && e < |batches[0].queue|
    ensures EdgeRun(batches, e)[..k] == EdgeRun(batches[..k], e)
  {
  }

  /** What the calls give for each edge is what the edge comes to on its own. */
  lemma {:induction false} EdgesRunAlone(batches: seq<EdgeBatch>, e: nat)
    requires IsBatchRun(batches) && AllAccepted(batches) && e < |batches[0].queue|
    ensures Parallel(batches[|batches| - 1]).value[e]
         == After(batches[0].queue[e], batches[0].stock[e], EdgeRun(batches, e))
    decreases |batches|
  {
    var k := |batches| - 1;
    if k > 0 {
      PrefixIsRun(batches, k);
      EdgesRunAlone(batches[..k], e);
      EdgeRunPrefix(batches, e, k);
      assert FeedsAt(batches, k - 1);
      FedEdge(batches[k - 1], batches[k], e);
    } else {
      assert EdgeRun(batches, e)[..0] == [];
    }
  }
}
