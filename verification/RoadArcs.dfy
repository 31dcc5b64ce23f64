/** Arcs of a road network, chains of arcs and their cost. Both adjacency structures of the
    routing kernel (incoming and outgoing CSR) are read as sets of arcs. */
module RoadArcs {
  const ROUTING_INF_COST := 1000000000000.0
  const EDGE_COST_FLOOR := 0.000001

  datatype Arc = Arc(tail: nat, link: nat, head: nat)

  /** `arcs` leads from node `u` to node `d`. */
  ghost predicate Chain(u: nat, arcs: seq<Arc>, d: nat)
    decreases |arcs|
  {
    if arcs == [] then u == d else arcs[0].tail == u && Chain(arcs[0].head, arcs[1..], d)
  }

  function Weight(weight: seq<real>, link: nat): real {
    if link < |weight| then weight[link] else 0.0
  }

  ghost function Cost(weight: seq<real>, arcs: seq<Arc>): real {
    if arcs == [] then 0.0 else Weight(weight, arcs[0].link) + Cost(weight, arcs[1..])
  }

  /** The nodes an arc sequence enters, in order. */
  ghost function Heads(arcs: seq<Arc>): seq<nat> {
    seq(|arcs|, i requires 0 <= i < |arcs| => arcs[i].head)
  }

  ghost predicate Distinct<T(!new)>(s: seq<T>) {
    forall i, j :: 0 <= i < j < |s| ==> s[i] != s[j]
  }

  /** All nodes visited by an arc sequence that starts at `u`, in order. */
  ghost function Nodes(u: nat, arcs: seq<Arc>): (nodes: seq<nat>)
    ensures |nodes| == |arcs| + 1
    ensures forall i :: 0 <= i < |nodes| ==> nodes[i] == NodeAfter(u, arcs, i)
  {
    [u] + Heads(arcs)
  }

  /** No node is visited twice by a chain that starts at `u`. */
  ghost predicate NodeSimple(u: nat, arcs: seq<Arc>) {
    Distinct(Nodes(u, arcs))
  }

  lemma NodesAppend(u: nat, arcs: seq<Arc>, a: Arc)
    ensures Nodes(u, arcs + [a]) == Nodes(u, arcs) + [a.head]
  {
  }

  lemma NodesPrefix(u: nat, arcs: seq<Arc>, k: nat)
    requires k <= |arcs|
    ensures Nodes(u, arcs[..k]) == Nodes(u, arcs)[..k + 1]
  {
  }

  lemma PrefixStep(arcs: seq<Arc>, k: nat)
    requires k < |arcs|
    ensures arcs[..k + 1] == arcs[..k] + [arcs[k]]
  {
  }

  /** `link` stands in the adjacency list of `node` of a CSR structure. */
  ghost predicate Listed(indptr: seq<int>, slots: seq<int>, node: nat, link: nat) {
    && node + 1 < |indptr|
    && exists pos ::
      0 <= indptr[node] <= pos < indptr[node + 1] <= |slots| && slots[pos] == link
  }

  /** The index array of a CSR structure with `nodeCount` lists and `slotCount` entries. */
  predicate CsrIndex(indptr: seq<int>, nodeCount: nat, slotCount: nat) {
    && |indptr| == nodeCount + 1
    && indptr[0] == 0
    && NonDecreasing(indptr)
    && indptr[nodeCount] == slotCount
  }

  /** The source compares neighbours only, which amounts to the same. */
  predicate NonDecreasing(values: seq<int>) {
    forall i, j :: 0 <= i <= j < |values| ==> values[i] <= values[j]
  }

  lemma {:induction false} ChainAppend(u: nat, arcs: seq<Arc>, m: nat, a: Arc)
    requires Chain(u, arcs, m) && a.tail == m
    ensures Chain(u, arcs + [a], a.head)
    decreases |arcs|
  {
    if arcs == [] {
      assert (arcs + [a])[1..] == [];
    } else {
      assert (arcs + [a])[1..] == arcs[1..] + [a];
      ChainAppend(arcs[0].head, arcs[1..], m, a);
    }
  }

  lemma {:induction false} CostConcat(weight: seq<real>, left: seq<Arc>, right: seq<Arc>)
    ensures Cost(weight, left + right) == Cost(weight, left) + Cost(weight, right)
  {
    if left == [] {
      assert left + right == right;
    } else {
      assert (left + right)[1..] == left[1..] + right;
      CostConcat(weight, left[1..], right);
    }
  }

  lemma CostAppend(weight: seq<real>, arcs: seq<Arc>, a: Arc)
    ensures Cost(weight, arcs + [a]) == Cost(weight, arcs) + Weight(weight, a.link)
  {
    CostConcat(weight, arcs, [a]);
    assert Cost(weight, [a]) == Weight(weight, a.link) + Cost(weight, [a][1..]);
  }

  /** Where a chain stands after its first `k` arcs. */
  ghost function NodeAfter(u: nat, arcs: seq<Arc>, k: nat): nat
    requires k <= |arcs|
  {
    if k == 0 then u else arcs[k - 1].head
  }

  lemma {:induction false} ChainSplit(u: nat, arcs: seq<Arc>, d: nat, k: nat)
    requires Chain(u, arcs, d) && k <= |arcs|
    ensures Chain(u, arcs[..k], NodeAfter(u, arcs, k))
    ensures Chain(NodeAfter(u, arcs, k), arcs[k..], d)
    ensures k < |arcs| ==> arcs[k].tail == NodeAfter(u, arcs, k)
    decreases k
  {
    if k == 0 {
      assert arcs[..0] == [] && arcs[0..] == arcs;
    } else {
      ChainSplit(arcs[0].head, arcs[1..], d, k - 1);
      assert arcs[..k][1..] == arcs[1..][..k - 1];
      assert arcs[1..][k - 1..] == arcs[k..];
    }
  }

  lemma ChainEnd(u: nat, arcs: seq<Arc>, d: nat)
    requires Chain(u, arcs, d)
    ensures NodeAfter(u, arcs, |arcs|) == d
  {
    ChainSplit(u, arcs, d, |arcs|);
    assert arcs[|arcs|..] == [];
  }
}
