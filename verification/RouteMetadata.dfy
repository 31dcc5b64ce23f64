/** Cost and path-size factor of every candidate path. */
module RouteMetadata {
  import opened Results
  import opened RoadArcs

  const LENGTH_FLOOR := 0.000001
  const FACTOR_FLOOR := 0.000000000001

  datatype MetadataError =
    | LengthCount | CostCount | NegativeLength | NegativeCost | DuplicateLinkId | UnknownLinkId

  ghost predicate ValidLinks(linkIds: seq<int>, length: seq<real>, cost: seq<real>) {
    && |length| == |cost| == |linkIds|
    && NonNegative(length) && NonNegative(cost)
    && Distinct(linkIds)
  }

  ghost predicate Within(path: seq<int>, ids: set<int>) {
    forall k :: 0 <= k < |path| ==> path[k] in ids
  }

  /** Every link of every candidate is one of `ids`. */
  ghost predicate KnownPaths(ids: set<int>, paths: seq<seq<int>>) {
    forall p :: 0 <= p < |paths| ==> Within(paths[p], ids)
  }

  ghost function Elements(ids: seq<int>): set<int> {
    set id | id in ids
  }

  // ----- Sums over ids

  /** A quantity per link id. */
  type PerLink = map<int, real>

  function At(w: PerLink, id: int): real {
    if id in w then w[id] else 0.0
  }

  ghost function Sum(w: PerLink, ids: seq<int>): real {
    if ids == [] then 0.0 else At(w, ids[0]) + Sum(w, ids[1..])
  }

  ghost function Count(ids: seq<int>, id: int): nat {
    if ids == [] then 0 else (if ids[0] == id then 1 else 0) + Count(ids[1..], id)
  }

  ghost function Flatten(paths: seq<seq<int>>): seq<int> {
    if paths == [] then [] else paths[0] + Flatten(paths[1..])
  }

  /** How often the candidates use a link, all together. */
  ghost function Usage(paths: seq<seq<int>>, id: int): nat {
    Count(Flatten(paths), id)
  }

  lemma {:induction false} SumConcat(w: PerLink, a: seq<int>, b: seq<int>)
    ensures Sum(w, a + b) == Sum(w, a) + Sum(w, b)
  {
    if a == [] {
      assert a + b == b;
    } else {
      assert (a + b)[1..] == a[1..] + b;
      SumConcat(w, a[1..], b);
    }
  }

  lemma {:induction false} CountConcat(a: seq<int>, b: seq<int>, id: int)
    ensures Count(a + b, id) == Count(a, id) + Count(b, id)
  {
    if a == [] {
      assert a + b == b;
    } else {
      assert (a + b)[1..] == a[1..] + b;
      CountConcat(a[1..], b, id);
    }
  }

  lemma {:induction false} CountPositive(ids: seq<int>, id: int)
    ensures Count(ids, id) > 0 <==> id in ids
  {
    if ids != [] {
      CountPositive(ids[1..], id);
    }
  }

  lemma {:induction false} FlattenAppend(paths: seq<seq<int>>, p: seq<int>)
    ensures Flatten(paths + [p]) == Flatten(paths) + p
  {
    if paths == [] {
      assert Flatten([p]) == p + Flatten([p][1..]);
    } else {
      assert (paths + [p])[1..] == paths[1..] + [p];
      FlattenAppend(paths[1..], p);
    }
  }

  lemma {:induction false} InFlatten(paths: seq<seq<int>>, p: seq<int>, id: int)
    requires p in paths && id in p
    ensures id in Flatten(paths)
  {
    if p != paths[0] {
      InFlatten(paths[1..], p, id);
    }
  }

  lemma {:induction false} FlattenKnown(linkIds: seq<int>, paths: seq<seq<int>>)
    requires KnownPaths(Elements(linkIds), paths)
    ensures forall id :: id in Flatten(paths) ==> id in linkIds
  {
    if paths != [] {
      assert Within(paths[0], Elements(linkIds));
      FlattenKnown(linkIds, paths[1..]);
    }
  }

  /** `w` gives link `i` the value at position `i`. */
  ghost predicate Keyed(w: PerLink, linkIds: seq<int>, values: seq<real>) {
    |values| == |linkIds| && forall i :: 0 <= i < |linkIds| ==> linkIds[i] in w && w[linkIds[i]] == values[i]
  }

  /** A value per link position, keyed by the link's id. */
  ghost function ById(linkIds: seq<int>, values: seq<real>): (w: PerLink)
    requires Distinct(linkIds) && |values| == |linkIds|
    ensures Keyed(w, linkIds, values)
    ensures forall id :: id in w <==> id in linkIds
  {
    map i | 0 <= i < |linkIds| :: linkIds[i] := values[i]
  }

  function FlooredLengths(length: seq<real>): (r: seq<real>)
    ensures |r| == |length| && forall i :: 0 <= i < |r| ==> r[i] == MaxReal(length[i], LENGTH_FLOOR)
  {
    seq(|length|, i requires 0 <= i < |length| => MaxReal(length[i], LENGTH_FLOOR))
  }

  /** Each link's length divided among the candidates that use it. */
  ghost function Shares(w: PerLink, paths: seq<seq<int>>): PerLink {
    map id | id in w :: w[id] / (if Usage(paths, id) > 0 then Usage(paths, id) as real else 1.0)
  }

  /** The factor before it is kept away from zero: the share of the path's length that is its own. */
  ghost function RawFactor(w: PerLink, paths: seq<seq<int>>, path: seq<int>): real {
    if Sum(w, path) <= 0.0 then 1.0 else Sum(Shares(w, paths), path) / Sum(w, path)
  }

  ghost function Factor(w: PerLink, paths: seq<seq<int>>, path: seq<int>): real {
    if Sum(w, path) <= 0.0 then 1.0 else MaxReal(RawFactor(w, paths, path), FACTOR_FLOOR)
  }

  // ----- Bounds on one factor

  ghost predicate Positive(w: PerLink) {
    forall id :: id in w ==> w[id] > 0.0
  }

  lemma {:induction false} SumPositive(w: PerLink, ids: seq<int>)
    requires Positive(w) && forall id :: id in ids ==> id in w
    ensures Sum(w, ids) >= 0.0 && (Sum(w, ids) == 0.0 <==> ids == [])
  {
    if ids != [] {
      SumPositive(w, ids[1..]);
    }
  }

  ghost predicate Between(part: real, total: real, most: real) {
    part <= total <= most * part
  }

  lemma {:induction false} ShareBounds(w: PerLink, s: PerLink, ids: seq<int>, most: real)
    requires forall id :: id in ids ==> FairShare(w, s, id, most)
    ensures Between(Sum(s, ids), Sum(w, ids), most)
  {
    if ids != [] {
      assert FairShare(w, s, ids[0], most);
      ShareBounds(w, s, ids[1..], most);
    }
  }

  lemma Scale(x: real, a: real, b: real)
    requires x > 0.0
    ensures a <= b <==> x * a <= x * b
  {
    if a <= b {
      assert x * (b - a) >= 0.0;
    } else {
      assert x * (a - b) > 0.0;
    }
  }

  lemma DivideByUsage(length: real, usage: nat, most: real)
    requires length > 0.0 && 0.0 < usage as real <= most
    ensures 0.0 < length / usage as real <= length <= most * (length / usage as real)
  {
    var share, u := length / usage as real, usage as real;
    assert share * u == length;
    assert usage >= 1 && u >= 1.0;
    Scale(share, 1.0, u);
    Scale(share, u, most);
  }

  /** The share of `id` is at most its length and at least 1/most of it. */
  ghost predicate FairShare(w: PerLink, s: PerLink, id: int, most: real) {
    id in w && id in s && s[id] <= w[id] <= most * s[id]
  }

  lemma ShareOfLink(w: PerLink, paths: seq<seq<int>>, path: seq<int>, id: int, most: real)
    requires Positive(w) && path in paths && id in path && id in w
    requires Usage(paths, id) as real <= most
    ensures FairShare(w, Shares(w, paths), id, most) && most >= 1.0
  {
    InFlatten(paths, path, id);
    CountPositive(Flatten(paths), id);
    DivideByUsage(w[id], Usage(paths, id), most);
  }

  /** A factor lies in (0, 1], and is at least 1/most when no link of the path is used more than
      `most` times; the floor is then inactive if `most` is at most 1e12. */
  lemma FactorBounds(w: PerLink, paths: seq<seq<int>>, path: seq<int>, most: real)
    requires Positive(w) && path in paths && path != []
    requires forall id :: id in path ==> id in w && Usage(paths, id) as real <= most
    ensures most >= 1.0 && 1.0 / most <= RawFactor(w, paths, path) <= 1.0
    ensures 0.0 < Factor(w, paths, path) <= 1.0
    ensures most <= 1000000000000.0 ==>
              Unlifted(w, paths, path) && Factor(w, paths, path) == RawFactor(w, paths, path)
  {
    forall id | id in path ensures FairShare(w, Shares(w, paths), id, most) && most >= 1.0 {
      ShareOfLink(w, paths, path, id, most);
    }
    assert path[0] in path;
    ShareBounds(w, Shares(w, paths), path, most);
    SumPositive(w, path);
    RatioBounds(Sum(Shares(w, paths), path), Sum(w, path), most);
  }

  lemma RatioBounds(part: real, total: real, most: real)
    requires total > 0.0 && most >= 1.0 && Between(part, total, most)
    ensures 1.0 / most <= part / total <= 1.0
    ensures part / total > 0.0
    ensures most <= 1000000000000.0 ==> part / total >= FACTOR_FLOOR
  {
    var ratio := part / total;
    assert total * ratio == part;
    Scale(total, ratio, 1.0);
    assert ratio <= 1.0;
    var inverse := 1.0 / most;
    assert most * inverse == 1.0;
    assert total * (most * ratio) == most * part;
    Scale(total, 1.0, most * ratio);
    assert 1.0 <= most * ratio;
    Scale(most, inverse, ratio);
    assert inverse <= ratio;
    if most <= 1000000000000.0 {
      Scale(ratio, most, 1000000000000.0);
    }
  }

  /** With N candidates, none repeating a link, every factor is at least 1/N. */
  lemma FactorAtLeastOneOverN(w: PerLink, paths: seq<seq<int>>, path: seq<int>)
    requires Positive(w) && path in paths && path != []
    requires forall p :: p in paths ==> Distinct(p)
    requires forall id :: id in path ==> id in w
    ensures 1.0 / |paths| as real <= RawFactor(w, paths, path) <= Factor(w, paths, path)
  {
    forall id | id in path ensures Usage(paths, id) <= |paths| {
      UsageAtMostOnePerPath(paths, id);
    }
    SumPositive(w, path);
    FactorBounds(w, paths, path, |paths| as real);
  }

  lemma {:induction false} UsageAtMostOnePerPath(paths: seq<seq<int>>, id: int)
    requires forall p :: p in paths ==> Distinct(p)
    ensures Usage(paths, id) <= |paths|
  {
    if paths != [] {
      assert paths[0] in paths;
      CountDistinct(paths[0], id);
      CountConcat(paths[0], Flatten(paths[1..]), id);
      UsageAtMostOnePerPath(paths[1..], id);
    }
  }

  lemma {:induction false} CountDistinct(ids: seq<int>, id: int)
    requires Distinct(ids)
    ensures Count(ids, id) <= 1
  {
    if ids != [] {
      CountDistinct(ids[1..], id);
      CountPositive(ids[1..], id);
    }
  }

  // ----- Conservation of length

  /** The length of the links used at least once, each counted once. */
  ghost function DistinctLength(w: PerLink, paths: seq<seq<int>>, linkIds: seq<int>): real {
    if linkIds == [] then 0.0
    else (if Usage(paths, linkIds[0]) > 0 then At(w, linkIds[0]) else 0.0)
         + DistinctLength(w, paths, linkIds[1..])
  }

  ghost function CountedSum(g: PerLink, ids: seq<int>, linkIds: seq<int>): real {
    if linkIds == [] then 0.0
    else Count(ids, linkIds[0]) as real * At(g, linkIds[0]) + CountedSum(g, ids, linkIds[1..])
  }

  lemma {:induction false} CountedSumStep(g: PerLink, ids: seq<int>, linkIds: seq<int>)
    requires ids != [] && Distinct(linkIds)
    ensures CountedSum(g, ids, linkIds)
         == CountedSum(g, ids[1..], linkIds) + if ids[0] in linkIds then At(g, ids[0]) else 0.0
  {
    if linkIds != [] {
      CountedSumStep(g, ids, linkIds[1..]);
      if ids[0] == linkIds[0] {
        assert Count(ids, linkIds[0]) == 1 + Count(ids[1..], linkIds[0]);
      }
    }
  }

  lemma {:induction false} SumByLink(g: PerLink, ids: seq<int>, linkIds: seq<int>)
    requires Distinct(linkIds) && forall id :: id in ids ==> id in linkIds
    ensures Sum(g, ids) == CountedSum(g, ids, linkIds)
  {
    if ids == [] {
      CountedSumEmpty(g, linkIds);
    } else {
      SumByLink(g, ids[1..], linkIds);
      CountedSumStep(g, ids, linkIds);
    }
  }

  lemma {:induction false} CountedSumEmpty(g: PerLink, linkIds: seq<int>)
    ensures CountedSum(g, [], linkIds) == 0.0
  {
    if linkIds != [] {
      CountedSumEmpty(g, linkIds[1..]);
    }
  }

  lemma {:induction false} SharesCountOnce(w: PerLink, paths: seq<seq<int>>, linkIds: seq<int>)
    requires forall id :: id in linkIds ==> id in w
    ensures CountedSum(Shares(w, paths), Flatten(paths), linkIds) == DistinctLength(w, paths, linkIds)
  {
    if linkIds != [] {
      SharesCountOnce(w, paths, linkIds[1..]);
      var id := linkIds[0];
      if Usage(paths, id) > 0 {
        var share := w[id] / Usage(paths, id) as real;
        assert Usage(paths, id) as real * share == w[id];
      }
    }
  }

  /** The length of `p` weighted by its factor. */
  ghost function OwnLength(w: PerLink, paths: seq<seq<int>>, p: seq<int>): real {
    Sum(w, p) * Factor(w, paths, p)
  }

  ghost function OwnLengths(w: PerLink, paths: seq<seq<int>>): map<seq<int>, real> {
    map p | p in paths :: OwnLength(w, paths, p)
  }

  ghost function Total(own: map<seq<int>, real>, paths: seq<seq<int>>): real {
    if paths == [] then 0.0
    else (if paths[0] in own then own[paths[0]] else 0.0) + Total(own, paths[1..])
  }

  /** The floor on factors leaves the factor of `p` as it is. */
  ghost predicate Unlifted(w: PerLink, all: seq<seq<int>>, p: seq<int>) {
    p == [] || RawFactor(w, all, p) >= FACTOR_FLOOR
  }

  ghost predicate FloorInactive(w: PerLink, paths: seq<seq<int>>) {
    forall p :: p in paths ==> Unlifted(w, paths, p)
  }

  lemma LiftedProduct(total: real, part: real)
    requires total > 0.0
    ensures total * MaxReal(part / total, FACTOR_FLOOR) >= part
    ensures total * MaxReal(part / total, FACTOR_FLOOR) == part <==> part / total >= FACTOR_FLOOR
  {
    var raw := part / total;
    assert total * raw == part;
    Scale(total, raw, FACTOR_FLOOR);
    Scale(total, FACTOR_FLOOR, raw);
  }

  /** The excess of one path's weighted length over its shares comes from the floor alone. */
  lemma PathAgainstShares(w: PerLink, all: seq<seq<int>>, p: seq<int>)
    requires Positive(w) && forall id :: id in p ==> id in w
    ensures OwnLength(w, all, p) >= Sum(Shares(w, all), p)
    ensures OwnLength(w, all, p) == Sum(Shares(w, all), p) <==> Unlifted(w, all, p)
  {
    SumPositive(w, p);
    if p != [] {
      LiftedProduct(Sum(w, p), Sum(Shares(w, all), p));
    }
  }

  /** The own length of `p` is no less than its shares, and the same exactly if `p` is in `exact`. */
  ghost predicate Outweighs(own: map<seq<int>, real>, s: PerLink, exact: set<seq<int>>, p: seq<int>) {
    p in own && own[p] >= Sum(s, p) && (own[p] == Sum(s, p) <==> p in exact)
  }

  lemma {:induction false} TotalAgainstShares(own: map<seq<int>, real>, s: PerLink, paths: seq<seq<int>>,
                                              exact: set<seq<int>>)
    requires forall p :: p in paths ==> Outweighs(own, s, exact, p)
    ensures Total(own, paths) >= Sum(s, Flatten(paths))
    ensures Total(own, paths) == Sum(s, Flatten(paths)) <==> forall p :: p in paths ==> p in exact
  {
    if paths != [] {
      var p, rest := paths[0], paths[1..];
      assert p in paths && forall q :: q in paths <==> q == p || q in rest;
      TotalAgainstShares(own, s, rest, exact);
      SumConcat(s, p, Flatten(rest));
    }
  }

  ghost function Exact(w: PerLink, paths: seq<seq<int>>): set<seq<int>> {
    set p | p in paths && Unlifted(w, paths, p)
  }

  lemma OwnLengthOutweighs(w: PerLink, paths: seq<seq<int>>, p: seq<int>)
    requires Positive(w) && p in paths && forall id :: id in p ==> id in w
    ensures Outweighs(OwnLengths(w, paths), Shares(w, paths), Exact(w, paths), p)
  {
    PathAgainstShares(w, paths, p);
    assert OwnLengths(w, paths)[p] == OwnLength(w, paths, p);
  }

  /** No link is used more than 1e12 times. */
  ghost predicate ModestUsage(paths: seq<seq<int>>, linkIds: seq<int>) {
    forall id :: id in linkIds ==> Usage(paths, id) <= 1000000000000
  }

  lemma ModestUsageNeedsNoFloor(w: PerLink, paths: seq<seq<int>>, linkIds: seq<int>)
    requires Positive(w) && (forall id :: id in linkIds ==> id in w)
    requires KnownPaths(Elements(linkIds), paths) && ModestUsage(paths, linkIds)
    ensures FloorInactive(w, paths)
  {
    forall p | p in paths ensures Unlifted(w, paths, p) {
      if p != [] {
        FactorBounds(w, paths, p, 1000000000000.0);
      }
    }
  }

  /** The factors share out the length of the used links: nothing is lost, and the weighted total
      exceeds it exactly when the floor lifts some factor, which takes a link used over 1e12
      times. */
  lemma FactorsConserveLength(w: PerLink, paths: seq<seq<int>>, linkIds: seq<int>)
    requires Positive(w) && Distinct(linkIds) && (forall id :: id in linkIds ==> id in w)
    requires KnownPaths(Elements(linkIds), paths)
    ensures Total(OwnLengths(w, paths), paths) >= DistinctLength(w, paths, linkIds)
    ensures Total(OwnLengths(w, paths), paths) == DistinctLength(w, paths, linkIds)
       <==> FloorInactive(w, paths)
    ensures ModestUsage(paths, linkIds) ==> FloorInactive(w, paths)
  {
    forall p | p in paths ensures Outweighs(OwnLengths(w, paths), Shares(w, paths), Exact(w, paths), p) {
      OwnLengthOutweighs(w, paths, p);
    }
    TotalAgainstShares(OwnLengths(w, paths), Shares(w, paths), paths, Exact(w, paths));
    FlattenKnown(linkIds, paths);
    SumByLink(Shares(w, paths), Flatten(paths), linkIds);
    SharesCountOnce(w, paths, linkIds);
    if ModestUsage(paths, linkIds) {
      ModestUsageNeedsNoFloor(w, paths, linkIds);
    }
  }

  /** The same for the lengths the computation uses: the length floor makes every one positive. */
  lemma CandidatesConserveLength(linkIds: seq<int>, length: seq<real>, paths: seq<seq<int>>)
    requires |length| == |linkIds| && Distinct(linkIds) && KnownPaths(Elements(linkIds), paths)
    ensures var w := ById(linkIds, FlooredLengths(length));
            var total := Total(OwnLengths(w, paths), paths);
            var used := DistinctLength(w, paths, linkIds);
            && total >= used
            && (total == used <==> FloorInactive(w, paths))
            && (ModestUsage(paths, linkIds) ==> total == used)
  {
    var w := ById(linkIds, FlooredLengths(length));
    forall id | id in w ensures w[id] > 0.0 {
      var i :| 0 <= i < |linkIds| && linkIds[i] == id;
      assert w[linkIds[i]] == FlooredLengths(length)[i];
    }
    FactorsConserveLength(w, paths, linkIds);
  }

  // ----- The computation

  lemma SumPrefix(w: PerLink, ids: seq<int>, k: nat)
    requires k < |ids|
    ensures Sum(w, ids[..k + 1]) == Sum(w, ids[..k]) + At(w, ids[k])
  {
    assert ids[..k + 1] == ids[..k] + [ids[k]];
    SumConcat(w, ids[..k], [ids[k]]);
    assert Sum(w, [ids[k]]) == At(w, ids[k]) + Sum(w, [ids[k]][1..]);
  }

  lemma CountAppend(ids: seq<int>, x: int, id: int)
    ensures Count(ids + [x], id) == Count(ids, id) + if x == id then 1 else 0
  {
    CountConcat(ids, [x], id);
    assert Count([x], id) == (if x == id then 1 else 0) + Count([x][1..], id);
  }

  ghost predicate IndexOf(linkIds: seq<int>, index: map<int, nat>) {
    && index.Keys == Elements(linkIds)
    && (forall id :: id in index.Keys ==> index[id] < |linkIds| && linkIds[index[id]] == id)
  }

  method BuildIndex(linkIds: seq<int>) returns (r: Result<map<int, nat>, MetadataError>)
    ensures r.Ok? <==> Distinct(linkIds)
    ensures r.Err? ==> r.error == DuplicateLinkId
    ensures r.Ok? ==> IndexOf(linkIds, r.value)
  {
    var index: map<int, nat> := map[];
    for i := 0 to |linkIds|
      invariant Distinct(linkIds[..i]) && IndexOf(linkIds[..i], index)
    {
      assert linkIds[..i + 1] == linkIds[..i] + [linkIds[i]];
      assert Elements(linkIds[..i + 1]) == Elements(linkIds[..i]) + {linkIds[i]};
      if linkIds[i] in index {
        assert linkIds[index[linkIds[i]]] == linkIds[i];
        return Err(DuplicateLinkId);
      }
      index := index[linkIds[i] := i];
    }
    assert linkIds[..|linkIds|] == linkIds;
    return Ok(index);
  }

  ghost predicate Counts(usage: map<int, nat>, ids: seq<int>) {
    forall id :: (id in usage <==> Count(ids, id) > 0) && (id in usage ==> usage[id] == Count(ids, id))
  }

  lemma CountsStep(usage: map<int, nat>, ids: seq<int>, id: int)
    requires Counts(usage, ids)
    ensures Counts(usage[id := if id in usage then usage[id] + 1 else 1], ids + [id])
  {
    forall x ensures Count(ids + [id], x) == Count(ids, x) + if x == id then 1 else 0 {
      CountAppend(ids, id, x);
    }
  }

  /** The inner loop: the links of one path are added to the counts of the ids `before` it. */
  method CountPath(index: map<int, nat>, counts: map<int, nat>, path: seq<int>, ghost before: seq<int>)
    returns (r: Result<map<int, nat>, MetadataError>)
    requires Counts(counts, before)
    ensures r.Ok? <==> Within(path, index.Keys)
    ensures r.Err? ==> r.error == UnknownLinkId
    ensures r.Ok? ==> Counts(r.value, before + path)
  {
    var usage := counts;
    ghost var ids := before;
    for k := 0 to |path|
      invariant Counts(usage, ids) && ids == before + path[..k]
      invariant forall j :: 0 <= j < k ==> path[j] in index.Keys
    {
      var id := path[k];
      if id !in index {
        return Err(UnknownLinkId);
      }
      CountsStep(usage, ids, id);
      usage := usage[id := if id in usage then usage[id] + 1 else 1];
      ids := ids + [id];
    }
    assert path[..|path|] == path;
    return Ok(usage);
  }

  method CountUsage(index: map<int, nat>, paths: seq<seq<int>>) returns (r: Result<map<int, nat>, MetadataError>)
    ensures r.Ok? <==> KnownPaths(index.Keys, paths)
    ensures r.Err? ==> r.error == UnknownLinkId
    ensures r.Ok? ==> Counts(r.value, Flatten(paths))
  {
    var usage: map<int, nat> := map[];
    ghost var ids := [];
    for p := 0 to |paths|
      invariant Counts(usage, ids) && ids == Flatten(paths[..p])
      invariant forall q :: 0 <= q < p ==> Within(paths[q], index.Keys)
    {
      var counted := CountPath(index, usage, paths[p], ids);
      if counted.Err? {
        return counted;
      }
      assert paths[..p + 1] == paths[..p] + [paths[p]];
      FlattenAppend(paths[..p], paths[p]);
      usage, ids := counted.value, ids + paths[p];
    }
    assert paths[..|paths|] == paths;
    return Ok(usage);
  }

  ghost predicate IsRatio(ratio: real, part: real, total: real) {
    total > 0.0 && ratio * total == part
  }

  /** What the source adds to a factor for one link. */
  function LinkTerm(length: real, total: real, usage: nat): real
    requires total > 0.0
  {
    (length / total) * (1.0 / MaxReal(usage as real, 1.0))
  }

  /** The source divides by the total first and by the usage second; the order is immaterial. */
  lemma RatioStep(ratio: real, part: real, total: real, length: real, usage: nat)
    requires IsRatio(ratio, part, total) && usage > 0
    ensures IsRatio(ratio + LinkTerm(length, total, usage), part + length / usage as real, total)
  {
    var u := usage as real;
    var x, y, inverse := length / total, length / u, 1.0 / u;
    assert x * total == length && y * u == length && inverse * u == 1.0;
    var step := x * inverse;
    assert (step * total) * u == (x * total) * (inverse * u);
    assert (step * total) * u == y * u;
    Scale(u, step * total, y);
    Scale(u, y, step * total);
    assert (ratio + step) * total == ratio * total + step * total;
  }

  /** The links' cost, their floored lengths and the total length of one path. */
  method PathTotals(linkIds: seq<int>, length: seq<real>, cost: seq<real>, index: map<int, nat>,
                    path: seq<int>, ghost w: PerLink, ghost c: PerLink)
    returns (pathCost: real, lengths: seq<real>, total: real)
    requires |length| == |cost| == |linkIds| && IndexOf(linkIds, index)
    requires Keyed(w, linkIds, FlooredLengths(length)) && Keyed(c, linkIds, cost)
    requires Within(path, index.Keys)
    ensures pathCost == Sum(c, path) && total == Sum(w, path)
    ensures |lengths| == |path| && forall j :: 0 <= j < |path| ==> lengths[j] == At(w, path[j])
  {
    lengths, total, pathCost := [], 0.0, 0.0;
    for k := 0 to |path|
      invariant pathCost == Sum(c, path[..k]) && total == Sum(w, path[..k])
      invariant |lengths| == k && forall j :: 0 <= j < k ==> lengths[j] == At(w, path[j])
    {
      var link := index[path[k]];
      assert path[k] in index.Keys && link < |linkIds| && linkIds[link] == path[k];
      pathCost := pathCost + cost[link];
      lengths := lengths + [MaxReal(length[link], LENGTH_FLOOR)];
      total := total + lengths[k];
      SumPrefix(c, path, k);
      SumPrefix(w, path, k);
    }
    assert path[..|path|] == path;
  }

  lemma ShareAt(w: PerLink, paths: seq<seq<int>>, path: seq<int>, id: int)
    requires path in paths && id in path
    ensures Usage(paths, id) > 0
    ensures At(Shares(w, paths), id) == At(w, id) / Usage(paths, id) as real
  {
    InFlatten(paths, path, id);
    CountPositive(Flatten(paths), id);
  }

  ghost function Accrued(w: PerLink, paths: seq<seq<int>>, path: seq<int>, total: real, k: nat): real
    requires k <= |path| && total > 0.0
  {
    if k == 0 then 0.0
    else Accrued(w, paths, path, total, k - 1) + LinkTerm(At(w, path[k - 1]), total, Usage(paths, path[k - 1]))
  }

  lemma {:induction false} AccruedIsRatio(w: PerLink, paths: seq<seq<int>>, path: seq<int>, total: real, k: nat)
    requires k <= |path| && path in paths && total > 0.0
    ensures IsRatio(Accrued(w, paths, path, total, k), Sum(Shares(w, paths), path[..k]), total)
  {
    if k > 0 {
      AccruedIsRatio(w, paths, path, total, k - 1);
      AccrueOne(w, paths, path, total, k - 1, Accrued(w, paths, path, total, k - 1),
                Sum(Shares(w, paths), path[..k - 1]));
    }
  }

  lemma AccrueOne(w: PerLink, paths: seq<seq<int>>, path: seq<int>, total: real, k: nat,
                  ratio: real, part: real)
    requires k < |path| && path in paths && IsRatio(ratio, part, total)
    requires ratio == Accrued(w, paths, path, total, k) && part == Sum(Shares(w, paths), path[..k])
    ensures IsRatio(Accrued(w, paths, path, total, k + 1), Sum(Shares(w, paths), path[..k + 1]), total)
  {
    var length, usage := At(w, path[k]), Usage(paths, path[k]);
    ShareAt(w, paths, path, path[k]);
    SumPrefix(Shares(w, paths), path, k);
    RatioStep(ratio, part, total, length, usage);
    assert Accrued(w, paths, path, total, k + 1) == ratio + LinkTerm(length, total, usage);
    assert Sum(Shares(w, paths), path[..k + 1]) == part + length / usage as real;
  }

  lemma RatioIsQuotient(ratio: real, part: real, total: real)
    requires IsRatio(ratio, part, total)
    ensures ratio == part / total
  {
  }

  lemma AccruedIsFactor(w: PerLink, paths: seq<seq<int>>, path: seq<int>, total: real)
    requires path in paths && total == Sum(w, path) && total > 0.0
    ensures MaxReal(Accrued(w, paths, path, total, |path|), FACTOR_FLOOR) == Factor(w, paths, path)
  {
    AccruedIsRatio(w, paths, path, total, |path|);
    RatioIsQuotient(Accrued(w, paths, path, total, |path|), Sum(Shares(w, paths), path[..|path|]), total);
    assert path[..|path|] == path;
  }

  /** The factor of a path of positive length, accumulated link by link. */
  method PathFactor(lengths: seq<real>, total: real, usage: map<int, nat>, path: seq<int>,
                    ghost w: PerLink, ghost paths: seq<seq<int>>)
    returns (factor: real)
    requires Counts(usage, Flatten(paths)) && path in paths
    requires |lengths| == |path| && forall j :: 0 <= j < |path| ==> lengths[j] == At(w, path[j])
    requires total == Sum(w, path) && total > 0.0
    ensures factor == Factor(w, paths, path)
  {
    factor := 0.0;
    for k := 0 to |path|
      invariant factor == Accrued(w, paths, path, total, k)
    {
      ShareAt(w, paths, path, path[k]);
      factor := factor + LinkTerm(lengths[k], total, usage[path[k]]);
    }
    AccruedIsFactor(w, paths, path, total);
    factor := MaxReal(factor, FACTOR_FLOOR);
  }

  method PathMetadata(linkIds: seq<int>, length: seq<real>, cost: seq<real>, index: map<int, nat>,
                      usage: map<int, nat>, path: seq<int>, ghost paths: seq<seq<int>>,
                      ghost w: PerLink, ghost c: PerLink)
    returns (pathCost: real, factor: real)
    requires |length| == |cost| == |linkIds| && IndexOf(linkIds, index)
    requires Keyed(w, linkIds, FlooredLengths(length)) && Keyed(c, linkIds, cost)
    requires Counts(usage, Flatten(paths)) && path in paths
    requires Within(path, index.Keys)
    ensures Described(pathCost, factor, paths, path, w, c)
  {
    var lengths: seq<real>, total: real;
    pathCost, lengths, total := PathTotals(linkIds, length, cost, index, path, w, c);
    factor := 1.0;
    if total > 0.0 {
      factor := PathFactor(lengths, total, usage, path, w, paths);
    }
  }

  ghost function FirstError(linkIds: seq<int>, length: seq<real>, cost: seq<real>): MetadataError {
    if |length| != |linkIds| then LengthCount
    else if |cost| != |linkIds| then CostCount
    else if !NonNegative(length) then NegativeLength
    else if !NonNegative(cost) then NegativeCost
    else if !Distinct(linkIds) then DuplicateLinkId
    else UnknownLinkId
  }

  ghost predicate Described(cost: real, factor: real, paths: seq<seq<int>>, path: seq<int>,
                            w: PerLink, c: PerLink)
  {
    cost == Sum(c, path) && factor == Factor(w, paths, path)
  }

  /** The two result vectors hold the cost and the factor of the first `n` paths. */
  ghost predicate Describes(costs: seq<real>, factors: seq<real>, paths: seq<seq<int>>, n: nat,
                            w: PerLink, c: PerLink)
    requires n <= |paths|
  {
    && |costs| == |factors| == n
    && forall p :: 0 <= p < n ==> Described(costs[p], factors[p], paths, paths[p], w, c)
  }

  // ----- The two figures in numbers

  /** Every link's length, taken as at least 1e-6. */
  ghost predicate LengthsById(w: PerLink, linkIds: seq<int>, length: seq<real>) {
    && |length| == |linkIds|
    && forall i :: 0 <= i < |linkIds| ==>
         linkIds[i] in w && w[linkIds[i]] == if length[i] > 0.000001 then length[i] else 0.000001
  }

  /** `s` divides each length equally among all uses of the link. */
  ghost predicate EqualParts(s: PerLink, w: PerLink, paths: seq<seq<int>>, path: seq<int>) {
    forall id :: id in path ==> id in w && id in s && s[id] * Usage(paths, id) as real == w[id]
  }

  /** The part of the path's length that is its own, but at least 1e-12; 1 for the empty path. */
  ghost predicate IsFactor(factor: real, w: PerLink, paths: seq<seq<int>>, path: seq<int>) {
    if path == [] then factor == 1.0
    else exists s :: EqualParts(s, w, paths, path) && OwnPart(factor, Sum(s, path), Sum(w, path))
  }

  ghost predicate OwnPart(factor: real, part: real, total: real) {
    && total > 0.0 && factor >= 0.000000000001
    && (factor * total == part || (factor == 0.000000000001 && factor * total > part))
  }

  ghost predicate IsMetadata(linkIds: seq<int>, length: seq<real>, cost: seq<real>, paths: seq<seq<int>>,
                             costs: seq<real>, factors: seq<real>, w: PerLink, c: PerLink)
  {
    && LengthsById(w, linkIds, length) && Keyed(c, linkIds, cost) && |costs| == |factors| == |paths|
    && forall p :: 0 <= p < |paths| ==> costs[p] == Sum(c, paths[p]) && IsFactor(factors[p], w, paths, paths[p])
  }

  lemma LiftedPart(part: real, total: real)
    requires total > 0.0
    ensures OwnPart(MaxReal(part / total, FACTOR_FLOOR), part, total)
  {
    var raw := part / total;
    assert raw * total == part;
    if raw < FACTOR_FLOOR {
      Scale(total, FACTOR_FLOOR, raw);
    }
  }

  lemma SharesAreEqualParts(w: PerLink, paths: seq<seq<int>>, path: seq<int>)
    requires path in paths && forall id :: id in path ==> id in w
    ensures EqualParts(Shares(w, paths), w, paths, path)
  {
    forall id | id in path ensures Shares(w, paths)[id] * Usage(paths, id) as real == w[id] {
      ShareAt(w, paths, path, id);
    }
  }

  lemma FactorIsOwnPart(w: PerLink, paths: seq<seq<int>>, path: seq<int>)
    requires Positive(w) && path in paths && forall id :: id in path ==> id in w
    ensures IsFactor(Factor(w, paths, path), w, paths, path)
  {
    SumPositive(w, path);
    if path != [] {
      SharesAreEqualParts(w, paths, path);
      LiftedPart(Sum(Shares(w, paths), path), Sum(w, path));
    }
  }

  lemma DescribedIsMetadata(linkIds: seq<int>, length: seq<real>, cost: seq<real>, paths: seq<seq<int>>,
                            costs: seq<real>, factors: seq<real>)
    requires ValidLinks(linkIds, length, cost) && KnownPaths(Elements(linkIds), paths)
    requires Describes(costs, factors, paths, |paths|, ById(linkIds, FlooredLengths(length)), ById(linkIds, cost))
    ensures IsMetadata(linkIds, length, cost, paths, costs, factors,
                       ById(linkIds, FlooredLengths(length)), ById(linkIds, cost))
  {
    var w := ById(linkIds, FlooredLengths(length));
    forall id | id in w ensures w[id] > 0.0 {
      var i :| 0 <= i < |linkIds| && linkIds[i] == id;
      assert w[linkIds[i]] == FlooredLengths(length)[i];
    }
    forall p | 0 <= p < |paths| ensures IsFactor(factors[p], w, paths, paths[p]) {
      assert Within(paths[p], Elements(linkIds)) && paths[p] in paths;
      FactorIsOwnPart(w, paths, paths[p]);
    }
  }

  /** Every candidate's cost is the sum over its links and its factor the floored share of its
      length; the checks are made in the source's order. */
  method ComputeRouteMetadata(linkIds: seq<int>, length: seq<real>, cost: seq<real>, paths: seq<seq<int>>)
    returns (r: Result<(seq<real>, seq<real>), MetadataError>)
    ensures r.Ok? <==> ValidLinks(linkIds, length, cost) && KnownPaths(Elements(linkIds), paths)
    ensures r.Err? ==> r.error == FirstError(linkIds, length, cost)
    ensures r.Ok? ==> Describes(r.value.0, r.value.1, paths, |paths|,
                                ById(linkIds, FlooredLengths(length)), ById(linkIds, cost))
    ensures r.Ok? ==> IsMetadata(linkIds, length, cost, paths, r.value.0, r.value.1,
                                 ById(linkIds, FlooredLengths(length)), ById(linkIds, cost))
  {
    if |length| != |linkIds| {
      return Err(LengthCount);
    }
    if |cost| != |linkIds| {
      return Err(CostCount);
    }
    if !NonNegative(length) {
      return Err(NegativeLength);
    }
    if !NonNegative(cost) {
      return Err(NegativeCost);
    }
    var index := BuildIndex(linkIds);
    if index.Err? {
      return Err(index.error);
    }
    var usage := CountUsage(index.value, paths);
    if usage.Err? {
      return Err(usage.error);
    }
    ghost var w, c := ById(linkIds, FlooredLengths(length)), ById(linkIds, cost);
    var costs: seq<real>, factors: seq<real> := [], [];
    for p := 0 to |paths|
      invariant Describes(costs, factors, paths, p, w, c)
    {
      assert paths[p] in paths;
      var pathCost, factor := PathMetadata(linkIds, length, cost, index.value, usage.value, paths[p], paths, w, c);
      costs, factors := costs + [pathCost], factors + [factor];
    }
    DescribedIsMetadata(linkIds, length, cost, paths, costs, factors);
    return Ok((costs, factors));
  }
}
