/** Choice of one candidate: greatest utility, ties broken by candidate id and then by path. */
module RouteSelection {
  import opened Results

  /** A path cost; anything that is not a finite number is `NotFinite`. */
  datatype PathCost = Finite(cost: real) | NotFinite

  /** A utility, with negative infinity for a cost that is not finite. */
  datatype Utility = NegInfinity | Value(u: real)

  const SIZE_FLOOR := 0.000000000001

  predicate UtilityLess(a: Utility, b: Utility) {
    b.Value? && (a.NegInfinity? || a.u < b.u)
  }

  /** `ln` is the natural logarithm, which is left uninterpreted. */
  function UtilityOf(cost: PathCost, size: real, gamma: real, ln: real -> real): Utility {
    if cost.NotFinite? then NegInfinity
    else
      var weight := if gamma >= 0.0 then gamma else 0.0;
      Value(-cost.cost + weight * ln(if size > 0.0 then size else SIZE_FLOOR))
  }

  /** `a` beats `b`: smaller at the first difference, or longer when `b` is a prefix of `a`. */
  predicate PathBeats(a: seq<int>, b: seq<int>) {
    if a == [] then false
    else if b == [] then true
    else if a[0] != b[0] then a[0] < b[0]
    else PathBeats(a[1..], b[1..])
  }

  /** `a` and `b` agree up to position `k`. */
  ghost predicate AgreeTo(a: seq<int>, b: seq<int>, k: nat) {
    k <= |a| && k <= |b| && forall j :: 0 <= j < k ==> a[j] == b[j]
  }

  /** At position `k`, `a` is smaller or `b` has ended. */
  ghost predicate WinsAt(a: seq<int>, b: seq<int>, k: nat) {
    AgreeTo(a, b, k) && k < |a| && (k == |b| || a[k] < b[k])
  }

  /** The recursive order is decided at the first difference, or by length where there is none. */
  lemma {:induction false} PathBeatsAtDifference(a: seq<int>, b: seq<int>)
    ensures PathBeats(a, b) <==> exists k: nat :: k <= |b| && WinsAt(a, b, k)
  {
    if a != [] && b != [] && a[0] == b[0] {
      PathBeatsAtDifference(a[1..], b[1..]);
      if PathBeats(a, b) {
        var k: nat :| k <= |b[1..]| && WinsAt(a[1..], b[1..], k);
        assert WinsAt(a, b, k + 1);
      }
      if k: nat :| k <= |b| && WinsAt(a, b, k) {
        var j := k - 1;
        assert WinsAt(a[1..], b[1..], j);
      }
    } else if PathBeats(a, b) {
      assert WinsAt(a, b, 0);
    }
  }

  lemma {:induction false} PathBeatsIrreflexive(a: seq<int>)
    ensures !PathBeats(a, a)
  {
    if a != [] {
      PathBeatsIrreflexive(a[1..]);
    }
  }

  lemma {:induction false} PathBeatsTransitive(a: seq<int>, b: seq<int>, c: seq<int>)
    requires PathBeats(a, b) && PathBeats(b, c)
    ensures PathBeats(a, c)
  {
    if c != [] && a[0] == b[0] == c[0] {
      PathBeatsTransitive(a[1..], b[1..], c[1..]);
    }
  }

  lemma {:induction false} PathBeatsTotal(a: seq<int>, b: seq<int>)
    ensures a == b || PathBeats(a, b) || PathBeats(b, a)
  {
    if a != [] && b != [] && a[0] == b[0] {
      PathBeatsTotal(a[1..], b[1..]);
      assert a == [a[0]] + a[1..] && b == [b[0]] + b[1..];
    }
  }

  /** The source's loop over the common length of the two paths. */
  method PathTiebreakGreater(candidate: seq<int>, best: seq<int>) returns (greater: bool)
    ensures greater == PathBeats(candidate, best)
  {
    var i := 0;
    while i < |candidate| && i < |best|
      invariant i <= |candidate| && i <= |best|
      invariant PathBeats(candidate, best) == PathBeats(candidate[i..], best[i..])
    {
      assert candidate[i..][1..] == candidate[i + 1..] && best[i..][1..] == best[i + 1..];
      if candidate[i] != best[i] {
        return candidate[i] < best[i];
      }
      i := i + 1;
    }
    return |candidate| > |best|;
  }

  /** What the choice depends on: a candidate's utility, id and path. */
  datatype Candidate = Candidate(utility: Utility, id: int, path: seq<int>)

  predicate Beats(a: Candidate, b: Candidate) {
    || UtilityLess(b.utility, a.utility)
    || (a.utility == b.utility && (a.id < b.id || (a.id == b.id && PathBeats(a.path, b.path))))
  }

  /** The tie-broken comparison is a strict total order. */
  lemma BeatsIsStrictTotalOrder(a: Candidate, b: Candidate, c: Candidate)
    ensures !Beats(a, a)
    ensures Beats(a, b) && Beats(b, c) ==> Beats(a, c)
    ensures a == b || Beats(a, b) || Beats(b, a)
  {
    PathBeatsIrreflexive(a.path);
    PathBeatsTotal(a.path, b.path);
    if PathBeats(a.path, b.path) && PathBeats(b.path, c.path) {
      PathBeatsTransitive(a.path, b.path, c.path);
    }
  }

  /** The comparison as the source's loop body makes it. */
  method Better(a: Candidate, b: Candidate) returns (better: bool)
    ensures better == Beats(a, b)
  {
    if UtilityLess(b.utility, a.utility) {
      return true;
    }
    if a.utility != b.utility {
      return false;
    }
    if a.id != b.id {
      return a.id < b.id;
    }
    better := PathTiebreakGreater(a.path, b.path);
  }

  datatype Input = Input(
    ids: seq<int>,
    paths: seq<seq<int>>,
    costs: seq<PathCost>,
    sizes: seq<real>,
    gamma: real)

  datatype SelectionError = NegativeId | NegativeLink

  predicate NonNegativeLinks(path: seq<int>) {
    forall k :: 0 <= k < |path| ==> path[k] >= 0
  }

  predicate ValidIds(input: Input) {
    forall i :: 0 <= i < |input.ids| ==> input.ids[i] >= 0
  }

  predicate ValidPaths(input: Input) {
    forall i :: 0 <= i < |input.paths| ==> NonNegativeLinks(input.paths[i])
  }

  /** The candidate at position `i`; a missing id is the position, a missing size factor is 1. */
  function CandidateAt(input: Input, ln: real -> real, i: nat): Candidate
    requires i < |input.paths| <= |input.costs|
  {
    var size := if i < |input.sizes| then input.sizes[i] else 1.0;
    var id := if i < |input.ids| then input.ids[i] else i;
    Candidate(UtilityOf(input.costs[i], size, input.gamma, ln), id, input.paths[i])
  }

  predicate Viable(input: Input, i: int) {
    0 <= i < |input.paths| && input.paths[i] != []
  }

  /** The candidate at `i` neither beats the one at `best` nor is an earlier equal of it. */
  ghost predicate NoBetter(input: Input, ln: real -> real, best: nat, i: nat)
    requires |input.paths| <= |input.costs| && best < |input.paths| && i < |input.paths|
  {
    var a, b := CandidateAt(input, ln, i), CandidateAt(input, ln, best);
    !Beats(a, b) && (i < best ==> a != b)
  }

  /** The greatest of the viable candidates, and the first among equals. */
  ghost predicate Greatest(input: Input, ln: real -> real, best: nat)
    requires |input.paths| <= |input.costs|
  {
    Viable(input, best) && forall i :: Viable(input, i) ==> NoBetter(input, ln, best, i)
  }

  lemma NewBest(input: Input, ln: real -> real, best: nat, candidate: nat, i: nat)
    requires |input.paths| <= |input.costs|
    requires best < |input.paths| && candidate < |input.paths| && i < |input.paths|
    requires Beats(CandidateAt(input, ln, candidate), CandidateAt(input, ln, best))
    requires NoBetter(input, ln, best, i) || i == candidate
    ensures NoBetter(input, ln, candidate, i)
  {
    BeatsIsStrictTotalOrder(CandidateAt(input, ln, i), CandidateAt(input, ln, candidate), CandidateAt(input, ln, best));
  }

  ghost predicate FirstViable(input: Input, first: nat) {
    Viable(input, first) && forall i :: Viable(input, i) ==> first <= i
  }

  /** The positions of the non-empty paths, in order. */
  method ViableIndices(input: Input) returns (viable: seq<nat>)
    ensures forall k :: 0 <= k < |viable| ==> Viable(input, viable[k])
    ensures forall j, k :: 0 <= j < k < |viable| ==> viable[j] < viable[k]
    ensures forall i :: Viable(input, i) ==> i in viable
  {
    viable := [];
    for i := 0 to |input.paths|
      invariant forall k :: 0 <= k < |viable| ==> Viable(input, viable[k]) && viable[k] < i
      invariant forall j, k :: 0 <= j < k < |viable| ==> viable[j] < viable[k]
      invariant forall j :: Viable(input, j) && j < i ==> j in viable
    {
      if input.paths[i] != [] {
        viable := viable + [i];
      }
    }
  }

  // ----- What the choice means for costs and sizes

  /** The id that breaks ties: a missing one is the position. */
  ghost function TieId(input: Input, i: nat): int {
    if i < |input.ids| then input.ids[i] else i
  }

  /** The size factor a path is judged by: a missing one is 1, one that is not positive is 1e-12. */
  ghost function SizeAt(input: Input, i: nat): real {
    if i >= |input.sizes| then 1.0 else if input.sizes[i] > 0.0 then input.sizes[i] else 0.000000000001
  }

  ghost predicate FinitePath(input: Input, i: int) {
    0 <= i < |input.costs| && Viable(input, i) && input.costs[i].Finite?
  }

  /** With the weight given to sizes, `best` costs no more than `i` once the difference in the
      logarithms of the size factors is paid for; equal terms are decided by id and path. */
  ghost predicate NoDearer(input: Input, ln: real -> real, weight: real, best: nat, i: nat)
    requires FinitePath(input, best) && FinitePath(input, i)
  {
    var gain := weight * ln(SizeAt(input, best)) - weight * ln(SizeAt(input, i));
    var extra := input.costs[best].cost - input.costs[i].cost;
    && extra <= gain
    && (extra == gain ==>
          || TieId(input, best) < TieId(input, i)
          || (TieId(input, best) == TieId(input, i) && !PathBeats(input.paths[i], input.paths[best])))
  }

  /** The cheapest path wins, as far as size factors count; a path of no finite cost only if there
      is nothing else. */
  ghost predicate Economical(input: Input, ln: real -> real, best: nat, utility: Utility)
  {
    && (!FinitePath(input, best) ==> utility == NegInfinity && forall i :: !FinitePath(input, i))
    && (FinitePath(input, best) ==>
          && (input.gamma <= 0.0 ==> utility == Value(-input.costs[best].cost))
          && (input.gamma > 0.0 ==> utility == Value(input.gamma * ln(SizeAt(input, best)) - input.costs[best].cost))
          && forall i: nat :: FinitePath(input, i) ==>
               NoDearer(input, ln, if input.gamma > 0.0 then input.gamma else 0.0, best, i))
  }

  lemma GreatestIsEconomical(input: Input, ln: real -> real, best: nat)
    requires |input.paths| <= |input.costs| && Greatest(input, ln, best)
    ensures Economical(input, ln, best, CandidateAt(input, ln, best).utility)
  {
    forall i: nat | FinitePath(input, i)
      ensures FinitePath(input, best)
      ensures NoDearer(input, ln, if input.gamma > 0.0 then input.gamma else 0.0, best, i)
    {
      assert Viable(input, i) && NoBetter(input, ln, best, i);
    }
    if forall i: nat :: !FinitePath(input, i) {
      assert !FinitePath(input, best);
    }
  }

  /** Without a weight on sizes the choice is a cheapest path of finite cost. */
  lemma CheapestWithoutSizes(input: Input, ln: real -> real, best: nat, utility: Utility, i: nat)
    requires Economical(input, ln, best, utility) && input.gamma <= 0.0 && FinitePath(input, i)
    ensures FinitePath(input, best) && input.costs[best].cost <= input.costs[i].cost
    ensures utility == Value(-input.costs[best].cost)
    ensures input.costs[best].cost == input.costs[i].cost ==> TieId(input, best) <= TieId(input, i)
  {
    assert NoDearer(input, ln, 0.0, best, i);
  }

  ghost predicate IncreasingFunction(ln: real -> real) {
    forall x, y :: 0.0 < x < y ==> ln(x) < ln(y)
  }

  lemma ScaledOrder(weight: real, a: real, b: real)
    requires weight > 0.0
    ensures a < b ==> weight * a < weight * b
  {
    if a < b {
      assert weight * (b - a) > 0.0;
    }
  }

  /** With a weight on sizes, among paths of equal cost the chosen one has the greatest size
      factor. */
  lemma LargestAmongEquals(input: Input, ln: real -> real, best: nat, utility: Utility, i: nat)
    requires Economical(input, ln, best, utility) && input.gamma > 0.0 && IncreasingFunction(ln)
    requires FinitePath(input, i) && FinitePath(input, best) && input.costs[best].cost == input.costs[i].cost
    ensures SizeAt(input, i) <= SizeAt(input, best)
  {
    assert NoDearer(input, ln, input.gamma, best, i);
    ScaledOrder(input.gamma, ln(SizeAt(input, best)), ln(SizeAt(input, i)));
  }

  /** The chosen index and its utility: -1 and 0 when every path is empty, the first viable index
      and 0 when costs are missing, otherwise the greatest candidate. */
  method SelectCandidate(input: Input, ln: real -> real) returns (r: Result<(int, Utility), SelectionError>)
    ensures r.Ok? <==> ValidIds(input) && ValidPaths(input)
    ensures r.Err? ==> r.error == if !ValidIds(input) then NegativeId else NegativeLink
    ensures r.Ok? && (forall i :: !Viable(input, i)) ==> r.value == (-1, Value(0.0))
    ensures r.Ok? && (exists i :: Viable(input, i)) && |input.costs| < |input.paths| ==>
              r.value.1 == Value(0.0) && r.value.0 >= 0 && FirstViable(input, r.value.0)
    ensures r.Ok? && (exists i :: Viable(input, i)) && |input.costs| >= |input.paths| ==>
              && r.value.0 >= 0 && Greatest(input, ln, r.value.0)
              && r.value.1 == CandidateAt(input, ln, r.value.0).utility
              && Economical(input, ln, r.value.0, r.value.1)
  {
    if !ValidIds(input) {
      return Err(NegativeId);
    }
    if !ValidPaths(input) {
      return Err(NegativeLink);
    }
    var viable := ViableIndices(input);
    if viable == [] {
      return Ok((-1, Value(0.0)));
    }
    assert Viable(input, viable[0]);
    if |input.costs| < |input.paths| {
      return Ok((viable[0], Value(0.0)));
    }
    var best := viable[0];
    BeatsIsStrictTotalOrder(CandidateAt(input, ln, best), CandidateAt(input, ln, best), CandidateAt(input, ln, best));
    for k := 1 to |viable|
      invariant Viable(input, best) && best <= viable[k - 1]
      invariant forall j :: 0 <= j < k ==> NoBetter(input, ln, best, viable[j])
    {
      var candidate := viable[k];
      var a, b := CandidateAt(input, ln, candidate), CandidateAt(input, ln, best);
      var better := Better(a, b);
      if better {
        forall j | 0 <= j <= k ensures NoBetter(input, ln, candidate, viable[j]) {
          NewBest(input, ln, best, candidate, viable[j]);
        }
        best := candidate;
      }
    }
    GreatestIsEconomical(input, ln, best);
    return Ok((best, CandidateAt(input, ln, best).utility));
  }

  /** All candidates of an input with nothing missing. */
  ghost function Candidates(input: Input, ln: real -> real): (s: seq<Candidate>)
    requires |input.paths| <= |input.costs|
    ensures |s| == |input.paths| && forall i :: 0 <= i < |s| ==> s[i] == CandidateAt(input, ln, i)
  {
    seq(|input.paths|, i requires 0 <= i < |input.paths| => CandidateAt(input, ln, i))
  }

  /** Two inputs that list the same candidates in any order lead to the same choice. */
  lemma ChoiceIgnoresOrder(a: Input, b: Input, ln: real -> real, i: nat, j: nat)
    requires |a.paths| <= |a.costs| && |b.paths| <= |b.costs|
    requires multiset(Candidates(a, ln)) == multiset(Candidates(b, ln))
    requires Greatest(a, ln, i) && Greatest(b, ln, j)
    ensures CandidateAt(a, ln, i) == CandidateAt(b, ln, j)
  {
    var best, other := CandidateAt(a, ln, i), CandidateAt(b, ln, j);
    var left, right := Candidates(a, ln), Candidates(b, ln);
    assert left[i] in multiset(left) && right[j] in multiset(right);
    assert best in right && other in left;
    var k :| 0 <= k < |right| && right[k] == best;
    var l :| 0 <= l < |left| && left[l] == other;
    assert Viable(b, k) && Viable(a, l);
    BeatsIsStrictTotalOrder(best, other, other);
  }
}
