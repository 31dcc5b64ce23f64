/** Stable sorting of lists by any total order, as the source's sort calls do it. */
module Sorting {

  ghost predicate TotalOrder<T(!new)>(atMost: (T, T) -> bool) {
    && (forall a, b :: atMost(a, b) || atMost(b, a))
    && forall a, b, c :: atMost(a, b) && atMost(b, c) ==> atMost(a, c)
  }

  ghost predicate Sorted<T(!new)>(atMost: (T, T) -> bool, s: seq<T>) {
    forall i, j :: 0 <= i < j < |s| ==> atMost(s[i], s[j])
  }

  /** Puts `x` before all that it does not come after. */
  function Insert<T>(atMost: (T, T) -> bool, x: T, s: seq<T>): (r: seq<T>)
    ensures multiset(r) == multiset(s) + multiset{x}
  {
    if s == [] || atMost(x, s[0]) then [x] + s
    else
      assert s == [s[0]] + s[1..];
      [s[0]] + Insert(atMost, x, s[1..])
  }

  lemma {:induction false} InsertKeepsOrder<T(!new)>(atMost: (T, T) -> bool, x: T, s: seq<T>)
    requires TotalOrder(atMost) && Sorted(atMost, s)
    ensures Sorted(atMost, Insert(atMost, x, s))
  {
    if s != [] && !atMost(x, s[0]) {
      var rest := Insert(atMost, x, s[1..]);
      InsertKeepsOrder(atMost, x, s[1..]);
      forall i | 0 <= i < |rest| ensures atMost(s[0], rest[i]) {
        assert rest[i] in multiset(s[1..]) + multiset{x};
        assert rest[i] in s[1..] || rest[i] == x;
      }
    }
  }

  function Sort<T(!new)>(atMost: (T, T) -> bool, s: seq<T>): (r: seq<T>)
    requires TotalOrder(atMost)
    ensures Sorted(atMost, r) && multiset(r) == multiset(s)
  {
    if s == [] then []
    else
      assert s == [s[0]] + s[1..];
      InsertKeepsOrder(atMost, s[0], Sort(atMost, s[1..]));
      Insert(atMost, s[0], Sort(atMost, s[1..]))
  }

  lemma SameElements<T>(a: seq<T>, b: seq<T>)
    requires multiset(a) == multiset(b)
    ensures |a| == |b| && forall x :: x in a <==> x in b
  {
    assert |multiset(a)| == |a| && |multiset(b)| == |b|;
    forall x ensures x in a <==> x in b {
      assert x in a <==> x in multiset(a);
      assert x in b <==> x in multiset(b);
    }
  }
}
