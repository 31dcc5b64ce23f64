/** How many streets a connected network has: at least one fewer than it has nodes, and exactly
    one fewer when none can be spared. */
module StreetCounts {
  import opened Results
  import opened Connectivity

  /** Every node starts with its own label; each street gives one label to both its ends. */
  ghost function Labels(nodes: set<int>, streets: seq<Street>): (l: map<int, int>)
    ensures l.Keys == nodes
  {
    if streets == [] then map n | n in nodes :: n
    else
      var before := Labels(nodes, streets[..|streets| - 1]);
      var s := streets[|streets| - 1];
      if Within(nodes, s) then
        map n | n in nodes :: if before[n] == before[s.b] then before[s.a] else before[n]
      else before
  }

  ghost function Used(labels: map<int, int>): set<int> {
    set n | n in labels :: labels[n]
  }

  /** Merging two labels loses one of them; a street inside one label changes nothing. */
  lemma MergeCount(nodes: set<int>, streets: seq<Street>)
    requires streets != []
    ensures var before := Labels(nodes, streets[..|streets| - 1]);
            var s := streets[|streets| - 1];
            |Used(Labels(nodes, streets))| ==
              |Used(before)| - if Within(nodes, s) && before[s.a] != before[s.b] then 1 else 0
  {
    var before := Labels(nodes, streets[..|streets| - 1]);
    var after := Labels(nodes, streets);
    var s := streets[|streets| - 1];
    if Within(nodes, s) {
      var lost := before[s.b];
      if before[s.a] == lost {
        assert after == before;
      } else {
        forall x ensures x in Used(after) <==> x in Used(before) - {lost} {
          if x in Used(before) - {lost} {
            var n :| n in before && before[n] == x;
            assert after[n] == x;
          }
          if x in Used(after) {
            var n :| n in after && after[n] == x;
            assert x == before[n] || x == before[s.a];
          }
        }
        assert Used(after) == Used(before) - {lost};
        assert lost in Used(before);
      }
    }
  }

  lemma {:induction false} StartCount(nodes: set<int>)
    ensures |Used(Labels(nodes, []))| == |nodes|
  {
    var labels := Labels(nodes, []);
    forall x ensures x in Used(labels) <==> x in nodes {
      if x in nodes {
        assert labels[x] == x;
      }
    }
    assert Used(labels) == nodes;
  }

  lemma {:induction false} CountDrop(nodes: set<int>, streets: seq<Street>)
    ensures |Used(Labels(nodes, streets))| >= |nodes| - |streets|
  {
    if streets == [] {
      StartCount(nodes);
    } else {
      CountDrop(nodes, streets[..|streets| - 1]);
      MergeCount(nodes, streets);
    }
  }

  /** Streets join equal labels. */
  lemma {:induction false} StreetsJoinLabels(nodes: set<int>, streets: seq<Street>, s: Street)
    requires s in streets && Within(nodes, s)
    ensures Labels(nodes, streets)[s.a] == Labels(nodes, streets)[s.b]
  {
    var last := streets[|streets| - 1];
    if s != last {
      assert s in streets[..|streets| - 1];
      StreetsJoinLabels(nodes, streets[..|streets| - 1], s);
    }
  }

  /** Equal labels never straddle a split that no street crosses. */
  lemma {:induction false} LabelsRespectSplits(nodes: set<int>, streets: seq<Street>, side: set<int>, x: int, y: int)
    requires forall s :: s in streets && Within(nodes, s) ==> !Crosses(side, s)
    requires x in nodes && y in nodes && Labels(nodes, streets)[x] == Labels(nodes, streets)[y]
    ensures x in side <==> y in side
  {
    if streets != [] {
      var rest, s := streets[..|streets| - 1], streets[|streets| - 1];
      var before := Labels(nodes, rest);
      assert forall t :: t in rest ==> t in streets;
      if before[x] == before[y] {
        LabelsRespectSplits(nodes, rest, side, x, y);
      } else {
        assert Within(nodes, s) && !Crosses(side, s);
        if before[x] == before[s.b] {
          LabelsRespectSplits(nodes, rest, side, x, s.b);
          LabelsRespectSplits(nodes, rest, side, y, s.a);
        } else {
          LabelsRespectSplits(nodes, rest, side, y, s.b);
          LabelsRespectSplits(nodes, rest, side, x, s.a);
        }
      }
    }
  }

  ghost function SetOf(streets: seq<Street>): set<Street> {
    set s | s in streets
  }

  lemma ConnectedHasOneLabel(nodes: set<int>, streets: seq<Street>, root: int)
    requires Connected(nodes, SetOf(streets)) && root in nodes
    ensures |Used(Labels(nodes, streets))| == 1
  {
    var labels := Labels(nodes, streets);
    var side := set n | n in nodes && labels[n] == labels[root];
    forall s | s in SetOf(streets) && Within(nodes, s) ensures !Crosses(side, s) {
      StreetsJoinLabels(nodes, streets, s);
    }
    assert Closed(nodes, SetOf(streets), side) && root in side;
    assert side == nodes;
    assert Used(labels) == {labels[root]} by {
      assert labels[root] in Used(labels);
    }
  }

  ghost predicate Listing(streets: seq<Street>, all: set<Street>) {
    && SetOf(streets) == all
    && |streets| == |all|
    && forall i, j :: 0 <= i < j < |streets| ==> streets[i] != streets[j]
  }

  lemma {:induction false} SomeListing(all: set<Street>) returns (streets: seq<Street>)
    ensures Listing(streets, all)
    decreases |all|
  {
    if all == {} {
      streets := [];
    } else {
      var s := SomeElement(all);
      var rest := SomeListing(all - {s});
      streets := rest + [s];
      assert SetOf(streets) == SetOf(rest) + {s};
    }
  }

  /** A connected network on n nodes has at least n - 1 streets. */
  lemma ConnectedNeedsStreets(nodes: set<int>, streets: set<Street>)
    requires Connected(nodes, streets) && nodes != {}
    ensures |streets| >= |nodes| - 1
  {
    var root := SomeElement(nodes);
    var listing := SomeListing(streets);
    ConnectedHasOneLabel(nodes, listing, root);
    CountDrop(nodes, listing);
  }

  /** No street can be spared. */
  ghost predicate Minimal(nodes: set<int>, streets: set<Street>) {
    forall s :: s in streets ==> !Connected(nodes, streets - {s})
  }

  /** In a minimal connected network every street, taken in any order, merges two labels. */
  lemma {:induction false} MinimalMerges(nodes: set<int>, streets: seq<Street>, k: nat)
    requires Connected(nodes, SetOf(streets)) && Minimal(nodes, SetOf(streets))
    requires Listing(streets, SetOf(streets)) && k <= |streets|
    ensures |Used(Labels(nodes, streets[..k]))| == |nodes| - k
  {
    if k == 0 {
      assert streets[..0] == [];
      StartCount(nodes);
    } else {
      MinimalMerges(nodes, streets, k - 1);
      var s, before := streets[k - 1], streets[..k - 1];
      assert streets[..k][..k - 1] == before;
      MergeCount(nodes, streets[..k]);
      assert s in SetOf(streets);
      var side :| Closed(nodes, SetOf(streets) - {s}, side) && side != {} && side != nodes;
      assert Within(nodes, s) && Crosses(side, s) by {
        if !(Within(nodes, s) && Crosses(side, s)) {
          assert Closed(nodes, SetOf(streets), side);
        }
      }
      var labels := Labels(nodes, before);
      if labels[s.a] == labels[s.b] {
        forall t | t in before && Within(nodes, t) ensures !Crosses(side, t) {
          assert t in SetOf(streets) - {s};
        }
        LabelsRespectSplits(nodes, before, side, s.a, s.b);
      }
    }
  }

  /** A connected network that can spare no street is a tree: n - 1 streets on n nodes. */
  lemma MinimalIsTree(nodes: set<int>, streets: set<Street>)
    requires Connected(nodes, streets) && Minimal(nodes, streets) && nodes != {}
    ensures |streets| == |nodes| - 1
  {
    var root := SomeElement(nodes);
    var listing := SomeListing(streets);
    MinimalMerges(nodes, listing, |listing|);
    assert listing[..|listing|] == listing;
    ConnectedHasOneLabel(nodes, listing, root);
  }

  /** Taking streets away cannot connect a network. */
  lemma FewerStreetsStaySplit(nodes: set<int>, fewer: set<Street>, streets: set<Street>)
    requires fewer <= streets && !Connected(nodes, streets)
    ensures !Connected(nodes, fewer)
  {
    var side :| Closed(nodes, streets, side) && side != {} && side != nodes;
    assert Closed(nodes, fewer, side);
  }
}
