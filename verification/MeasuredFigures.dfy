/** The figures a measured result reports: baseline, peak and their difference. */
module MeasuredFigures {
  import opened Results
  import opened Sorting
  import opened Handshake
  import opened Measurement

  // ----- The median

  const AT_MOST: (int, int) -> bool := (a, b) => a <= b

  function InOrder(w: seq<int>): (s: seq<int>)
    ensures multiset(s) == multiset(w) && |s| == |w|
    ensures forall i, j :: 0 <= i <= j < |s| ==> s[i] <= s[j]
  {
    var s := Sort(AT_MOST, w);
    SameElements(w, s);
    s
  }

  /** `statistics.median` */
  function Median(w: seq<int>): real
    requires w != []
  {
    var s, half := InOrder(w), |w| / 2;
    if |w| % 2 == 1 then s[half] as real else (s[half - 1] + s[half]) as real / 2.0
  }

  /** The lower half of the values is at most the median, and the upper half at least. */
  lemma MedianSplits(w: seq<int>)
    requires w != []
    ensures forall i :: 0 <= i < (|w| + 1) / 2 ==> InOrder(w)[i] as real <= Median(w)
    ensures forall i :: |w| / 2 <= i < |w| ==> InOrder(w)[i] as real >= Median(w)
  {
    var s, half := InOrder(w), |w| / 2;
    assert |w| % 2 == 0 ==> s[half - 1] <= s[half];
  }

  predicate Near(a: real, b: real) {
    -1024.0 <= a - b <= 1024.0
  }

  /** The median of values within the span of each other is within that span of each of them. */
  lemma MedianIsNear(w: seq<int>, k: nat)
    requires k < |w|
    requires forall i, j :: 0 <= i < |w| && 0 <= j < |w| ==> w[i] - w[j] <= STABILITY_SPAN_KIB
    ensures Near(w[k] as real, Median(w))
  {
    MedianSplits(w);
    var s := InOrder(w);
    var low, high := s[0], s[|w| - 1];
    assert low in multiset(s) && high in multiset(s);
    var i :| 0 <= i < |w| && w[i] == low;
    var j :| 0 <= j < |w| && w[j] == high;
    assert w[k] - low <= STABILITY_SPAN_KIB && high - w[k] <= STABILITY_SPAN_KIB;
    assert low as real <= Median(w) <= high as real;
  }

  // ----- The figures

  /** The values taken from the start marker on, outside the baseline stage. */
  function MeasuredValues(samples: seq<Sample>, startMarker: nat): seq<int> {
    if samples == [] then []
    else
      var last := samples[|samples| - 1];
      MeasuredValues(samples[..|samples| - 1], startMarker)
      + if last.time >= startMarker && !last.stage.Stabilize? then [last.rss] else []
  }

  datatype Figures = Figures(baseline: real, peak: int, delta: real)

  /** `None` stands for the error that no value was measured. */
  function FiguresOf(log: Log): Option<Figures>
    requires log.window != []
  {
    var values := MeasuredValues(log.samples, log.startMarker);
    if values == [] then None
    else
      var baseline, peak := Median(log.window), Max(values);
      Some(Figures(baseline, peak, MaxReal(0.0, peak as real - baseline)))
  }

  lemma {:induction false} ValuesAreMeasured(samples: seq<Sample>, startMarker: nat, v: int)
    ensures v in MeasuredValues(samples, startMarker) <==>
              exists i :: 0 <= i < |samples| && samples[i].time >= startMarker
                          && !samples[i].stage.Stabilize? && samples[i].rss == v
  {
    if samples != [] {
      var before, last := samples[..|samples| - 1], samples[|samples| - 1];
      ValuesAreMeasured(before, startMarker, v);
      assert samples == before + [last];
    }
  }

  lemma {:induction false} MaxIsReached(w: seq<int>)
    requires w != []
    ensures Max(w) in w
  {
    if |w| > 1 {
      MaxIsReached(w[1..]);
    }
  }

  ghost predicate Ascends(s: seq<int>) {
    forall i, j :: 0 <= i <= j < |s| ==> s[i] <= s[j]
  }

  lemma SameFirst(a: seq<int>, b: seq<int>)
    requires multiset(a) == multiset(b) && a != [] && Ascends(a) && Ascends(b)
    ensures b != [] && a[0] == b[0]
  {
    SameElements(a, b);
    assert a[0] in b && b[0] in a;
  }

  lemma WithoutFirst(s: seq<int>)
    requires s != []
    ensures multiset(s[1..]) == multiset(s) - multiset{s[0]}
    ensures Ascends(s) ==> Ascends(s[1..])
  {
    assert s == [s[0]] + s[1..];
  }

  lemma {:induction false} SortedIsUnique(a: seq<int>, b: seq<int>)
    requires multiset(a) == multiset(b) && Ascends(a) && Ascends(b)
    ensures a == b
    decreases |a|
  {
    if a == [] {
      SameElements(a, b);
    } else {
      SameFirst(a, b);
      WithoutFirst(a);
      WithoutFirst(b);
      SortedIsUnique(a[1..], b[1..]);
      assert a == [a[0]] + a[1..] && b == [b[0]] + b[1..];
    }
  }

  /** `s` lists the newest 200 of the first `n` values in order. */
  ghost predicate NewestInOrder(samples: seq<Sample>, n: nat, s: seq<int>)
    requires 200 <= n <= |samples|
  {
    Ascends(s) && multiset(s) == multiset(seq(200, k requires 0 <= k < 200 => samples[n - 200 + k].rss))
  }

  /** Of 200 values in order, the median is the mean of the two in the middle. */
  lemma BaselineIsMiddle(log: Log, s: seq<int>)
    requires Started(log) && 200 <= log.settled && NewestInOrder(log.samples, log.settled, s)
    ensures |s| == 200 == |log.window| && 2.0 * Median(log.window) == (s[99] + s[100]) as real
  {
    var newest := seq(200, k requires 0 <= k < 200 => log.samples[log.settled - 200 + k].rss);
    assert log.window == newest;
    SortedIsUnique(s, InOrder(log.window));
  }

  /** A measured result has its figures. The baseline is within 1 MiB of each of the 200 samples
      before START; the peak is the greatest of the samples from the start marker on; and the
      difference is never negative, and zero exactly if none of those exceeds the baseline, which is
      the mean of the two middle values of the 200. */
  lemma FiguresAreSound(e: State)
    requires Reachable(e) && e.parent.Measured?
    ensures e.log.window != [] && FiguresOf(e.log).Some?
    ensures var log, f := e.log, FiguresOf(e.log).value;
            && 200 <= log.settled < |log.samples|
            && (forall i :: log.settled - 200 <= i < log.settled ==>
                  Near(log.samples[i].rss as real, f.baseline))
            && (forall s :: NewestInOrder(log.samples, log.settled, s) ==>
                  |s| == 200 && 2.0 * f.baseline == (s[99] + s[100]) as real)
            && (exists i :: log.settled <= i < |log.samples| && log.samples[i].rss == f.peak)
            && (forall i :: log.settled <= i < |log.samples| ==> log.samples[i].rss <= f.peak)
            && f.delta >= 0.0
            && (f.delta == 0.0 <==>
                  forall i :: log.settled <= i < |log.samples| ==> log.samples[i].rss as real <= f.baseline)
            && (f.delta > 0.0 ==> f.baseline + f.delta == f.peak as real)
  {
    MeasuredHasStarted(e);
    BaselineIsNear(e.log);
    PeakIsGreatest(e.log);
    forall s | NewestInOrder(e.log.samples, e.log.settled, s)
      ensures |s| == 200 && 2.0 * Median(e.log.window) == (s[99] + s[100]) as real
    {
      BaselineIsMiddle(e.log, s);
    }
  }

  lemma MeasuredHasStarted(e: State)
    requires Reachable(e) && e.parent.Measured?
    ensures Started(e.log) && e.log.settled < |e.log.samples|
  {
    ReachableIsSound(e);
  }

  lemma BaselineIsNear(log: Log)
    requires Started(log)
    ensures log.window != [] && STABILITY_SAMPLE_COUNT <= log.settled
    ensures forall i :: log.settled - STABILITY_SAMPLE_COUNT <= i < log.settled ==>
              i < |log.samples| && Near(log.samples[i].rss as real, Median(log.window))
  {
    var w, base := log.window, log.settled - STABILITY_SAMPLE_COUNT;
    forall i, j | 0 <= i < |w| && 0 <= j < |w| ensures w[i] - w[j] <= STABILITY_SPAN_KIB {
      ExtremesBound(w, i);
      ExtremesBound(w, j);
    }
    forall i | base <= i < log.settled ensures Near(log.samples[i].rss as real, Median(w)) {
      MedianIsNear(w, i - base);
      assert w[i - base] == log.samples[i].rss;
    }
  }

  lemma PeakIsGreatest(log: Log)
    requires Started(log) && log.settled < |log.samples|
    ensures var values := MeasuredValues(log.samples, log.startMarker);
            && values != []
            && (exists i :: log.settled <= i < |log.samples| && log.samples[i].rss == Max(values))
            && (forall i :: log.settled <= i < |log.samples| ==> log.samples[i].rss <= Max(values))
  {
    var values := MeasuredValues(log.samples, log.startMarker);
    forall i | log.settled <= i < |log.samples| ensures log.samples[i].rss in values {
      ValuesAreMeasured(log.samples, log.startMarker, log.samples[i].rss);
    }
    assert log.samples[log.settled].rss in values;
    forall i | log.settled <= i < |log.samples| ensures log.samples[i].rss <= Max(values) {
      var k :| 0 <= k < |values| && values[k] == log.samples[i].rss;
      ExtremesBound(values, k);
    }
    MaxIsReached(values);
    ValuesAreMeasured(log.samples, log.startMarker, Max(values));
  }
}
