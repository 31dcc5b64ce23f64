/** When parent and child of the handshake do things, what a measured result proves, and that the
    two sides never wait for each other. */
module Measurement {
  import opened Handshake

  // ----- What the samples show

  /** Adjacent samples are at most 5 ms apart, and at least 2 ms within one stage. */
  ghost predicate GapAt(samples: seq<Sample>, i: nat) {
    var next := i + 1;
    next < |samples| ==>
      && samples[i].time <= samples[next].time <= samples[i].time + 5_000_000
      && (samples[i].stage == samples[next].stage ==> samples[next].time >= samples[i].time + 2_000_000)
  }

  ghost predicate Paced(samples: seq<Sample>) {
    forall i: nat :: GapAt(samples, i)
  }

  /** The window holds the newest values among the first `n` samples. */
  ghost predicate Trails(window: seq<int>, samples: seq<Sample>, n: nat) {
    && |window| <= n <= |samples|
    && |window| == (if n < STABILITY_SAMPLE_COUNT then n else STABILITY_SAMPLE_COUNT)
    && forall i :: 0 <= i < |window| ==> window[i] == samples[n - |window| + i].rss
  }

  ghost predicate Calming(log: Log) {
    && Trails(log.window, log.samples, |log.samples|)
    && forall i :: 0 <= i < |log.samples| ==> log.samples[i].stage.Stabilize?
  }

  /** The samples up to the start marker settle the baseline, those from it on measure. */
  ghost predicate Started(log: Log) {
    && log.settled <= |log.samples| && Steady(log.window) && Trails(log.window, log.samples, log.settled)
    && (forall i :: 0 <= i < log.settled ==> log.samples[i].stage.Stabilize? && log.samples[i].time <= log.startMarker)
    && (forall i :: log.settled <= i < |log.samples| ==>
          !log.samples[i].stage.Stabilize? && log.samples[i].time >= log.startMarker)
  }

  ghost predicate Measuring(log: Log) {
    Started(log) && forall i :: log.settled <= i < |log.samples| ==> log.samples[i].stage.Measure?
  }

  ghost predicate Closed(log: Log) {
    && Started(log) && log.settled < |log.samples| && log.samples[|log.samples| - 1].stage.PostEnd?
    && forall i :: log.settled <= i < |log.samples| - 1 ==> log.samples[i].stage.Measure?
  }

  /** The next sample of a loop is due 2 ms after the last one of the same stage. */
  ghost predicate Due(log: Log, stage: Stage) {
    log.samples != [] && log.samples[|log.samples| - 1].stage == stage ==>
      log.nextSample >= log.LastTime() + SAMPLE_INTERVAL_NS
  }

  ghost predicate LogScript(p: ParentPhase, log: Log) {
    match p
    case AwaitReady | AwaitBaseline => log.samples == [] && log.window == []
    case SampleBaseline => Calming(log) && Due(log, Stabilize)
    case PollBaseline => Calming(log)
    case SendStart => Calming(log) && Steady(log.window)
    case SampleWork => Measuring(log) && Due(log, Measure)
    case PollWork | SamplePost => Measuring(log)
    case SendAck | Joining | Measured => Closed(log)
    case Failing | Failed => true
  }

  /** The measured stage outlasts its deadline by two samples at most. */
  ghost predicate InTime(p: ParentPhase, log: Log) {
    var end := log.startMarker + WORKLOAD_TIMEOUT_NS;
    match p
    case SampleWork => log.samples != [] && log.deadline == end && log.LastTime() < end
    case PollWork | SamplePost =>
      log.samples != [] && log.deadline == end && log.LastTime() <= end + MAX_SAMPLE_INTERVAL_NS
    case SendAck | Joining | Measured => log.LastTime() <= end + 2 * MAX_SAMPLE_INTERVAL_NS
    case _ => true
  }

  lemma AddedSampleIsPaced(log: Log, time: nat, stage: Stage, rss: int)
    requires Paced(log.samples) && log.OnTime(time) && log.LastTime() <= time
    requires log.samples != [] && log.samples[|log.samples| - 1].stage == stage ==>
               time >= log.LastTime() + SAMPLE_INTERVAL_NS
    ensures Paced(log.Add(time, stage, rss).samples)
  {
    forall i: nat ensures GapAt(log.Add(time, stage, rss).samples, i) {
      assert GapAt(log.samples, i);
    }
  }

  lemma WindowSlides(log: Log, time: nat, rss: int)
    requires Calming(log)
    ensures Calming(log.Add(time, Stabilize, rss).Slide(rss))
  {
    var samples := log.Add(time, Stabilize, rss).samples;
    var window := log.Add(time, Stabilize, rss).Slide(rss).window;
    forall i | 0 <= i < |window| ensures window[i] == samples[|samples| - |window| + i].rss {
      var before := i + |log.window| + 1 - |window|;
      assert i < |window| - 1 ==> window[i] == log.window[before];
    }
  }

  lemma MeasurementGrows(log: Log, time: nat, rss: int)
    requires Measuring(log) && time >= log.startMarker
    ensures Measuring(log.Add(time, Measure, rss))
    ensures Closed(log.Add(time, PostEnd, rss))
  {
  }

  // ----- When things happen

  ghost predicate Past(s: State) {
    && (forall i :: 0 <= i < |s.log.samples| ==> s.log.samples[i].time <= s.clock)
    && s.log.startMarker <= s.clock
  }

  ghost predicate WorkScript(s: State) {
    && (s.work.start.Some? <==> s.mail.heard > 0)
    && (s.work.start.Some? ==> s.log.startMarker <= s.work.start.value <= s.clock)
    && (|s.mail.said| > 2 && s.mail.said[2].End? ==> s.work.end.Some?)
    && (s.work.end.Some? ==> s.work.start.Some? && s.work.start.value <= s.work.end.value <= s.clock)
    && (s.parent.SendAck? || s.parent.Joining? || s.parent.Measured? ==>
          s.work.end.Some? && s.work.end.value <= s.log.LastTime())
  }

  ghost predicate Timeline(s: State) {
    && Paced(s.log.samples) && Past(s) && LogScript(s.parent, s.log) && WorkScript(s)
    && InTime(s.parent, s.log)
  }

  lemma BaselineSampleKeepsTime(s: State, a: Action)
    requires Timeline(s) && a.ParentStep?
    requires s.parent.SampleBaseline? && s.log.nextSample <= s.clock
    ensures Timeline(TakeSample(s, a, Stabilize, PollBaseline))
  {
    if s.log.OnTime(s.clock) {
      AddedSampleIsPaced(s.log, s.clock, Stabilize, a.rss);
      WindowSlides(s.log, s.clock, a.rss);
    }
  }

  lemma WorkSampleKeepsTime(s: State, a: Action)
    requires Timeline(s) && a.ParentStep?
    requires s.parent.SampleWork? && s.log.nextSample <= s.clock
    ensures Timeline(TakeSample(s, a, Measure, PollWork))
  {
    if s.log.OnTime(s.clock) {
      AddedSampleIsPaced(s.log, s.clock, Measure, a.rss);
      MeasurementGrows(s.log, s.clock, a.rss);
    }
  }

  lemma PostSampleKeepsTime(s: State, a: Action)
    requires Talks(s) && Timeline(s) && a.ParentStep? && s.parent.SamplePost?
    ensures Timeline(TakeSample(s, a, PostEnd, SendAck))
  {
    if s.log.OnTime(s.clock) {
      AddedSampleIsPaced(s.log, s.clock, PostEnd, a.rss);
      MeasurementGrows(s.log, s.clock, a.rss);
    }
  }

  lemma StartKeepsTime(s: State)
    requires Talks(s) && Timeline(s) && s.parent.SendStart?
    ensures Timeline(s.(mail := s.mail.Tell(Start), parent := SampleWork, log := s.log.Begin(s.clock)))
  {
  }

  lemma AwaitKeepsTime(s: State, a: Action)
    requires Timeline(s) && a.ParentStep? && (s.parent.AwaitReady? || s.parent.AwaitBaseline?)
    ensures Timeline(Await(s, a))
  {
  }

  lemma FailureKeepsTime(s: State, child: ChildPhase)
    requires Timeline(s)
    ensures Timeline(Fail(s))
    ensures s.parent.Failing? ==> Timeline(s.(parent := Failed, child := child))
  {
  }

  lemma WaitKeepsTime(s: State)
    requires Timeline(s)
    ensures s.parent.PollBaseline? ==> Timeline(s.(log := s.log.Wait(), parent := SampleBaseline))
    ensures s.parent.PollWork? && s.log.LastTime() < s.log.deadline ==>
              Timeline(s.(log := s.log.Wait(), parent := SampleWork))
  {
  }

  lemma SettledKeepsTime(s: State)
    requires Timeline(s) && s.parent.PollBaseline? && Steady(s.log.window)
    ensures Timeline(s.(parent := SendStart))
  {
  }

  lemma PollBaselineKeepsTime(s: State, a: Action)
    requires Timeline(s) && a.ParentStep? && s.parent.PollBaseline?
    ensures Timeline(PollAfterBaseline(s, a))
  {
    if !Incoming(s, a).Nothing? {
      FailureKeepsTime(s, s.child);
    } else if Steady(s.log.window) {
      SettledKeepsTime(s);
    } else if s.log.LastTime() >= s.log.deadline {
      FailureKeepsTime(s, s.child);
    } else {
      WaitKeepsTime(s);
    }
  }

  lemma EndKeepsTime(s: State)
    requires Talks(s) && Timeline(s) && s.parent.PollWork? && s.mail.ForParent()
    ensures Timeline(s.(mail := s.mail.Accept(), parent := SamplePost))
  {
  }

  lemma PollWorkKeepsTime(s: State, a: Action)
    requires Talks(s) && Timeline(s) && a.ParentStep? && s.parent.PollWork?
    ensures Timeline(PollAfterWork(s, a))
  {
    FailureKeepsTime(s, s.child);
    match Incoming(s, a)
    case Nothing => WaitKeepsTime(s);
    case Broken =>
    case Message(_) => EndKeepsTime(s);
  }

  lemma AckKeepsTime(s: State)
    requires Talks(s) && Timeline(s)
    ensures s.parent.SendAck? ==> Timeline(s.(mail := s.mail.Tell(Ack), parent := Joining))
  {
  }

  lemma JoinKeepsTime(s: State)
    requires Timeline(s) && s.parent.Joining?
    ensures Timeline(Join(s))
  {
    FailureKeepsTime(s, s.child);
  }

  lemma SamplingKeepsTime(s: State, a: Action)
    requires Talks(s) && Timeline(s) && a.ParentStep? && !a.fault
    requires s.parent.SampleBaseline? || s.parent.SampleWork? || s.parent.SamplePost?
    requires !s.parent.SamplePost? ==> s.log.nextSample <= s.clock
    ensures Timeline(ParentAct(s, a))
  {
    match s.parent
    case SampleBaseline => BaselineSampleKeepsTime(s, a);
    case SampleWork => WorkSampleKeepsTime(s, a);
    case SamplePost => PostSampleKeepsTime(s, a);
  }

  lemma ListeningKeepsTime(s: State, a: Action)
    requires Talks(s) && Timeline(s) && a.ParentStep? && !a.fault
    requires s.parent.AwaitReady? || s.parent.AwaitBaseline? || s.parent.PollBaseline? || s.parent.PollWork?
    ensures Timeline(ParentAct(s, a))
  {
    match s.parent
    case AwaitReady | AwaitBaseline => AwaitKeepsTime(s, a);
    case PollBaseline => PollBaselineKeepsTime(s, a);
    case PollWork => PollWorkKeepsTime(s, a);
  }

  lemma SendingKeepsTime(s: State, a: Action)
    requires Talks(s) && Timeline(s) && a.ParentStep? && !a.fault
    requires s.parent.SendStart? || s.parent.SendAck? || s.parent.Joining?
    ensures Timeline(ParentAct(s, a))
  {
    match s.parent
    case SendStart => StartKeepsTime(s);
    case SendAck => AckKeepsTime(s);
    case Joining => JoinKeepsTime(s);
  }

  lemma FailingKeepsTime(s: State, a: Action)
    requires Timeline(s) && a.ParentStep?
    requires a.fault || s.parent.Failing? || s.parent.Failed? || s.parent.Measured?
    ensures Timeline(ParentAct(s, a))
  {
    FailureKeepsTime(s, ParentAct(s, a).child);
  }

  lemma ParentKeepsTime(s: State, a: Action)
    requires Talks(s) && Timeline(s) && a.ParentStep?
    requires s.parent.SampleBaseline? || s.parent.SampleWork? ==> s.log.nextSample <= s.clock
    ensures Timeline(ParentAct(s, a))
  {
    var p := s.parent;
    if a.fault || p.Failing? || p.Failed? || p.Measured? {
      FailingKeepsTime(s, a);
    } else if p.SampleBaseline? || p.SampleWork? || p.SamplePost? {
      SamplingKeepsTime(s, a);
    } else if p.SendStart? || p.SendAck? || p.Joining? {
      SendingKeepsTime(s, a);
    } else {
      ListeningKeepsTime(s, a);
    }
  }

  lemma ChildKeepsTime(s: State, a: Action)
    requires Talks(s) && Timeline(s) && a.ChildStep?
    ensures Timeline(ChildAct(s, a))
  {
    assert ChildAct(s, a).log == s.log && ChildAct(s, a).parent == s.parent && ChildAct(s, a).clock == s.clock;
  }

  ghost predicate Sound(s: State) {
    Talks(s) && Timeline(s)
  }

  lemma InitialIsSound()
    ensures Sound(Initial())
  {
  }

  lemma NextIsSound(before: State, a: Action, after: State)
    requires Sound(before) && after == Next(before, a)
    ensures Sound(after)
  {
    var s := before.(clock := Wake(before, a));
    assert Talks(s) && Timeline(s);
    if a.ParentStep? {
      ParentKeepsTalking(s, a);
      ParentKeepsTime(s, a);
    } else {
      ChildKeepsTalking(s, a);
      ChildKeepsTime(s, a);
    }
  }

  /** Both sides' scripts and the timeline hold in every state of every run. */
  lemma {:induction false} RunIsSound(states: seq<State>, actions: seq<Action>, k: nat)
    requires IsRun(states, actions) && k < |states|
    ensures Sound(states[k])
  {
    if k == 0 {
      InitialIsSound();
    } else {
      var before := k - 1;
      RunIsSound(states, actions, before);
      assert StepAt(states, actions, before);
      NextIsSound(states[before], actions[before], states[k]);
    }
  }

  lemma ReachableIsSound(s: State)
    requires Reachable(s)
    ensures Sound(s)
  {
    var states, actions :| IsRun(states, actions) && states[|actions|] == s;
    RunIsSound(states, actions, |actions|);
  }

  // ----- What a measured result proves

  /** A measured result: both sides have said exactly what the protocol says, nothing is unread and
      the child has ended well. */
  lemma MeasuredDialogue(e: State)
    requires Reachable(e) && e.parent.Measured?
    ensures |e.mail.said| == e.mail.accepted == 3 && |e.mail.told| == e.mail.heard == 2
    ensures e.mail.said[0] == Ready(true) && e.mail.said[1] == BaselineReady
    ensures e.mail.said[2].End? && e.mail.said[2].maxRss > 0
    ensures e.mail.told == [Start, Ack] && e.child == Exited(0)
  {
    ReachableIsSound(e);
  }

  /** Instant `t` lies between samples `i` and `i + 1`. */
  ghost predicate Brackets(samples: seq<Sample>, i: nat, t: nat) {
    var next := i + 1;
    next < |samples| && samples[i].time <= t <= samples[next].time <= samples[i].time + 5_000_000
  }

  ghost predicate Watched(samples: seq<Sample>, t: nat) {
    exists i: nat :: Brackets(samples, i, t)
  }

  lemma {:induction false} BetweenSamples(samples: seq<Sample>, t: nat, n: nat)
    requires Paced(samples) && 0 < n < |samples| && samples[0].time <= t <= samples[n].time
    ensures Watched(samples, t)
  {
    if samples[n - 1].time <= t {
      assert GapAt(samples, n - 1);
      assert Brackets(samples, n - 1, t);
    } else {
      BetweenSamples(samples, t, n - 1);
    }
  }

  lemma SpanIsWatched(samples: seq<Sample>, from: nat, to: nat)
    requires Paced(samples) && |samples| > 1
    requires samples[0].time <= from && to <= samples[|samples| - 1].time
    ensures forall t: nat :: Watched(samples, t) <== from <= t <= to
  {
    forall t: nat | from <= t <= to ensures Watched(samples, t) {
      BetweenSamples(samples, t, |samples| - 1);
    }
  }

  /** A measured workload is watched all the way: it starts after the start marker and ends before
      the last sample, each of its instants lies between two samples at most 5 ms apart, and it does
      not outlast its timeout by more than two samples. */
  lemma WorkloadIsWatched(e: State)
    requires Reachable(e) && e.parent.Measured?
    ensures e.work.start.Some? && e.work.end.Some?
    ensures e.log.startMarker <= e.work.start.value <= e.work.end.value <= e.log.LastTime()
    ensures e.log.LastTime() <= e.log.startMarker + 900_000_000_000 + 10_000_000
    ensures forall t: nat :: Watched(e.log.samples, t) <== e.work.start.value <= t <= e.work.end.value
  {
    ReachableIsSound(e);
    SpanIsWatched(e.log.samples, e.work.start.value, e.work.end.value);
  }

  lemma {:induction false} ExtremesBound(w: seq<int>, i: nat)
    requires i < |w|
    ensures Min(w) <= w[i] <= Max(w)
  {
    if i == 0 {
      if |w| > 1 {
        assert Min(w) <= w[0] <= Max(w);
      }
    } else {
      ExtremesBound(w[1..], i - 1);
    }
  }

  /** The baseline of a measured result comes from the last 200 samples before START, any two of
      which differ by at most 1 MiB; the samples counted for the peak are exactly those after them,
      none was taken before the start marker, and there is at least one. */
  lemma MeasuredSamples(e: State)
    requires Reachable(e) && e.parent.Measured?
    ensures var log := e.log;
            && 200 <= log.settled < |log.samples|
            && (forall i, j ::
                  log.settled - 200 <= i < log.settled && log.settled - 200 <= j < log.settled ==>
                    log.samples[i].rss - log.samples[j].rss <= 1024)
            && (forall i :: 0 <= i < |log.samples| ==>
                  if i < log.settled then log.samples[i].stage == Stabilize && log.samples[i].time <= log.startMarker
                  else log.samples[i].stage != Stabilize && log.samples[i].time >= log.startMarker)
            && Paced(log.samples)
  {
    ReachableIsSound(e);
    var log := e.log;
    var base := log.settled - STABILITY_SAMPLE_COUNT;
    forall i, j | base <= i < log.settled && base <= j < log.settled
      ensures log.samples[i].rss - log.samples[j].rss <= STABILITY_SPAN_KIB
    {
      ExtremesBound(log.window, i - base);
      ExtremesBound(log.window, j - base);
      assert log.window[i - base] == log.samples[i].rss && log.window[j - base] == log.samples[j].rss;
    }
  }

  // ----- Waiting

  predicate ParentWaits(s: State) {
    || ((s.parent.AwaitReady? || s.parent.AwaitBaseline?) && !s.mail.ForParent() && !s.child.Exited?)
    || (s.parent.Joining? && !s.child.Exited?)
  }

  predicate ChildWaits(s: State) {
    (s.child.AwaitStart? || s.child.AwaitAck?) && !s.mail.ForChild() && !ParentClosed(s)
  }

  /** The two sides never wait for each other, and when the parent has given up no child is left. */
  lemma NeverBothWait(e: State)
    requires Reachable(e)
    ensures !(ParentWaits(e) && ChildWaits(e))
    ensures e.parent.Failed? ==> e.child.Exited?
  {
    ReachableIsSound(e);
  }
}
