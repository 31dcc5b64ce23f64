/** The parent's decisions in numbers: when a sample is taken, when the memory has settled, how long
    each stage may last. */
module HandshakeSteps {
  import opened Handshake
  import opened Measurement

  lemma {:induction false} ExtremesAreReached(w: seq<int>)
    requires w != []
    ensures Max(w) in w && Min(w) in w
  {
    if |w| > 1 {
      ExtremesAreReached(w[1..]);
    }
  }

  /** The memory has settled when the window holds 200 values no two of which differ by more than
      1024. */
  lemma SteadyIs(w: seq<int>)
    ensures Steady(w) <==> |w| == 200 && forall i, j :: 0 <= i < 200 && 0 <= j < 200 ==> w[i] - w[j] <= 1024
  {
    if |w| == 200 {
      ExtremesAreReached(w);
      forall i | 0 <= i < |w| ensures Min(w) <= w[i] <= Max(w) {
        ExtremesBound(w, i);
      }
      var i, j :| 0 <= i < |w| && 0 <= j < |w| && w[i] == Max(w) && w[j] == Min(w);
      assert w[i] - w[j] == Max(w) - Min(w);
    }
  }

  /** When the parent acts: at once, or in a loop no sooner than the next sample is due. */
  ghost predicate ActsAt(s: State, a: Action, time: nat) {
    && time >= s.clock + a.delay
    && (s.parent.SampleBaseline? || s.parent.SampleWork? ==> time >= s.log.nextSample)
    && (time == s.clock + a.delay || (time == s.log.nextSample && (s.parent.SampleBaseline? || s.parent.SampleWork?)))
  }

  ghost predicate Sampled(s: State, e: State, stage: Stage, rss: int) {
    && e.log.samples == s.log.samples + [Sample(e.clock, stage, rss)]
    && (stage.Stabilize? ==> Trailing(e.log.window, s.log.window + [rss]))
    && (!stage.Stabilize? ==> e.log.window == s.log.window)
  }

  /** The last 200 of `values`, or all. */
  ghost predicate Trailing(window: seq<int>, values: seq<int>) {
    if |values| <= 200 then window == values else window == values[1..]
  }

  /** A sample is taken when the child is there, its memory can be read and the last sample is at most
      5 ms old; otherwise the parent gives up. */
  lemma SampleStep(s: State, a: Action)
    requires a.ParentStep? && !a.fault
    requires s.parent.SampleBaseline? || s.parent.SampleWork? || s.parent.SamplePost?
    ensures var e := Next(s, a);
            var last := |s.log.samples| - 1;
            var recent := last < 0 || e.clock <= s.log.samples[last].time + 5_000_000;
            && ActsAt(s, a, e.clock)
            && if !s.child.Exited? && a.rss > 0 && recent then
                 match s.parent
                 case SampleBaseline => e.parent == PollBaseline && Sampled(s, e, Stabilize, a.rss)
                 case SampleWork => e.parent == PollWork && Sampled(s, e, Measure, a.rss)
                 case _ => e.parent == SendAck && Sampled(s, e, PostEnd, a.rss)
               else e.parent == Failing && e.log == s.log
  {
  }

  /** Without a message the parent goes on sampling, 2 ms after the last sample, until the memory has
      settled or the deadline has passed. */
  lemma QuietPollStep(s: State, a: Action)
    requires a.ParentStep? && !a.fault && s.log.samples != []
    requires s.parent.PollBaseline? || s.parent.PollWork?
    requires !s.child.Exited? && (s.mail.accepted >= |s.mail.said| || !a.arrived)
    ensures var e := Next(s, a);
            var last := s.log.samples[|s.log.samples| - 1].time;
            if s.parent.PollBaseline? && Steady(s.log.window) then e.parent == SendStart && e.log == s.log
            else if last >= s.log.deadline then e.parent == Failing && e.log == s.log
            else e.log == s.log.(nextSample := last + 2_000_000)
                 && e.parent == if s.parent.PollBaseline? then SampleBaseline else SampleWork
  {
  }

  /** The memory has 10 s to settle from the child's word on, and the workload 900 s from START on;
      each stage begins with a sample at once. */
  lemma StageStarts(s: State, a: Action)
    requires a.ParentStep? && !a.fault
    ensures var e := Next(s, a);
            && (s.parent.AwaitBaseline? && a.arrived && s.mail.accepted < |s.mail.said|
                && s.mail.said[s.mail.accepted].BaselineReady? ==>
                  && e.parent == SampleBaseline && e.clock == s.clock + a.delay
                  && e.log == s.log.(deadline := e.clock + 10_000_000_000, nextSample := e.clock))
            && (s.parent.SendStart? ==>
                  && e.parent == SampleWork && e.clock == s.clock + a.delay && e.mail.told == s.mail.told + [Start]
                  && e.log == s.log.(startMarker := e.clock, deadline := e.clock + 900_000_000_000,
                                     nextSample := e.clock, settled := |s.log.samples|))
  {
  }

  /** A message has arrived whole for the side that listens. */
  ghost predicate HasMessage(sent: seq<Event>, taken: nat, arrived: bool) {
    taken < |sent| && arrived
  }

  /** The parent takes the message it waits for; it gives up on any other, and when the child has
      ended with nothing left to say. */
  lemma ListenStep(s: State, a: Action)
    requires a.ParentStep? && !a.fault
    requires s.parent.AwaitReady? || s.parent.AwaitBaseline? || s.parent.PollBaseline? || s.parent.PollWork?
    ensures var e := Next(s, a);
            var m := s.mail;
            && (HasMessage(m.said, m.accepted, a.arrived) ==>
                  if Expected(s.parent, m.said[m.accepted]) then
                    e.parent == PhaseAfter(s.parent) && e.mail == m.(accepted := m.accepted + 1)
                  else e.parent == Failing && e.mail == m)
            && (m.accepted >= |m.said| && s.child.Exited? ==> e.parent == Failing && e.mail == m)
            && (!HasMessage(m.said, m.accepted, a.arrived) && !s.child.Exited? ==> e.mail == m)
  {
  }

  ghost predicate Expected(p: ParentPhase, e: Event) {
    (p.AwaitReady? && e == Ready(true)) || (p.AwaitBaseline? && e == BaselineReady) || (p.PollWork? && e.End?)
  }

  ghost function PhaseAfter(p: ParentPhase): ParentPhase {
    if p.AwaitReady? then AwaitBaseline else if p.AwaitBaseline? then SampleBaseline else SamplePost
  }

  /** A parent that fails ends the child by a signal, unless it has ended itself. */
  lemma GivingUpStep(s: State, a: Action)
    requires a.ParentStep? && !s.parent.Measured? && !s.parent.Failed?
    ensures a.fault && !s.parent.Failing? ==> Next(s, a).parent == Failing && Next(s, a).child == s.child
    ensures s.parent.Failing? ==>
              && Next(s, a).parent == Failed
              && Next(s, a).child == if s.child.Exited? then s.child else Exited(-15)
  {
  }

  /** How a child fails: it reports the error unless it cannot, and exits with code 1. */
  ghost predicate Crashed(s: State, e: State, muted: bool) {
    e.child == Exited(1) && e.mail == if muted then s.mail else s.mail.(said := s.mail.said + [Error])
  }

  /** A waiting child goes on with the message it waits for, and fails on any other and when the parent
      has gone; else it waits on. */
  lemma ChildWaitStep(s: State, a: Action)
    requires a.ChildStep? && !a.fault && (s.child.AwaitStart? || s.child.AwaitAck?)
    ensures var e := Next(s, a);
            var m := s.mail;
            var expected := if s.child.AwaitStart? then Start else Ack;
            && (HasMessage(m.told, m.heard, a.arrived) ==>
                  if m.told[m.heard] == expected then
                    && e.child == (if s.child.AwaitStart? then Working else Exited(0))
                    && e.mail == m.(heard := m.heard + 1)
                  else Crashed(s, e, a.muted))
            && (m.heard >= |m.told| && (s.parent.Measured? || s.parent.Failed?) ==> Crashed(s, e, a.muted))
            && (m.heard >= |m.told| && !s.parent.Measured? && !s.parent.Failed? ==> e.child == s.child && e.mail == m)
            && (m.heard < |m.told| && !a.arrived ==> e.child == s.child && e.mail == m)
  {
  }

  lemma ChildFaultStep(s: State, a: Action)
    requires a.ChildStep? && a.fault && !s.child.Exited?
    ensures Crashed(s, Next(s, a), a.muted)
  {
  }
}
