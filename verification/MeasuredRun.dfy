/** A run of the handshake that succeeds. */
module MeasuredRun {
  import opened Results
  import opened Handshake

  lemma NextIsReachable(s: State, a: Action)
    requires Reachable(s)
    ensures Reachable(Next(s, a))
  {
    var states, actions :| IsRun(states, actions) && states[|actions|] == s;
    var longer, more := states + [Next(s, a)], actions + [a];
    forall k: nat ensures StepAt(longer, more, k) {
      assert StepAt(states, actions, k);
    }
    assert IsRun(longer, more) && longer[|more|] == Next(s, a);
  }

  const GO := ParentStep(0, false, true, 1)
  const WORK := ChildStep(0, false, true, false, true, 1)

  /** The parent wakes up to sample, `gap` after the last sample. */
  function Sampling(k: nat, gap: nat): Action {
    ParentStep(if k == 0 then 0 else gap, false, true, 1)
  }

  /** `k` samples have been taken, `gap` apart, of an idle child whose memory does not change. */
  ghost predicate Idle(s: State, k: nat, gap: nat) {
    && s.child == AwaitStart && s.mail == Mail([Ready(true), BaselineReady], 2, [], 0)
    && s.work == Work(None, None)
    && |s.log.samples| == |s.log.window| == k && (forall i :: 0 <= i < k ==> s.log.window[i] == 1)
    && s.log.deadline == 10_000_000_000
    && forall i :: 0 <= i < k ==> s.log.samples[i].time == i * gap
  }

  ghost predicate IdleBeforeSample(s: State, k: nat, gap: nat) {
    && Idle(s, k, gap) && s.parent == SampleBaseline
    && s.clock == (if k == 0 then 0 else (k - 1) * gap)
    && s.log.nextSample == if k == 0 then 0 else (k - 1) * gap + 2_000_000
  }

  /** A pace the parent keeps to: no faster than it means to sample, no slower than it allows. */
  ghost predicate Allowed(gap: nat) {
    2_000_000 <= gap <= 5_000_000
  }

  lemma {:induction false} ConstantIsSteady(w: seq<int>)
    requires w != [] && forall i :: 0 <= i < |w| ==> w[i] == 1
    ensures Max(w) == 1 && Min(w) == 1
  {
    if |w| > 1 {
      ConstantIsSteady(w[1..]);
    }
  }

  lemma IdleSample(s: State, k: nat, gap: nat)
    requires k < 200 && IdleBeforeSample(s, k, gap) && Allowed(gap)
    ensures var e := Next(s, Sampling(k, gap));
            Idle(e, k + 1, gap) && e.parent == PollBaseline && e.clock == e.log.LastTime() == k * gap
  {
    assert k > 0 ==> (k - 1) * gap + gap == k * gap;
  }

  lemma IdlePoll(s: State, k: nat, gap: nat)
    requires 0 < k <= 200 && Idle(s, k, gap) && s.parent == PollBaseline && Allowed(gap)
    requires s.clock == s.log.LastTime() == (k - 1) * gap
    ensures k < 200 ==> IdleBeforeSample(Next(s, GO), k, gap)
    ensures k == 200 ==> Idle(Next(s, GO), k, gap) && Next(s, GO).parent == SendStart
    ensures Next(s, GO).clock == s.clock && Next(s, GO).log.samples == s.log.samples
  {
    ConstantIsSteady(s.log.window);
    PaceInTime(k - 1, gap);
  }

  lemma PaceInTime(k: nat, gap: nat)
    requires k < 200 && Allowed(gap)
    ensures k * gap < 10_000_000_000
  {
    assert (200 - k) * gap >= 0;
  }

  lemma SetupStep(s: State)
    requires s.child == Setup && s.mail == Mail([], 0, [], 0)
    ensures var e := Next(Next(s, WORK), WORK);
            e == s.(mail := Mail([Ready(true), BaselineReady], 0, [], 0), child := AwaitStart)
  {
    var e := Next(s, WORK);
    assert e == s.(mail := Mail([Ready(true)], 0, [], 0), child := Settling);
  }

  lemma AwaitSteps(s: State)
    requires s.parent == AwaitReady && s.mail == Mail([Ready(true), BaselineReady], 0, [], 0)
    requires s.child == AwaitStart && s.work == Work(None, None)
    requires s.clock == 0 && s.log.samples == [] && s.log.window == []
    ensures forall gap: nat :: IdleBeforeSample(Next(Next(s, GO), GO), 0, gap)
  {
    var e := Next(s, GO);
    assert e.parent == AwaitBaseline && e.mail == Mail([Ready(true), BaselineReady], 1, [], 0);
  }

  lemma {:induction false} IdleRun(k: nat, gap: nat) returns (s: State)
    requires k < 200 && Allowed(gap)
    ensures Reachable(s) && IdleBeforeSample(s, k, gap)
  {
    if k == 0 {
      s := Initial();
      assert IsRun([s], []);
      NextIsReachable(s, WORK);
      NextIsReachable(Next(s, WORK), WORK);
      SetupStep(s);
      s := s.(mail := Mail([Ready(true), BaselineReady], 0, [], 0), child := AwaitStart);
      NextIsReachable(s, GO);
      NextIsReachable(Next(s, GO), GO);
      AwaitSteps(s);
      s := Next(Next(s, GO), GO);
    } else {
      s := IdleRun(k - 1, gap);
      NextIsReachable(s, Sampling(k - 1, gap));
      IdleSample(s, k - 1, gap);
      s := Next(s, Sampling(k - 1, gap));
      NextIsReachable(s, GO);
      IdlePoll(s, k, gap);
      s := Next(s, GO);
    }
  }

  lemma SettledRun(gap: nat) returns (s: State)
    requires Allowed(gap)
    ensures Reachable(s) && Idle(s, 200, gap) && s.parent == SendStart && s.clock == 199 * gap
  {
    s := IdleRun(199, gap);
    NextIsReachable(s, Sampling(199, gap));
    IdleSample(s, 199, gap);
    s := Next(s, Sampling(199, gap));
    NextIsReachable(s, GO);
    IdlePoll(s, 200, gap);
    s := Next(s, GO);
  }

  /** The first 200 samples are `gap` apart. */
  ghost predicate SpacedBy(s: State, gap: nat) {
    |s.log.samples| >= 200 && forall i :: 0 <= i < 200 ==> s.log.samples[i].time == i * gap
  }

  lemma WorkloadRun(gap: nat) returns (s: State)
    requires Allowed(gap)
    ensures Reachable(s) && s.parent == SampleWork && s.child == AwaitAck && SpacedBy(s, gap)
    ensures s.mail == Mail([Ready(true), BaselineReady, End(1)], 2, [Start], 1)
    ensures s.log.samples != [] && s.log.LastTime() == s.log.nextSample == s.clock
  {
    s := SettledRun(gap);
    NextIsReachable(s, GO);
    s := Next(s, GO);
    assert s.parent == SampleWork && s.child == AwaitStart && s.mail.told == [Start];
    NextIsReachable(s, WORK);
    s := Next(s, WORK);
    assert s.child == Working && s.mail == Mail([Ready(true), BaselineReady], 2, [Start], 1);
    NextIsReachable(s, WORK);
    s := Next(s, WORK);
  }

  lemma ClosingSteps(s: State)
    requires s.parent == SampleWork && s.child == AwaitAck
    requires s.mail == Mail([Ready(true), BaselineReady, End(1)], 2, [Start], 1)
    requires s.log.samples != [] && s.log.LastTime() == s.log.nextSample == s.clock
    ensures var e := Next(Next(s, GO), GO);
            && e.parent == SamplePost && e.child == AwaitAck && e.clock == e.log.LastTime() && e.log.samples != []
            && e.mail == Mail([Ready(true), BaselineReady, End(1)], 3, [Start], 1)
            && s.log.samples <= e.log.samples
  {
    var e := Next(s, GO);
    assert e.parent == PollWork && e.child == AwaitAck && e.mail == s.mail && e.clock == e.log.LastTime();
  }

  lemma AckSteps(s: State)
    requires s.parent == SamplePost && s.child == AwaitAck && s.clock == s.log.LastTime() && s.log.samples != []
    requires s.mail == Mail([Ready(true), BaselineReady, End(1)], 3, [Start], 1)
    ensures var e := Next(Next(s, GO), GO);
            && e.parent == Joining && e.child == AwaitAck
            && e.mail == Mail([Ready(true), BaselineReady, End(1)], 3, [Start, Ack], 1)
            && s.log.samples <= e.log.samples
  {
    var e := Next(s, GO);
    assert e.parent == SendAck && e.child == AwaitAck && e.mail == s.mail;
  }

  /** The protocol can succeed at every pace it allows: some run whose baseline samples are `gap` apart
      ends in a measured result. */
  lemma MeasuredIsReachable(gap: nat)
    requires Allowed(gap)
    ensures exists s :: Reachable(s) && s.parent.Measured? && SpacedBy(s, gap)
  {
    var s := WorkloadRun(gap);
    NextIsReachable(s, GO);
    NextIsReachable(Next(s, GO), GO);
    ClosingSteps(s);
    s := Next(Next(s, GO), GO);
    NextIsReachable(s, GO);
    NextIsReachable(Next(s, GO), GO);
    AckSteps(s);
    s := Next(Next(s, GO), GO);
    NextIsReachable(s, WORK);
    s := Next(s, WORK);
    assert s.child == Exited(0) && s.parent == Joining;
    NextIsReachable(s, GO);
    s := Next(s, GO);
    assert Reachable(s) && s.parent.Measured? && SpacedBy(s, gap);
  }
}
