/** The measurement handshake between a parent that samples memory and a child that runs the
    workload, as a step model. Messages travel in order in both directions (module LineChannel);
    steps of the two sides interleave in any way, take any time and may fail at any point. */
module Handshake {
  import opened Results

  const SAMPLE_INTERVAL_NS: nat := 2_000_000
  const MAX_SAMPLE_INTERVAL_NS: nat := 5_000_000
  const STABILITY_SAMPLE_COUNT: nat := 200
  const STABILITY_SPAN_KIB: nat := 1024
  const STABILITY_TIMEOUT_NS: nat := 10_000_000_000
  const WORKLOAD_TIMEOUT_NS: nat := 900_000_000_000

  /** `valid` says that the payload of READY has the shape the parent asks for. */
  datatype Event = Ready(valid: bool) | BaselineReady | End(maxRss: int) | Error | Start | Ack

  datatype ParentPhase =
    | AwaitReady | AwaitBaseline
    | SampleBaseline | PollBaseline
    | SendStart | SampleWork | PollWork
    | SamplePost | SendAck | Joining
    | Failing | Measured | Failed

  datatype ChildPhase = Setup | Settling | AwaitStart | Working | AwaitAck | Exited(code: int)

  // ----- Messages

  /** All that each side has sent, in order, and how much of it the other side has taken: the
      messages still under way are the rest. */
  datatype Mail = Mail(said: seq<Event>, accepted: nat, told: seq<Event>, heard: nat)
  {
    predicate ForParent() {
      accepted < |said|
    }

    predicate ForChild() {
      heard < |told|
    }

    function Say(e: Event): Mail {
      this.(said := said + [e])
    }

    function Accept(): Mail {
      this.(accepted := accepted + 1)
    }

    function Tell(e: Event): Mail {
      this.(told := told + [e])
    }

    function Hear(): Mail {
      this.(heard := heard + 1)
    }
  }

  // ----- Samples

  datatype Stage = Stabilize | Measure | PostEnd

  datatype Sample = Sample(time: nat, stage: Stage, rss: int)

  /** `settled` is history: how many samples there were when START was sent. */
  datatype Log = Log(
    samples: seq<Sample>,
    window: seq<int>,
    deadline: nat,
    nextSample: nat,
    startMarker: nat,
    settled: nat)
  {
    predicate OnTime(time: nat) {
      samples == [] || time - LastTime() <= MAX_SAMPLE_INTERVAL_NS
    }

    function LastTime(): nat {
      if samples == [] then 0 else samples[|samples| - 1].time
    }

    function Add(time: nat, stage: Stage, rss: int): Log {
      this.(samples := samples + [Sample(time, stage, rss)])
    }

    /** The sliding window keeps the newest values. */
    function Slide(rss: int): Log {
      var grown := window + [rss];
      this.(window := if |grown| > STABILITY_SAMPLE_COUNT then grown[1..] else grown)
    }

    function Begin(time: nat): Log {
      this.(startMarker := time, deadline := time + WORKLOAD_TIMEOUT_NS, nextSample := time, settled := |samples|)
    }

    function Wait(): Log {
      this.(nextSample := LastTime() + SAMPLE_INTERVAL_NS)
    }
  }

  function Max(w: seq<int>): int
    requires w != []
  {
    if |w| == 1 then w[0]
    else
      var rest := Max(w[1..]);
      if rest > w[0] then rest else w[0]
  }

  function Min(w: seq<int>): int
    requires w != []
  {
    if |w| == 1 then w[0]
    else
      var rest := Min(w[1..]);
      if rest < w[0] then rest else w[0]
  }

  predicate Steady(w: seq<int>) {
    |w| == STABILITY_SAMPLE_COUNT && Max(w) - Min(w) <= STABILITY_SPAN_KIB
  }

  // ----- States

  /** When the workload began and ended, as history. */
  datatype Work = Work(start: Option<nat>, end: Option<nat>)

  datatype State = State(clock: nat, parent: ParentPhase, child: ChildPhase, mail: Mail, log: Log, work: Work)

  function Initial(): State {
    State(0, AwaitReady, Setup, Mail([], 0, [], 0), Log([], [], 0, 0, 0, 0), Work(None, None))
  }

  /** One step of one side. `delay` is the time that passes first, `fault` any error or timeout,
      and `arrived` says that the bytes of the next message have all arrived. */
  datatype Action =
    | ParentStep(delay: nat, fault: bool, arrived: bool, rss: int)
    | ChildStep(delay: nat, fault: bool, arrived: bool, muted: bool, valid: bool, maxRss: int)

  // ----- The child

  predicate ParentClosed(s: State) {
    s.parent.Measured? || s.parent.Failed?
  }

  /** An error in the child: it reports it if it still can, and exits with a nonzero code. */
  function Crash(s: State, a: Action): State
    requires a.ChildStep?
  {
    s.(mail := if a.muted then s.mail else s.mail.Say(Error), child := Exited(1))
  }

  /** The child waits for one event and fails on any other, and when the parent has gone. */
  function HearOnly(s: State, a: Action, expected: Event, phase: ChildPhase): State
    requires a.ChildStep?
  {
    if s.mail.ForChild() && a.arrived then
      if s.mail.told[s.mail.heard] == expected then s.(mail := s.mail.Hear(), child := phase) else Crash(s, a)
    else if !s.mail.ForChild() && ParentClosed(s) then Crash(s, a)
    else s
  }

  function ChildAct(s: State, a: Action): State
    requires a.ChildStep?
  {
    if s.child.Exited? then s
    else if a.fault then Crash(s, a)
    else
      match s.child
      case Setup => s.(mail := s.mail.Say(Ready(a.valid)), child := Settling)
      case Settling => s.(mail := s.mail.Say(BaselineReady), child := AwaitStart)
      case AwaitStart =>
        var next := HearOnly(s, a, Start, Working);
        if next.child.Working? then next.(work := Work(Some(s.clock), None)) else next
      case Working =>
        s.(mail := s.mail.Say(End(a.maxRss)), child := AwaitAck, work := s.work.(end := Some(s.clock)))
      case AwaitAck => HearOnly(s, a, Ack, Exited(0))
  }

  // ----- The parent

  function Fail(s: State): State {
    s.(parent := Failing)
  }

  datatype Inbox = Nothing | Broken | Message(event: Event)

  function Incoming(s: State, a: Action): Inbox
    requires a.ParentStep?
  {
    if s.mail.ForParent() && a.arrived then Message(s.mail.said[s.mail.accepted])
    else if !s.mail.ForParent() && s.child.Exited? then Broken
    else Nothing
  }

  /** The first two messages are waited for. */
  function Await(s: State, a: Action): State
    requires a.ParentStep?
  {
    match Incoming(s, a)
    case Nothing => s
    case Broken => Fail(s)
    case Message(e) =>
      if s.parent.AwaitReady? && e == Ready(true) then s.(mail := s.mail.Accept(), parent := AwaitBaseline)
      else if s.parent.AwaitBaseline? && e == BaselineReady then
        s.(mail := s.mail.Accept(), parent := SampleBaseline,
           log := s.log.(deadline := s.clock + STABILITY_TIMEOUT_NS, nextSample := s.clock))
      else Fail(s)
  }

  /** Records a sample, unless the child's memory cannot be read or the sample comes too long after
      the one before. */
  function TakeSample(s: State, a: Action, stage: Stage, phase: ParentPhase): State
    requires a.ParentStep?
  {
    if s.child.Exited? || a.rss <= 0 || !s.log.OnTime(s.clock) then Fail(s)
    else
      var log := s.log.Add(s.clock, stage, a.rss);
      s.(log := if stage.Stabilize? then log.Slide(a.rss) else log, parent := phase)
  }

  /** After a sample the parent looks for a message; while the memory settles, any is an error. */
  function PollAfterBaseline(s: State, a: Action): State
    requires a.ParentStep?
  {
    if !Incoming(s, a).Nothing? then Fail(s)
    else if Steady(s.log.window) then s.(parent := SendStart)
    else if s.log.LastTime() >= s.log.deadline then Fail(s)
    else s.(log := s.log.Wait(), parent := SampleBaseline)
  }

  function PollAfterWork(s: State, a: Action): State
    requires a.ParentStep?
  {
    match Incoming(s, a)
    case Nothing =>
      if s.log.LastTime() >= s.log.deadline then Fail(s) else s.(log := s.log.Wait(), parent := SampleWork)
    case Broken => Fail(s)
    case Message(e) => if e.End? then s.(mail := s.mail.Accept(), parent := SamplePost) else Fail(s)
  }

  /** The child must have ended well, and END must carry a positive maximum. */
  function Join(s: State): State {
    if !s.child.Exited? then s
    else if s.child.code == 0 && |s.mail.said| > 2 && s.mail.said[2].End? && s.mail.said[2].maxRss > 0
    then s.(parent := Measured)
    else Fail(s)
  }

  /** Any error moves the parent to `Failing`, from where it ends the child and gives up. */
  function ParentAct(s: State, a: Action): State
    requires a.ParentStep?
  {
    if ParentClosed(s) then s
    else if s.parent.Failing? then
      s.(parent := Failed, child := if s.child.Exited? then s.child else Exited(-15))
    else if a.fault then Fail(s)
    else
      match s.parent
      case AwaitReady | AwaitBaseline => Await(s, a)
      case SampleBaseline => TakeSample(s, a, Stabilize, PollBaseline)
      case PollBaseline => PollAfterBaseline(s, a)
      case SendStart =>
        s.(mail := s.mail.Tell(Start), parent := SampleWork,
           log := s.log.Begin(s.clock))
      case SampleWork => TakeSample(s, a, Measure, PollWork)
      case PollWork => PollAfterWork(s, a)
      case SamplePost => TakeSample(s, a, PostEnd, SendAck)
      case SendAck => s.(mail := s.mail.Tell(Ack), parent := Joining)
      case Joining => Join(s)
  }

  // ----- Runs

  /** Before a loop's sample the parent sleeps until the sample is due. */
  function Wake(s: State, a: Action): nat {
    var now := s.clock + a.delay;
    if a.ParentStep? && (s.parent.SampleBaseline? || s.parent.SampleWork?) && s.log.nextSample > now
    then s.log.nextSample else now
  }

  function Next(before: State, a: Action): State {
    var s := before.(clock := Wake(before, a));
    if a.ParentStep? then ParentAct(s, a) else ChildAct(s, a)
  }

  ghost predicate StepAt(states: seq<State>, actions: seq<Action>, k: nat) {
    var next := k + 1;
    k < |actions| && next < |states| ==> states[next] == Next(states[k], actions[k])
  }

  /** A run: any steps of the two sides, in any order, from the initial state. */
  ghost predicate IsRun(states: seq<State>, actions: seq<Action>) {
    |states| == |actions| + 1 && states[0] == Initial() && forall k: nat :: StepAt(states, actions, k)
  }

  /** A state some run ends in. */
  ghost predicate Reachable(s: State) {
    exists states, actions :: IsRun(states, actions) && states[|actions|] == s
  }

  // ----- What both sides have said

  /** READY, BASELINE_READY and END in this order, as far as the parent has accepted them. */
  ghost predicate Report(m: Mail) {
    && m.accepted <= 3 && m.accepted <= |m.said|
    && (m.accepted > 0 ==> m.said[0] == Ready(true))
    && (m.accepted > 1 ==> m.said[1] == BaselineReady)
    && (m.accepted > 2 ==> m.said[2].End?)
  }

  ghost predicate Orders(m: Mail) {
    && |m.told| <= 2 && m.heard <= |m.told|
    && (|m.told| > 0 ==> m.told[0] == Start)
    && (|m.told| > 1 ==> m.told[1] == Ack)
  }

  ghost predicate ParentScript(p: ParentPhase, m: Mail) {
    match p
    case AwaitReady => m.accepted == 0 && |m.told| == 0
    case AwaitBaseline => m.accepted == 1 && |m.told| == 0
    case SampleBaseline | PollBaseline | SendStart => m.accepted == 2 && |m.told| == 0
    case SampleWork | PollWork => m.accepted == 2 && |m.told| == 1
    case SamplePost | SendAck => m.accepted == 3 && |m.told| == 1
    case Joining => m.accepted == 3 && |m.told| == 2
    case Measured => m.accepted == 3 == |m.said| && |m.told| == 2 && m.said[2].End? && m.said[2].maxRss > 0
    case Failing | Failed => true
  }

  ghost predicate ChildScript(c: ChildPhase, m: Mail) {
    match c
    case Setup => |m.said| == 0 && m.heard == 0
    case Settling => |m.said| == 1 && m.heard == 0
    case AwaitStart => |m.said| == 2 && m.heard == 0
    case Working => |m.said| == 2 && m.heard == 1
    case AwaitAck => |m.said| == 3 && m.heard == 1
    case Exited(code) => code == 0 ==> |m.said| == 3 && m.heard == 2
  }

  ghost predicate Talks(s: State) {
    && Report(s.mail) && Orders(s.mail) && ParentScript(s.parent, s.mail) && ChildScript(s.child, s.mail)
    && (s.parent.Measured? ==> s.child == Exited(0))
    && (s.parent.Failed? ==> s.child.Exited?)
  }

  lemma AwaitTalks(s: State, a: Action)
    requires Talks(s) && a.ParentStep? && (s.parent.AwaitReady? || s.parent.AwaitBaseline?)
    ensures Talks(Await(s, a))
  {
  }

  lemma PollTalks(s: State, a: Action)
    requires Talks(s) && a.ParentStep?
    ensures s.parent.PollBaseline? ==> Talks(PollAfterBaseline(s, a))
    ensures s.parent.PollWork? ==> Talks(PollAfterWork(s, a))
  {
  }

  lemma SampleTalks(s: State, a: Action)
    requires Talks(s) && a.ParentStep?
    ensures s.parent.SampleBaseline? ==> Talks(TakeSample(s, a, Stabilize, PollBaseline))
    ensures s.parent.SampleWork? ==> Talks(TakeSample(s, a, Measure, PollWork))
    ensures s.parent.SamplePost? ==> Talks(TakeSample(s, a, PostEnd, SendAck))
  {
  }

  lemma TellTalks(s: State, log: Log)
    requires Talks(s)
    ensures s.parent.SendStart? ==> Talks(s.(mail := s.mail.Tell(Start), parent := SampleWork, log := log))
    ensures s.parent.SendAck? ==> Talks(s.(mail := s.mail.Tell(Ack), parent := Joining))
    ensures s.parent.Joining? ==> Talks(Join(s))
  {
  }

  lemma FailTalks(s: State, a: Action)
    requires Talks(s) && a.ParentStep?
    requires a.fault || s.parent.Failing? || s.parent.Failed? || s.parent.Measured?
    ensures Talks(ParentAct(s, a))
  {
  }

  lemma ParentKeepsTalking(s: State, a: Action)
    requires Talks(s) && a.ParentStep?
    ensures Talks(ParentAct(s, a))
  {
    var p := s.parent;
    if a.fault || p.Failing? || p.Failed? || p.Measured? {
      FailTalks(s, a);
    } else if p.AwaitReady? || p.AwaitBaseline? {
      AwaitTalks(s, a);
    } else if p.SampleBaseline? || p.SampleWork? || p.SamplePost? {
      SampleTalks(s, a);
    } else if p.PollBaseline? || p.PollWork? {
      PollTalks(s, a);
    } else {
      TellTalks(s, ParentAct(s, a).log);
    }
  }

  lemma HearTalks(s: State, a: Action)
    requires Talks(s) && a.ChildStep?
    ensures s.child.AwaitStart? ==> Talks(HearOnly(s, a, Start, Working))
    ensures s.child.AwaitAck? ==> Talks(HearOnly(s, a, Ack, Exited(0)))
  {
  }

  lemma SayTalks(s: State, a: Action, work: Work)
    requires Talks(s) && a.ChildStep?
    ensures s.child.Setup? ==> Talks(s.(mail := s.mail.Say(Ready(a.valid)), child := Settling))
    ensures s.child.Settling? ==> Talks(s.(mail := s.mail.Say(BaselineReady), child := AwaitStart))
    ensures s.child.Working? ==> Talks(s.(mail := s.mail.Say(End(a.maxRss)), child := AwaitAck, work := work))
    ensures !s.child.Exited? ==> Talks(Crash(s, a))
  {
  }

  lemma ChildKeepsTalking(s: State, a: Action)
    requires Talks(s) && a.ChildStep?
    ensures Talks(ChildAct(s, a))
  {
    var r := ChildAct(s, a);
    HearTalks(s, a);
    SayTalks(s, a, r.work);
  }
}
