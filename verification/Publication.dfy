/** Create-once publication of an archive and its digest by hard links, with rollback, as a step
    model of any number of concurrent writers. Each `os.link` and `unlink` is one step. */
module Publication {
  import opened Results

  /** How a step may go wrong: with an exception that `except Exception` catches, or with an
      interrupt that it does not. An interrupt that arrives just after a link is one of the
      writer's next step. */
  datatype Fault = NoFault | Failure | Interrupt

  /** Where a writer stands in its `try` block, its handler or its `finally` block. */
  datatype Phase =
    | Linking | RollingBack
    | CleaningZip(succeeded: bool) | CleaningSidecar(succeeded: bool)
    | Done(succeeded: bool)

  /** `owned` counts the targets the writer has linked and not unlinked: none, the archive, or the
      archive and its digest. The flags tell which of its temporary files exist. */
  datatype Writer = Writer(phase: Phase, owned: nat, zipTemp: bool, sidecarTemp: bool)

  /** The two targets, each absent or linked to some writer's temporary file, and the writers. */
  datatype State = State(zip: Option<nat>, digest: Option<nat>, writers: seq<Writer>)

  const NEW_WRITER := Writer(Linking, 0, true, true)

  ghost predicate Initial(s: State) {
    && s.zip == None && s.digest == None
    && forall w :: 0 <= w < |s.writers| ==> s.writers[w] == Writer(Linking, 0, true, true)
  }

  function Set(s: State, w: nat, me: Writer): State
    requires w < |s.writers|
  {
    s.(writers := s.writers[w := me])
  }

  /** A link fails when its target exists, too. With both links made, the checks are next. */
  function TryNext(s: State, w: nat, fault: Fault): State
    requires w < |s.writers|
  {
    var me := s.writers[w];
    if fault.Interrupt? then Set(s, w, me.(phase := CleaningZip(false)))
    else if fault.Failure? then Set(s, w, me.(phase := RollingBack))
    else if me.owned == 0 && s.zip.None? then Set(s.(zip := Some(w)), w, me.(owned := 1))
    else if me.owned == 1 && s.digest.None? then Set(s.(digest := Some(w)), w, me.(owned := 2))
    else if me.owned == 2 then Set(s, w, me.(phase := CleaningZip(true)))
    else Set(s, w, me.(phase := RollingBack))
  }

  /** The handler unlinks newest first; an unlink that fails ends it. */
  function RollBackNext(s: State, w: nat, fault: Fault): State
    requires w < |s.writers|
  {
    var me := s.writers[w];
    if me.owned == 0 || !fault.NoFault? then Set(s, w, me.(phase := CleaningZip(false)))
    else if me.owned == 2 then Set(s.(digest := None), w, me.(owned := 1))
    else Set(s.(zip := None), w, me.(owned := 0))
  }

  /** One step of writer `w`. An unlink removes whatever the path names. */
  function Next(s: State, w: nat, fault: Fault): State {
    if w >= |s.writers| then s
    else
      var me := s.writers[w];
      match me.phase
      case Linking => TryNext(s, w, fault)
      case RollingBack => RollBackNext(s, w, fault)
      case CleaningZip(ok) =>
        Set(s, w, if fault.NoFault? then me.(zipTemp := false, phase := CleaningSidecar(ok))
                  else me.(phase := Done(false)))
      case CleaningSidecar(ok) =>
        Set(s, w, if fault.NoFault? then me.(sidecarTemp := false, phase := Done(ok))
                  else me.(phase := Done(false)))
      case Done(_) => s
  }

  datatype Action = Action(writer: nat, fault: Fault)

  /** The state a run ends in. */
  function Run(s: State, actions: seq<Action>): State
    ensures |Run(s, actions).writers| == |s.writers|
  {
    if actions == [] then s
    else
      var last := actions[|actions| - 1];
      Next(Run(s, actions[..|actions| - 1]), last.writer, last.fault)
  }

  // ----- What every run keeps

  predicate Orderly(me: Writer) {
    && me.owned <= 2
    && (me.phase.CleaningZip? || me.phase.CleaningSidecar? || me.phase.Done? ==>
          (me.phase.succeeded ==> me.owned == 2))
    && (me.phase == Done(true) ==> !me.zipTemp && !me.sidecarTemp)
    && (me.phase.CleaningSidecar? ==> !me.zipTemp)
  }

  /** A target belongs to a writer exactly while the writer counts it as its own. */
  ghost predicate Consistent(s: State) {
    && (forall w: nat :: s.zip == Some(w) <==> w < |s.writers| && s.writers[w].owned >= 1)
    && (forall w: nat :: s.digest == Some(w) <==> w < |s.writers| && s.writers[w].owned >= 2)
    && (forall w :: 0 <= w < |s.writers| ==> Orderly(s.writers[w]))
  }

  /** A target changes hands only with the count of writer `w`: it appears as its own or was its
      own and disappears. */
  predicate OwnMove(w: nat, before: Option<nat>, after: Option<nat>, owned: bool, owns: bool) {
    || (after == before && owns == owned)
    || (before == None && after == Some(w) && owns && !owned)
    || (before == Some(w) && after == None && !owns && owned)
  }

  /** What one step of `w` changes: its own record, and targets only as its own. */
  ghost predicate Local(s: State, w: nat, t: State)
    requires w < |s.writers|
  {
    && |t.writers| == |s.writers| && t.writers == s.writers[w := t.writers[w]]
    && Orderly(t.writers[w])
    && OwnMove(w, s.zip, t.zip, s.writers[w].owned >= 1, t.writers[w].owned >= 1)
    && OwnMove(w, s.digest, t.digest, s.writers[w].owned >= 2, t.writers[w].owned >= 2)
  }

  ghost predicate KnowsOwn(s: State, w: nat)
    requires w < |s.writers|
  {
    && Orderly(s.writers[w])
    && (s.zip == Some(w) <==> s.writers[w].owned >= 1)
    && (s.digest == Some(w) <==> s.writers[w].owned >= 2)
  }

  lemma TryIsLocal(s: State, w: nat, fault: Fault)
    requires w < |s.writers| && KnowsOwn(s, w) && s.writers[w].phase.Linking?
    ensures Local(s, w, TryNext(s, w, fault))
  {
  }

  lemma RollBackIsLocal(s: State, w: nat, fault: Fault)
    requires w < |s.writers| && KnowsOwn(s, w) && s.writers[w].phase.RollingBack?
    ensures Local(s, w, RollBackNext(s, w, fault))
  {
  }

  lemma StepIsLocal(s: State, w: nat, fault: Fault, t: State)
    requires w < |s.writers| && KnowsOwn(s, w) && t == Next(s, w, fault)
    ensures Local(s, w, t)
  {
    match s.writers[w].phase
    case Linking => TryIsLocal(s, w, fault);
    case RollingBack => RollBackIsLocal(s, w, fault);
    case _ =>
  }

  lemma NextIsConsistent(s: State, w: nat, fault: Fault, t: State)
    requires Consistent(s) && t == Next(s, w, fault)
    ensures Consistent(t)
  {
    if w < |s.writers| {
      assert s.zip == Some(w) <==> s.writers[w].owned >= 1;
      assert s.digest == Some(w) <==> s.writers[w].owned >= 2;
      StepIsLocal(s, w, fault, t);
      LocalStepIsConsistent(s, w, t);
    }
  }

  lemma LocalStepIsConsistent(s: State, w: nat, t: State)
    requires Consistent(s) && w < |s.writers| && Local(s, w, t)
    ensures Consistent(t)
  {
    forall v: nat ensures t.zip == Some(v) <==> v < |t.writers| && t.writers[v].owned >= 1 {
      assert s.zip == Some(v) <==> v < |s.writers| && s.writers[v].owned >= 1;
    }
    forall v: nat ensures t.digest == Some(v) <==> v < |t.writers| && t.writers[v].owned >= 2 {
      assert s.digest == Some(v) <==> v < |s.writers| && s.writers[v].owned >= 2;
    }
  }

  lemma {:induction false} RunIsConsistent(s: State, actions: seq<Action>)
    requires Consistent(s)
    ensures Consistent(Run(s, actions))
  {
    if actions != [] {
      var last := actions[|actions| - 1];
      RunIsConsistent(s, actions[..|actions| - 1]);
      NextIsConsistent(Run(s, actions[..|actions| - 1]), last.writer, last.fault, Run(s, actions));
    }
  }

  /** Safety of every interleaving of any number of writers, with faults of any kind anywhere: a
      digest comes with the archive of the same writer, a success has both targets and no
      temporary file, and at most one writer succeeds. */
  lemma PublicationIsSafe(s: State, actions: seq<Action>)
    requires Initial(s)
    ensures var e := Run(s, actions);
            && (e.digest.Some? ==> e.zip == e.digest)
            && (forall w: nat :: w < |e.writers| && e.writers[w].phase == Done(true) ==>
                  && e.zip == Some(w) && e.digest == Some(w)
                  && !e.writers[w].zipTemp && !e.writers[w].sidecarTemp)
            && (forall v: nat, w: nat ::
                  (v < |e.writers| && e.writers[v].phase == Done(true) &&
                   w < |e.writers| && e.writers[w].phase == Done(true)) ==> v == w)
  {
    RunIsConsistent(s, actions);
    var e := Run(s, actions);
    if e.digest.Some? {
      assert e.digest == Some(e.digest.value);
      assert e.zip == Some(e.digest.value);
    }
    forall w: nat | w < |e.writers| && e.writers[w].phase == Done(true)
      ensures e.zip == Some(w) && e.digest == Some(w)
    {
      assert Orderly(e.writers[w]);
    }
  }

  /** A step never touches a target of another writer, and a writer that checks its publication
      looks at its own two files. */
  lemma NobodyRemovesAnothersFile(s: State, actions: seq<Action>, w: nat, fault: Fault)
    requires Initial(s) && w < |s.writers|
    ensures var before := Run(s, actions);
            var after := Next(before, w, fault);
            && (before.zip != after.zip ==> before.zip == None || before.zip == Some(w))
            && (before.digest != after.digest ==> before.digest == None || before.digest == Some(w))
            && (before.writers[w].owned == 2 ==> before.zip == Some(w) && before.digest == Some(w))
            && (before.writers[w].owned == 1 ==> before.zip == Some(w) && before.digest == None)
  {
    RunIsConsistent(s, actions);
    var before := Run(s, actions);
    assert before.zip == Some(w) <==> before.writers[w].owned >= 1;
    assert before.digest == Some(w) <==> before.writers[w].owned >= 2;
    if before.digest.Some? {
      assert before.digest == Some(before.digest.value);
      assert before.zip == Some(before.digest.value);
    }
  }

  /** What a writer that is done has left is permanent, a published pair above all. */
  lemma {:induction false} DoneIsPermanent(s: State, actions: seq<Action>, more: seq<Action>, w: nat)
    requires Initial(s) && w < |s.writers|
    requires Run(s, actions).writers[w].phase.Done?
    ensures var d := Run(s, actions);
            var e := Run(d, more);
            && Consistent(e) && e.writers[w] == d.writers[w]
            && (d.zip == Some(w) <==> e.zip == Some(w)) && (d.digest == Some(w) <==> e.digest == Some(w))
    decreases |more|
  {
    RunIsConsistent(s, actions);
    if more != [] {
      var last := more[|more| - 1];
      var d := Run(s, actions);
      var before, after := Run(d, more[..|more| - 1]), Run(d, more);
      DoneIsPermanent(s, actions, more[..|more| - 1], w);
      NextIsConsistent(before, last.writer, last.fault, after);
      if last.writer < |s.writers| && last.writer != w {
        assert before.zip == Some(last.writer) <==> before.writers[last.writer].owned >= 1;
        assert before.digest == Some(last.writer) <==> before.writers[last.writer].owned >= 2;
        StepIsLocal(before, last.writer, last.fault, after);
      }
      assert before.zip == Some(w) <==> before.writers[w].owned >= 1;
      assert after.zip == Some(w) <==> after.writers[w].owned >= 1;
      assert before.digest == Some(w) <==> before.writers[w].owned >= 2;
      assert after.digest == Some(w) <==> after.writers[w].owned >= 2;
    }
  }

  // ----- What a failed writer leaves behind

  /** The faults after which a writer leaves files: an interrupt with something linked, a failing
      unlink in the handler, and a failing cleanup after a success. */
  predicate LeavesFiles(me: Writer, fault: Fault) {
    && !fault.NoFault?
    && match me.phase
       case Linking => me.owned > 0 && fault.Interrupt?
       case RollingBack => me.owned > 0
       case CleaningZip(ok) => ok
       case CleaningSidecar(ok) => ok
       case Done(_) => false
  }

  /** Whether such a fault has befallen writer `w` in a run. */
  ghost predicate Left(s: State, actions: seq<Action>, w: nat)
    requires w < |s.writers|
  {
    actions != [] &&
    var before, last := actions[..|actions| - 1], actions[|actions| - 1];
    Left(s, before, w) || (last.writer == w && LeavesFiles(Run(s, before).writers[w], last.fault))
  }

  predicate Accounted(me: Writer, left: bool) {
    match me.phase
    case Linking => !left
    case RollingBack => !left
    case CleaningZip(ok) => if ok then !left else left == (me.owned > 0)
    case CleaningSidecar(ok) => if ok then !left else left == (me.owned > 0)
    case Done(ok) => if ok then !left else left == (me.owned > 0)
  }

  lemma {:induction false} RunIsAccounted(s: State, actions: seq<Action>, w: nat)
    requires Consistent(s) && w < |s.writers| && s.writers[w].phase.Linking?
    ensures Accounted(Run(s, actions).writers[w], Left(s, actions, w))
  {
    if actions != [] {
      var before, last := actions[..|actions| - 1], actions[|actions| - 1];
      RunIsAccounted(s, before, w);
      RunIsConsistent(s, before);
      if last.writer == w {
        StepIsAccounted(Run(s, before), w, last.fault, Left(s, before, w));
      } else {
        OthersKeepRecord(Run(s, before), w, last.writer, last.fault);
      }
    }
  }

  lemma StepIsAccounted(s: State, w: nat, fault: Fault, left: bool)
    requires w < |s.writers| && Orderly(s.writers[w]) && Accounted(s.writers[w], left)
    ensures Accounted(Next(s, w, fault).writers[w], left || LeavesFiles(s.writers[w], fault))
  {
  }

  lemma OthersKeepRecord(s: State, w: nat, v: nat, fault: Fault)
    requires w < |s.writers| && v != w
    ensures Next(s, v, fault).writers[w] == s.writers[w]
  {
  }

  /** A writer that failed has left a file of its own exactly if one of those faults befell it. */
  lemma FailureLeavesNothingExactly(s: State, actions: seq<Action>, w: nat)
    requires Initial(s) && w < |s.writers| && Run(s, actions).writers[w].phase == Done(false)
    ensures var e := Run(s, actions);
            e.zip != Some(w) && e.digest != Some(w) <==> !Left(s, actions, w)
  {
    RunIsConsistent(s, actions);
    RunIsAccounted(s, actions, w);
    var e := Run(s, actions);
    assert e.zip == Some(w) <==> e.writers[w].owned >= 1;
  }

  const LONE_WRITER := State(None, None, [NEW_WRITER])

  lemma AddStep(actions: seq<Action>, fault: Fault) returns (more: seq<Action>)
    ensures more == actions + [Action(0, fault)]
    ensures Run(LONE_WRITER, more) == Next(Run(LONE_WRITER, actions), 0, fault)
  {
    more := actions + [Action(0, fault)];
    assert more[..|actions|] == actions;
  }

  /** Both endings happen. An interrupt after the first link leaves the archive without its digest;
      an exception at the same point leaves nothing. */
  lemma FailuresHappen() returns (interrupted: seq<Action>, failed: seq<Action>)
    ensures Initial(LONE_WRITER)
    ensures Run(LONE_WRITER, interrupted) == State(Some(0), None, [Writer(Done(false), 1, false, false)])
    ensures Run(LONE_WRITER, failed) == State(None, None, [Writer(Done(false), 0, false, false)])
    ensures Left(LONE_WRITER, interrupted, 0) && !Left(LONE_WRITER, failed, 0)
  {
    var linked := AddStep([], NoFault);
    interrupted := AddStep(linked, Interrupt);
    interrupted := AddStep(interrupted, NoFault);
    interrupted := AddStep(interrupted, NoFault);
    failed := AddStep(linked, Failure);
    failed := AddStep(failed, NoFault);
    failed := AddStep(failed, NoFault);
    failed := AddStep(failed, NoFault);
    failed := AddStep(failed, NoFault);
    FailureLeavesNothingExactly(LONE_WRITER, interrupted, 0);
    FailureLeavesNothingExactly(LONE_WRITER, failed, 0);
  }

  // ----- Finished runs

  ghost predicate Faultless(actions: seq<Action>) {
    forall k :: 0 <= k < |actions| ==> actions[k].fault.NoFault?
  }

  /** Without faults only a writer that has linked nothing gives up, and only once the archive
      exists; temporary files go on time. */
  ghost predicate Progressing(s: State) {
    && (forall w :: 0 <= w < |s.writers| ==> (s.writers[w].phase.RollingBack? ==> s.writers[w].owned == 0))
    && (s.zip.None? ==> forall w :: 0 <= w < |s.writers| ==> s.writers[w].phase.Linking?)
    && (forall w :: 0 <= w < |s.writers| ==>
          (s.writers[w].phase.Done? ==> !s.writers[w].zipTemp && !s.writers[w].sidecarTemp))
  }

  lemma FaultlessStepProgresses(s: State, w: nat)
    requires Consistent(s) && Progressing(s) && w < |s.writers|
    ensures Progressing(Next(s, w, NoFault))
  {
    var me := s.writers[w];
    assert Orderly(me);
    assert s.zip == Some(w) <==> me.owned >= 1;
  }

  lemma {:induction false} FaultlessRunProgresses(s: State, actions: seq<Action>)
    requires Initial(s) && Faultless(actions)
    ensures Progressing(Run(s, actions))
  {
    if actions != [] {
      var before, last := actions[..|actions| - 1], actions[|actions| - 1];
      FaultlessRunProgresses(s, before);
      RunIsConsistent(s, before);
      if last.writer < |s.writers| {
        FaultlessStepProgresses(Run(s, before), last.writer);
      }
    }
  }

  /** When every writer is done: if none has left files behind, either one has published both files
      or both targets are absent; without any fault one has published and no temporary file is
      left. */
  lemma FinishedRun(s: State, actions: seq<Action>)
    requires Initial(s) && |s.writers| > 0
    requires forall w :: 0 <= w < |s.writers| ==> Run(s, actions).writers[w].phase.Done?
    ensures var e := Run(s, actions);
            && ((forall w :: 0 <= w < |s.writers| ==> !Left(s, actions, w)) ==>
                  && e.zip == e.digest
                  && (e.zip.Some? ==> e.zip.value < |e.writers| && e.writers[e.zip.value].phase == Done(true)))
            && (Faultless(actions) ==>
                  && e.zip.Some? && e.zip == e.digest
                  && forall w :: 0 <= w < |e.writers| ==> !e.writers[w].zipTemp && !e.writers[w].sidecarTemp)
  {
    PublicationIsSafe(s, actions);
    RunIsConsistent(s, actions);
    var e := Run(s, actions);
    if forall w :: 0 <= w < |s.writers| ==> !Left(s, actions, w) {
      NothingLeftMeansPair(s, actions);
    }
    if Faultless(actions) {
      FaultlessRunProgresses(s, actions);
      FaultlessLeavesNothing(s, actions);
      NothingLeftMeansPair(s, actions);
      assert !e.writers[0].phase.Linking?;
    }
  }

  lemma NothingLeftMeansPair(s: State, actions: seq<Action>)
    requires Initial(s)
    requires forall w :: 0 <= w < |s.writers| ==> Run(s, actions).writers[w].phase.Done? && !Left(s, actions, w)
    ensures var e := Run(s, actions);
            && e.zip == e.digest
            && (e.zip.Some? ==> e.zip.value < |e.writers| && e.writers[e.zip.value].phase == Done(true))
  {
    PublicationIsSafe(s, actions);
    RunIsConsistent(s, actions);
    var e := Run(s, actions);
    if e.zip.Some? {
      var w := e.zip.value;
      assert e.zip == Some(w);
      RunIsAccounted(s, actions, w);
      assert Orderly(e.writers[w]);
      assert e.digest == Some(w);
    }
  }

  lemma {:induction false} FaultlessLeavesNothing(s: State, actions: seq<Action>)
    requires Faultless(actions)
    ensures forall w :: 0 <= w < |s.writers| ==> !Left(s, actions, w)
  {
    if actions != [] {
      FaultlessLeavesNothing(s, actions[..|actions| - 1]);
    }
  }

  // ----- One writer among others

  datatype Target = Zip | Digest

  /** Steps of other writers only. */
  ghost predicate Foreign(w: nat, actions: seq<Action>) {
    forall k :: 0 <= k < |actions| ==> actions[k].writer != w
  }

  lemma {:induction false} ForeignStepsKeepRecord(s: State, w: nat, actions: seq<Action>)
    requires w < |s.writers| && Foreign(w, actions)
    ensures Run(s, actions).writers[w] == s.writers[w]
  {
    if actions != [] {
      ForeignStepsKeepRecord(s, w, actions[..|actions| - 1]);
      var before, last := actions[..|actions| - 1], actions[|actions| - 1];
      OthersKeepRecord(Run(s, before), w, last.writer, last.fault);
    }
  }

  lemma {:induction false} RunAppends(s: State, actions: seq<Action>, more: seq<Action>)
    ensures Run(s, actions + more) == Run(Run(s, actions), more)
    decreases |more|
  {
    if more == [] {
      assert actions + more == actions;
    } else {
      RunAppends(s, actions, more[..|more| - 1]);
      assert (actions + more)[..|actions + more| - 1] == actions + more[..|more| - 1];
    }
  }

  /** A run goes on with steps of other writers and one more step. */
  ghost function Extend(start: State, steps: seq<Action>, others: seq<Action>, step: Action): (r: seq<Action>)
    ensures Run(start, r) == Next(Run(Run(start, steps), others), step.writer, step.fault)
  {
    RunAppends(start, steps, others);
    var before := steps + others;
    assert (before + [step])[..|before|] == before;
    before + [step]
  }

  /** The archive is linked before its digest. */
  predicate InOrder(published: seq<Target>) {
    && |published| <= 2
    && (|published| > 0 ==> published[0] == Zip)
    && (|published| > 1 ==> published[1] == Digest)
  }

  /** Where an operation of the `try` block leads: on, to the handler, or past it. */
  function PhaseAfter(outcome: Fault, onward: Phase): Phase {
    match outcome
    case NoFault => onward
    case Failure => RollingBack
    case Interrupt => CleaningZip(false)
  }

  /** The output directory as the writers change it. Before each of its operations a writer meets
      the steps others have taken, and each operation may fail. */
  class Directory {
    var zip: Option<nat>
    var digest: Option<nat>
    var writers: seq<Writer>

    function View(): State
      reads this
    {
      State(zip, digest, writers)
    }

    /** Steps that other writers take in the meantime. */
    method Interfere(w: nat, others: seq<Action>)
      requires w < |writers| && Foreign(w, others)
      modifies this
      ensures View() == Run(old(View()), others)
      ensures |writers| == |old(writers)| && writers[w] == old(writers[w])
    {
      ForeignStepsKeepRecord(View(), w, others);
      var after := Run(View(), others);
      zip, digest, writers := after.zip, after.digest, after.writers;
    }

    /** Creates the target from the writer's temporary file, unless the target exists. */
    method Link(target: Target, w: nat, fault: Fault) returns (outcome: Fault)
      requires w < |writers| && writers[w].phase.Linking? && writers[w].owned == if target.Zip? then 0 else 1
      modifies this
      ensures View() == Next(old(View()), w, fault)
      ensures outcome == if fault.NoFault? && old(if target.Zip? then zip else digest).Some? then Failure else fault
      ensures |writers| == |old(writers)|
      ensures writers[w] == old(writers[w]).(
                phase := PhaseAfter(outcome, Linking), owned := writers[w].owned)
      ensures writers[w].owned == old(writers[w].owned) + if outcome.NoFault? then 1 else 0
    {
      var me := writers[w];
      var present := if target.Zip? then zip.Some? else digest.Some?;
      outcome := if fault.NoFault? && present then Failure else fault;
      if outcome.NoFault? {
        match target {
          case Zip => zip := Some(w);
          case Digest => digest := Some(w);
        }
        writers := writers[w := me.(owned := me.owned + 1)];
      } else {
        writers := writers[w := me.(phase := PhaseAfter(outcome, Linking))];
      }
    }

    /** Verifies the two published files and the repository state. */
    method Check(w: nat, fault: Fault)
      requires w < |writers| && writers[w].phase.Linking? && writers[w].owned == 2
      modifies this
      ensures View() == Next(old(View()), w, fault)
      ensures |writers| == |old(writers)|
      ensures writers[w] == old(writers[w]).(phase := PhaseAfter(fault, CleaningZip(true)))
    {
      writers := writers[w := writers[w].(phase := PhaseAfter(fault, CleaningZip(true)))];
    }

    method Unlink(target: Target, w: nat, fault: Fault)
      requires w < |writers| && writers[w].phase.RollingBack? && writers[w].owned == if target.Zip? then 1 else 2
      modifies this
      ensures View() == Next(old(View()), w, fault)
      ensures |writers| == |old(writers)|
      ensures writers[w] == if fault.NoFault? then old(writers[w]).(owned := if target.Zip? then 0 else 1)
                            else old(writers[w]).(phase := CleaningZip(false))
    {
      if fault.NoFault? {
        match target
        case Zip =>
          zip := None;
          writers := writers[w := writers[w].(owned := 0)];
        case Digest =>
          digest := None;
          writers := writers[w := writers[w].(owned := 1)];
      } else {
        writers := writers[w := writers[w].(phase := CleaningZip(false))];
      }
    }

    /** Links both targets and runs the checks, up to the first error; reports what it has linked. */
    method LinkAndCheck(w: nat, faults: nat -> Fault, others: nat -> seq<Action>)
      returns (outcome: Fault, published: seq<Target>, ghost steps: seq<Action>)
      requires w < |writers| && writers[w] == NEW_WRITER && forall k :: Foreign(w, others(k))
      modifies this
      ensures View() == Run(old(View()), steps) && w < |writers|
      ensures InOrder(published)
      ensures writers[w] == NEW_WRITER.(phase := PhaseAfter(outcome, CleaningZip(true)), owned := |published|)
      ensures outcome.NoFault? ==> faults(0).NoFault? && faults(1).NoFault? && faults(2).NoFault? && |published| == 2
      ensures others(0) == others(1) == [] && faults(0).NoFault? && faults(1).NoFault? && faults(2).NoFault? ==>
                (outcome.NoFault? <==> old(zip).None? && old(digest).None?)
    {
      published := [];
      Interfere(w, others(0));
      outcome := Link(Zip, w, faults(0));
      steps := Extend(old(View()), [], others(0), Action(w, faults(0)));
      if !outcome.NoFault? {
        return;
      }
      published := [Zip];
      Interfere(w, others(1));
      outcome := Link(Digest, w, faults(1));
      steps := Extend(old(View()), steps, others(1), Action(w, faults(1)));
      if !outcome.NoFault? {
        return;
      }
      published := [Zip, Digest];
      Interfere(w, others(2));
      Check(w, faults(2));
      outcome := faults(2);
      steps := Extend(old(View()), steps, others(2), Action(w, faults(2)));
    }

    /** Unlinks what was linked, newest first, up to the first unlink that fails. */
    method RollBack(w: nat, linked: seq<Target>, faults: nat -> Fault, others: nat -> seq<Action>)
      returns (ghost steps: seq<Action>)
      requires InOrder(linked) && forall k :: Foreign(w, others(k))
      requires w < |writers| && writers[w] == NEW_WRITER.(phase := RollingBack, owned := |linked|)
      modifies this
      ensures View() == Run(old(View()), steps) && w < |writers|
      ensures writers[w] == NEW_WRITER.(phase := CleaningZip(false), owned := writers[w].owned)
      ensures (forall k :: 1 <= k <= |linked| ==> faults(k).NoFault?) ==> writers[w].owned == 0
    {
      var published := linked;
      steps := [];
      while published != []
        invariant View() == Run(old(View()), steps) && w < |writers| && InOrder(published)
        invariant |published| <= |linked|
        invariant writers[w] == NEW_WRITER.(phase := RollingBack, owned := |published|)
      {
        var k := |published|;
        Interfere(w, others(k));
        Unlink(published[k - 1], w, faults(k));
        steps := Extend(old(View()), steps, others(k), Action(w, faults(k)));
        if !faults(k).NoFault? {
          return;
        }
        published := published[..k - 1];
      }
      Interfere(w, others(0));
      writers := writers[w := writers[w].(phase := CleaningZip(false))];
      steps := Extend(old(View()), steps, others(0), Action(w, NoFault));
    }

    /** Removes the next of the two temporary files. */
    method RemoveTemporary(w: nat, fault: Fault)
      requires w < |writers| && (writers[w].phase.CleaningZip? || writers[w].phase.CleaningSidecar?)
      modifies this
      ensures View() == Next(old(View()), w, fault) && |writers| == |old(writers)|
      ensures var me := old(writers[w]);
              writers[w] == if fault.Failure? || fault.Interrupt? then me.(phase := Done(false))
                            else if me.phase.CleaningZip? then
                              me.(zipTemp := false, phase := CleaningSidecar(me.phase.succeeded))
                            else me.(sidecarTemp := false, phase := Done(me.phase.succeeded))
    {
      var me := writers[w];
      if !fault.NoFault? {
        writers := writers[w := me.(phase := Done(false))];
      } else if me.phase.CleaningZip? {
        writers := writers[w := me.(zipTemp := false, phase := CleaningSidecar(me.phase.succeeded))];
      } else {
        writers := writers[w := me.(sidecarTemp := false, phase := Done(me.phase.succeeded))];
      }
    }

    /** The `finally` block: both temporary files go, unless the first cannot be removed. */
    method DropTemporaries(w: nat, succeeded: bool, faults: nat -> Fault, others: nat -> seq<Action>)
      returns (returned: bool, ghost steps: seq<Action>)
      requires w < |writers| && writers[w].phase == CleaningZip(succeeded) && forall k :: Foreign(w, others(k))
      modifies this
      ensures View() == Run(old(View()), steps) && w < |writers|
      ensures writers[w].phase == Done(returned) && writers[w].owned == old(writers[w].owned)
      ensures returned == (succeeded && faults(0).NoFault? && faults(1).NoFault?)
      ensures writers[w].zipTemp == (old(writers[w].zipTemp) && !faults(0).NoFault?)
      ensures writers[w].sidecarTemp ==
                (old(writers[w].sidecarTemp) && (!faults(0).NoFault? || !faults(1).NoFault?))
    {
      Interfere(w, others(0));
      RemoveTemporary(w, faults(0));
      steps := Extend(old(View()), [], others(0), Action(w, faults(0)));
      returned := false;
      if faults(0).NoFault? {
        Interfere(w, others(1));
        RemoveTemporary(w, faults(1));
        steps := Extend(old(View()), steps, others(1), Action(w, faults(1)));
        returned := succeeded && faults(1).NoFault?;
      }
    }

    /** The publish section of one writer among others. It is a run of the step model, so all that
        holds of runs holds of it: a normal return means that the pair is published, and anything
        else leaves a file exactly after one of the faults that leave files. */
    method Publish(w: nat, faults: nat -> nat -> Fault, others: nat -> nat -> seq<Action>)
      returns (returned: bool, ghost steps: seq<Action>)
      requires Consistent(View()) && w < |writers| && writers[w] == NEW_WRITER
      requires forall stage, k :: Foreign(w, others(stage)(k))
      modifies this
      ensures View() == Run(old(View()), steps) && w < |writers| && writers[w].phase == Done(returned)
      ensures returned ==> zip == Some(w) && digest == Some(w) && !writers[w].zipTemp && !writers[w].sidecarTemp
      ensures !returned ==> (zip != Some(w) && digest != Some(w) <==> !Left(old(View()), steps, w))
    {
      var outcome, published;
      outcome, published, steps := LinkAndCheck(w, faults(0), others(0));
      if outcome.Failure? {
        ghost var undo := RollBack(w, published, faults(1), others(1));
        RunAppends(old(View()), steps, undo);
        steps := steps + undo;
      }
      ghost var clean;
      returned, clean := DropTemporaries(w, outcome.NoFault?, faults(2), others(2));
      RunAppends(old(View()), steps, clean);
      steps := steps + clean;
      RunIsConsistent(old(View()), steps);
      RunIsAccounted(old(View()), steps, w);
      assert zip == Some(w) <==> writers[w].owned >= 1;
      assert digest == Some(w) <==> writers[w].owned >= 2;
      assert Orderly(writers[w]);
    }
  }
}
