/** Where the touch state seen by the UI loop comes from, over whole runs: which
    sample a polled point or edge belongs to, what a memory skip demands before
    the hold counts again, and what happens between two polls. */
module TouchHistory {
  import opened Wrappers
  import opened TouchInput
  import opened ResetGates
  import opened ResetPipeline
  import HitTest

  ghost predicate ContactSampleAt(init: State, run: seq<Event>, a: nat)
    requires a < |run|
  {
    && run[a].Sample? && IsContact(run[a].sample)
    && After(init, run, a).touch.portStarted && After(init, run, a).touch.model.Some?
  }

  ghost predicate ReleaseSampleAt(init: State, run: seq<Event>, a: nat)
    requires a < |run|
  {
    && run[a].Sample? && run[a].sample.status.NoContact?
    && After(init, run, a).touch.portStarted && After(init, run, a).touch.model.Some?
  }

  /** No calibration change took effect from event a on, up to event n. */
  ghost predicate SameCalibration(init: State, run: seq<Event>, a: nat, n: nat)
    requires a <= n <= |run|
  {
    forall m :: a <= m < n && run[m].Calibrate? ==> After(init, run, m).touch.portStarted && !run[m].locked
  }

  lemma {:induction false} PortStays(init: State, run: seq<Event>, a: nat, n: nat)
    requires a <= n <= |run| && After(init, run, a).touch.portStarted
    ensures After(init, run, n).touch.portStarted
    decreases n
  {
    if a < n {
      PortStays(init, run, a, n - 1);
    }
  }

  lemma CalibrationKept(init: State, run: seq<Event>, a: nat, n: nat)
    requires a <= n < |run| && SameCalibration(init, run, a, n)
    requires run[n].Calibrate? ==> After(init, run, n).touch.portStarted && !run[n].locked
    ensures SameCalibration(init, run, a, n + 1)
  {
  }

  // ----- provenance of what a poll returns

  /** One event either publishes a contact sample or leaves a published contact alone. */
  lemma ActiveStep(s: State, e: Event)
    requires Next(s, e).touch.active
    ensures var p, q := s.touch, Next(s, e).touch;
            if e.Sample? && p.portStarted then
              && IsContact(e.sample) && p.model.Some? && q.model == p.model
              && q.point == ScreenPoint(p.model.value, e.sample) && q.sampledAt == Some(e.now)
            else
              && p.active && q.point == p.point && q.sampledAt == p.sampledAt
              && (p.portStarted ==> q.model == p.model && (e.Calibrate? ==> !e.locked))
  {
    match e case _ =>
  }

  /** One event either raises the edge with a contact sample or leaves it pending. */
  lemma EdgeStep(s: State, e: Event)
    requires Next(s, e).touch.edge
    ensures var p, q := s.touch, Next(s, e).touch;
            if p.edge then p.portStarted ==> q.model == p.model && (e.Calibrate? ==> !e.locked)
            else e.Sample? && p.portStarted && IsContact(e.sample) && p.model.Some? && !p.active && q.model == p.model
  {
    match e case _ =>
  }

  /** A published contact comes from the latest sample, taken under the model
      that is still installed. */
  lemma {:induction false} ActiveComesFromSample(init: State, run: seq<Event>, n: nat) returns (a: nat)
    requires n <= |run| && IsInitial(init) && After(init, run, n).touch.active
    ensures a < n && ContactSampleAt(init, run, a) && SameCalibration(init, run, a, n)
    ensures After(init, run, n).touch.model == After(init, run, a).touch.model
    ensures After(init, run, n).touch.point == ScreenPoint(After(init, run, a).touch.model.value, run[a].sample)
    ensures After(init, run, n).touch.sampledAt == Some(run[a].now)
    ensures forall m :: a < m < n ==> !run[m].Sample?
    decreases n
  {
    var p, e := After(init, run, n - 1).touch, run[n - 1];
    ActiveStep(After(init, run, n - 1), e);
    if e.Sample? && p.portStarted {
      a := n - 1;
    } else {
      a := ActiveComesFromSample(init, run, n - 1);
      PortStays(init, run, a, n - 1);
      CalibrationKept(init, run, a, n - 1);
    }
  }

  /** The edge has been pending since event a. */
  ghost predicate EdgeSince(init: State, run: seq<Event>, a: nat, n: nat)
    requires n <= |run|
  {
    forall m :: a < m <= n ==> After(init, run, m).touch.edge
  }

  lemma EdgeKept(init: State, run: seq<Event>, a: nat, n: nat)
    requires n < |run| && EdgeSince(init, run, a, n) && After(init, run, n + 1).touch.edge
    ensures EdgeSince(init, run, a, n + 1)
  {
  }

  /** A pending edge comes from a contact sample that followed an inactive state,
      under the model that is still installed. */
  lemma {:induction false} EdgeComesFromSample(init: State, run: seq<Event>, n: nat) returns (a: nat)
    requires n <= |run| && IsInitial(init) && After(init, run, n).touch.edge
    ensures a < n && ContactSampleAt(init, run, a) && SameCalibration(init, run, a, n)
    ensures !After(init, run, a).touch.active
    ensures After(init, run, n).touch.model == After(init, run, a).touch.model
    ensures EdgeSince(init, run, a, n)
    decreases n
  {
    var p, e := After(init, run, n - 1).touch, run[n - 1];
    EdgeStep(After(init, run, n - 1), e);
    if p.edge {
      a := EdgeComesFromSample(init, run, n - 1);
      PortStays(init, run, a, n - 1);
      CalibrationKept(init, run, a, n - 1);
      EdgeKept(init, run, a, n - 1);
    } else {
      a := n - 1;
    }
  }

  /** Every point a poll returns lies on the screen and every point or fresh
      press edge was sampled under the calibration that is still installed. */
  lemma PollIsCurrent(init: State, run: seq<Event>, k: nat)
    requires k < |run| && run[k].Ui? && IsInitial(init)
    ensures var poll := OutcomeAt(init, run, k).poll;
            && (poll.point.Some? ==>
                  && poll.contactHeld && poll.point.value.x < 320 && poll.point.value.y < 240
                  && exists a: nat :: a < k && ContactSampleAt(init, run, a) && SameCalibration(init, run, a, k)
                       && After(init, run, k).touch.model == After(init, run, a).touch.model
                       && poll.point.value == ScreenPoint(After(init, run, a).touch.model.value, run[a].sample))
            && (poll.freshEdge ==>
                  exists a: nat :: a < k && ContactSampleAt(init, run, a) && SameCalibration(init, run, a, k)
                    && After(init, run, k).touch.model == After(init, run, a).touch.model
                    && !After(init, run, a).touch.active)
  {
    var poll := OutcomeAt(init, run, k).poll;
    if poll.point.Some? {
      var a := ActiveComesFromSample(init, run, k);
    }
    if poll.freshEdge {
      var a := EdgeComesFromSample(init, run, k);
    }
  }

  /** Between two delivered edges the contact was inactive at least once. */
  lemma EdgesAreSeparated(init: State, run: seq<Event>, i: nat, k: nat) returns (a: nat)
    requires i < k < |run| && run[i].Ui? && run[k].Ui? && IsInitial(init)
    requires OutcomeAt(init, run, i).poll.freshEdge && OutcomeAt(init, run, k).poll.freshEdge
    ensures i < a < k && !After(init, run, a).touch.active && ContactSampleAt(init, run, a)
  {
    a := EdgeComesFromSample(init, run, k);
    assert !After(init, run, i + 1).touch.edge;
  }

  // ----- after a memory skip

  ghost predicate SkippedAt(init: State, run: seq<Event>, j: nat)
    requires j < |run|
  {
    run[j].Ui? && OutcomeAt(init, run, j).skipped
  }

  /** The clock reading that stamps a sample or a skipped step; the other clock
      readings of a UI step may fall anywhere. */
  ghost predicate StampedAt(init: State, run: seq<Event>, i: nat, t: nat)
    requires i < |run|
  {
    (run[i].Sample? && t == run[i].now) || (SkippedAt(init, run, i) && t == run[i].step.now)
  }

  /** One clock that never runs back stamps samples and skipped steps, and these
      are listed in the order of their readings. */
  ghost predicate StampsInOrder(init: State, run: seq<Event>) {
    forall i: nat, j: nat, t: nat, u: nat ::
      i < j < |run| && StampedAt(init, run, i, t) && StampedAt(init, run, j, u) ==> t <= u
  }

  lemma InOrder(init: State, run: seq<Event>, i: nat, j: nat, t: nat, u: nat)
    requires StampsInOrder(init, run) && i < j < |run| && StampedAt(init, run, i, t) && StampedAt(init, run, j, u)
    ensures t <= u
  {
  }

  /** The published stamp belongs to a sample event of the published kind. */
  lemma {:induction false} StampComesFromSample(init: State, run: seq<Event>, n: nat) returns (a: nat)
    requires n <= |run| && IsInitial(init) && After(init, run, n).touch.sampledAt.Some?
    ensures a < n && run[a].Sample? && After(init, run, n).touch.sampledAt == Some(run[a].now)
    ensures After(init, run, n).touch.release ==> ReleaseSampleAt(init, run, a)
    ensures After(init, run, n).touch.active ==> ContactSampleAt(init, run, a)
    decreases n
  {
    var p, e := After(init, run, n - 1).touch, run[n - 1];
    if e.Sample? && p.portStarted {
      a := n - 1;
    } else {
      a := StampComesFromSample(init, run, n - 1);
    }
  }

  /** What one event can do to the contact gate. */
  lemma GateMoves(s: State, e: Event)
    ensures var g, h := s.gate, Next(s, e).gate;
            h == g ||
            (e.Ui? && UiStep(s, e.step).skipped && h == Skipped(e.step.now)) ||
            (e.Ui? && s.touch.sampledAt.Some? && g.after < s.touch.sampledAt.value &&
              ((g.phase.AwaitRelease? && s.touch.release && h == ContactState(AwaitContact, s.touch.sampledAt.value)) ||
               (g.phase.AwaitContact? && s.touch.active && h == g.(phase := Allowed))))
    ensures e.Ui? && UiStep(s, e.step).skipped ==> Next(s, e).gate == Skipped(e.step.now)
  {
  }

  lemma {:induction false} AwaitsReleaseAfterSkip(init: State, run: seq<Event>, j: nat, n: nat)
    requires j < n <= |run| && IsInitial(init) && StampsInOrder(init, run) && SkippedAt(init, run, j)
    requires After(init, run, n).gate.phase.AwaitRelease?
    ensures run[j].step.now <= After(init, run, n).gate.after
    decreases n
  {
    GateMoves(After(init, run, n - 1), run[n - 1]);
    if j < n - 1 {
      if SkippedAt(init, run, n - 1) {
        InOrder(init, run, j, n - 1, run[j].step.now, run[n - 1].step.now);
      } else {
        AwaitsReleaseAfterSkip(init, run, j, n - 1);
      }
    }
  }

  lemma {:induction false} ReleaseAfterSkip(init: State, run: seq<Event>, j: nat, n: nat) returns (a: nat)
    requires j < n <= |run| && IsInitial(init) && StampsInOrder(init, run) && SkippedAt(init, run, j)
    requires After(init, run, n).gate.phase.AwaitContact?
    ensures j < a < n && ReleaseSampleAt(init, run, a)
    ensures run[j].step.now < run[a].now == After(init, run, n).gate.after
    decreases n
  {
    GateMoves(After(init, run, n - 1), run[n - 1]);
    var g := After(init, run, n - 1).gate;
    if g.phase.AwaitContact? {
      a := ReleaseAfterSkip(init, run, j, n - 1);
    } else {
      AwaitsReleaseAfterSkip(init, run, j, n - 1);
      a := StampComesFromSample(init, run, n - 1);
      if a < j {
        InOrder(init, run, a, j, run[a].now, run[j].step.now);
      }
    }
  }

  lemma {:induction false} ContactAfterSkip(init: State, run: seq<Event>, j: nat, n: nat) returns (a: nat, b: nat)
    requires j < n <= |run| && IsInitial(init) && StampsInOrder(init, run) && SkippedAt(init, run, j)
    requires After(init, run, n).gate.phase.Allowed?
    ensures j < a < b < n && ReleaseSampleAt(init, run, a) && ContactSampleAt(init, run, b)
    ensures run[j].step.now < run[a].now < run[b].now
    decreases n
  {
    GateMoves(After(init, run, n - 1), run[n - 1]);
    var g := After(init, run, n - 1).gate;
    if g.phase.Allowed? {
      a, b := ContactAfterSkip(init, run, j, n - 1);
    } else {
      a := ReleaseAfterSkip(init, run, j, n - 1);
      b := StampComesFromSample(init, run, n - 1);
      if b < a {
        InOrder(init, run, b, a, run[b].now, run[a].now);
      }
    }
  }

  /** In every run, after a step skipped for low memory no true hold tick is
      delivered until a calibrated no-contact sample and then a calibrated
      contact sample were taken, with strictly later stamps. */
  lemma NoTrueTickBeforeFreshContact(init: State, run: seq<Event>, j: nat, k: nat) returns (a: nat, b: nat)
    requires j < k < |run| && IsInitial(init) && StampsInOrder(init, run)
    requires SkippedAt(init, run, j) && TrueTickAt(init, run, k)
    ensures j < a < b < k && ReleaseSampleAt(init, run, a) && ContactSampleAt(init, run, b)
    ensures run[j].step.now < run[a].now < run[b].now
  {
    assert After(init, run, k + 1).gate.phase.Allowed?;
    a, b := ContactAfterSkip(init, run, j, k + 1);
  }

  // ----- what the polls miss

  ghost predicate ContactThroughout(init: State, run: seq<Event>, i: nat, n: nat)
    requires n <= |run|
  {
    forall m :: i < m <= n ==> After(init, run, m).touch.active
  }

  /** Some poll of the events after i and before n reported a fresh edge. */
  ghost predicate FreshEdgeSeen(init: State, run: seq<Event>, i: nat, n: nat)
    requires n <= |run|
  {
    exists m :: i < m < n && run[m].Ui? && OutcomeAt(init, run, m).poll.freshEdge
  }

  /** One event keeps a standing contact's edge or hands it to the poll; a
      contact that starts raises it. */
  lemma EdgeMoves(s: State, e: Event)
    requires Next(s, e).touch.active
    ensures var p, q := s.touch, Next(s, e).touch;
            var polled := e.Ui? && UiStep(s, e.step).poll.freshEdge;
            && (p.active ==> (p.edge <==> q.edge || polled))
            && (!p.active ==> q.edge && e.Sample?)
  {
    match e case _ =>
  }

  /** After a poll that answered with contact, a standing contact was interrupted
      exactly if an edge is pending or was reported since. */
  lemma {:induction false} EdgeMarksGap(init: State, run: seq<Event>, i: nat, n: nat)
    requires i < n <= |run| && run[i].Ui? && OutcomeAt(init, run, i).poll.contactHeld
    requires After(init, run, n).touch.active
    ensures After(init, run, n).touch.edge || FreshEdgeSeen(init, run, i, n) <==> !ContactThroughout(init, run, i, n)
    decreases n
  {
    if i + 1 < n {
      EdgeMoves(After(init, run, n - 1), run[n - 1]);
      if After(init, run, n - 1).touch.active {
        EdgeMarksGap(init, run, i, n - 1);
        SeenGrows(init, run, i, n - 1);
        assert ContactThroughout(init, run, i, n) <==> ContactThroughout(init, run, i, n - 1);
      } else {
        assert !ContactThroughout(init, run, i, n);
      }
    } else {
      PolledContactStays(After(init, run, i), run[i].step);
    }
  }

  lemma PolledContactStays(s: State, u: UiInput)
    requires UiStep(s, u).poll.contactHeld
    ensures var t := UiStep(s, u).next.touch; t.active && !t.edge
  {
  }

  lemma SeenGrows(init: State, run: seq<Event>, i: nat, n: nat)
    requires i < n < |run|
    ensures FreshEdgeSeen(init, run, i, n + 1) <==>
              FreshEdgeSeen(init, run, i, n) || (run[n].Ui? && OutcomeAt(init, run, n).poll.freshEdge)
  {
  }

  /** Two polls with contact saw one unbroken contact exactly if no poll from
      behind the first up to the second reported a fresh edge. */
  lemma UnbrokenExactlyWithoutEdge(init: State, run: seq<Event>, i: nat, k: nat)
    requires i < k < |run| && run[i].Ui? && run[k].Ui?
    requires OutcomeAt(init, run, i).poll.contactHeld && OutcomeAt(init, run, k).poll.contactHeld
    ensures !FreshEdgeSeen(init, run, i, k + 1) <==> ContactThroughout(init, run, i, k)
  {
    EdgeMarksGap(init, run, i, k);
    SeenGrows(init, run, i, k);
    PendingEdgeIsPolled(After(init, run, k), run[k].step);
  }

  lemma PendingEdgeIsPolled(s: State, u: UiInput)
    requires UiStep(s, u).poll.contactHeld
    ensures s.touch.active && UiStep(s, u).poll.freshEdge == s.touch.edge
  {
  }

  /** The hold behind a reset was one unbroken contact exactly if none of its UI
      steps after the first reported a fresh edge; the hold timer itself does not
      look at the edge. */
  lemma HoldUnbrokenExactly(init: State, run: seq<Event>, k: nat) returns (i: nat)
    requires k < |run| && run[k].Ui? && IsInitial(init) && OutcomeAt(init, run, k).resetFires
    ensures i < k && TrueTickAt(init, run, i) && forall m :: i <= m <= k && run[m].Ui? ==> TrueTickAt(init, run, m)
    ensures After(init, run, k).flow.holdMillis.Some?
    ensures OutcomeAt(init, run, i).ticks[0].at + After(init, run, k).flow.holdMillis.value <= run[k].step.tickAt
    ensures !FreshEdgeSeen(init, run, i, k + 1) <==> ContactThroughout(init, run, i, k)
  {
    i := ResetNeedsUninterruptedHold(init, run, k);
    UnbrokenExactlyWithoutEdge(init, run, i, k);
  }

  /** In every state with a running hold, a finger that leaves the slot and touches
      it again between two polls goes unseen: before the hold time the next step
      leaves the hold as it was, and from then on it runs the reset if that is
      available. */
  lemma LiftBetweenPollsIsUnseen(s: State, lift: RawSample, again: RawSample, t1: nat, t2: nat, u: UiInput)
    requires s.touch.portStarted && s.touch.initialized && s.touch.model.Some? && s.touch.active
    requires s.gate.phase.Allowed? && StepAllowed(s.memory, u.block) && u.locked && s.flow.stage.Hold?
    requires var f := ApplyAll(s.flow, u.between);
             && f.stage.Hold? && f.holdMillis.Some? && f.startedAt.Some? && f.startedAt.value <= u.tickAt
             && (f.kind.PinProtected? ==> u.leaseHeld)
    requires lift.status.NoContact? && IsContact(again)
    requires var point := ScreenPoint(s.touch.model.value, again);
             OnHoldTarget(u.view, HitTest.TargetAt(u.view, point.x, point.y))
    ensures var f, lifted := ApplyAll(s.flow, u.between), Next(s, Sample(lift, t1));
            var o := UiStep(Next(lifted, Sample(again, t2)), u);
            && !lifted.touch.active && o.poll.freshEdge && o.ticks == [Tick(true, u.tickAt)]
            && if u.tickAt - f.startedAt.value < f.holdMillis.value
               then !o.resetFires && o.next.flow == Apply(ApplyAll(f, u.late), u.dispatch)
               else o.resetFires == u.available
  {
    var touched := Next(Next(s, Sample(lift, t1)), Sample(again, t2));
    assert touched.flow == s.flow && touched.gate == s.gate && touched.memory == s.memory;
  }

  // ----- a reset after a lift

  const MIDDLE_OF_HOLD_SLOT := Model(0.0, 0.0, 100.0, 0.0, 0.0, 220.0)
  const TOUCHED := RawSample(Contact, true, 0, 0)
  const LIFTED := RawSample(NoContact, false, 0, 0)
  const RESET_PAGE := HitTest.View(HitTest.FactoryReset, None, None, 0, 0, 0, HitTest.Pager(0, 0), slot => true)

  function LoopStep(at: nat): UiInput { UiInput(0, at, true, RESET_PAGE, [], true, true, at, [], Nothing) }

  /** Confirm the reset, touch the hold slot, and lift and touch again between
      two polls five seconds apart. */
  const LIFT_RUN: seq<Event> := [
    StartPort, FinishInit, Calibrate(Some(MIDDLE_OF_HOLD_SLOT), true),
    App(Begin(PinIndependent, true, false)), App(Acknowledge(false)), App(Acknowledge(false)),
    Sample(TOUCHED, 0), Ui(LoopStep(0)),
    Sample(LIFTED, 1000), Sample(TOUCHED, 2000), Ui(LoopStep(5000))]

  const HELD := State(
    UNPUBLISHED.(portStarted := true, initialized := true, model := Some(MIDDLE_OF_HOLD_SLOT)),
    MemoryState(0, 0, false, false, 0, None), ContactState(Allowed, 0), FlowState(Some(5000), Hold, PinIndependent, None))

  lemma HoldIsReached(init: State)
    requires init == State(UNPUBLISHED, HELD.memory, HELD.gate, Configured(Some(5000)))
    ensures After(init, LIFT_RUN, 6) == HELD
  {
    var run := LIFT_RUN;
    var ready := init.(touch := HELD.touch);
    assert After(init, run, 1) == Next(init, StartPort) && After(init, run, 2) == Next(After(init, run, 1), FinishInit);
    assert After(init, run, 3) == ready;
    assert After(init, run, 4) == ready.(flow := ready.flow.(stage := Warning));
    assert After(init, run, 5) == ready.(flow := ready.flow.(stage := Confirm));
  }

  lemma ContactOnHoldSlot()
    ensures ScreenPoint(MIDDLE_OF_HOLD_SLOT, TOUCHED) == Point(100, 220)
    ensures HitTest.TargetAt(RESET_PAGE, 100, 220) == Some(HitTest.BottomSlot(HOLD_SLOT))
  {
  }

  lemma HoldIsStarted(init: State)
    requires init == State(UNPUBLISHED, HELD.memory, HELD.gate, Configured(Some(5000)))
    ensures TrueTickAt(init, LIFT_RUN, 7)
    ensures var s := After(init, LIFT_RUN, 8);
            && s.flow == HELD.flow.(startedAt := Some(0)) && s.gate == HELD.gate && s.memory == HELD.memory
            && s.touch == HELD.touch.(active := true, point := Point(100, 220), sampledAt := Some(0))
  {
    HoldIsReached(init);
    ContactOnHoldSlot();
    assert After(init, LIFT_RUN, 7) == Next(HELD, LIFT_RUN[6]);
    assert After(init, LIFT_RUN, 8) == Next(After(init, LIFT_RUN, 7), LIFT_RUN[7]);
  }

  lemma LiftIsPublished(init: State)
    requires init == State(UNPUBLISHED, HELD.memory, HELD.gate, Configured(Some(5000)))
    ensures !After(init, LIFT_RUN, 9).touch.active
    ensures var s := After(init, LIFT_RUN, 10);
            && s.flow == HELD.flow.(startedAt := Some(0)) && s.gate == HELD.gate && s.memory == HELD.memory
            && s.touch == HELD.touch.(active := true, edge := true, point := Point(100, 220), sampledAt := Some(2000))
  {
    HoldIsStarted(init);
    ContactOnHoldSlot();
    assert After(init, LIFT_RUN, 9) == Next(After(init, LIFT_RUN, 8), LIFT_RUN[8]);
    assert After(init, LIFT_RUN, 10) == Next(After(init, LIFT_RUN, 9), LIFT_RUN[9]);
  }

  lemma LiftStampsInOrder(init: State)
    ensures StampsInOrder(init, LIFT_RUN)
  {
  }

  /** From an initial state the finger leaves the slot during the hold, and the
      reset fires all the same. */
  lemma ResetAfterLift() returns (init: State)
    ensures IsInitial(init) && StampsInOrder(init, LIFT_RUN)
    ensures OutcomeAt(init, LIFT_RUN, 10).resetFires && TrueTickAt(init, LIFT_RUN, 7)
    ensures FreshEdgeSeen(init, LIFT_RUN, 7, 11) && !ContactThroughout(init, LIFT_RUN, 7, 10)
  {
    init := State(UNPUBLISHED, HELD.memory, HELD.gate, Configured(Some(5000)));
    LiftStampsInOrder(init);
    HoldIsStarted(init);
    LiftIsPublished(init);
    ContactOnHoldSlot();
    assert OutcomeAt(init, LIFT_RUN, 10).poll.freshEdge;
  }
}
