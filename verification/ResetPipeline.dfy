/** From touch sample to factory reset: runs of the display task's sampler, of
    calibration changes, of application commands and of the UI loop, with the
    ticks the loop delivers to the hold timer. */
module ResetPipeline {
  import opened Wrappers
  import opened TouchInput
  import opened ResetGates
  import HitTest

  const HOLD_SLOT := 1

  datatype State = State(touch: Published, memory: MemoryState, gate: ContactState, flow: FlowState)

  /** What other parts of the application may do to the reset flow. */
  datatype FlowOp =
    | Nothing
    | Begin(kind: Kind, available: bool, leaseHeld: bool)
    | Acknowledge(leaseHeld: bool)
    | Cancel
    | Dismiss
    | EndLease
    | Configure(hold: Option<nat>)

  /** One call of the UI loop: the measurements and readings it takes, the screen
      it shows, the commands of other tasks that reach the flow before and after
      its tick, and the command it dispatches itself. */
  datatype UiInput = UiInput(
    block: nat, now: nat, locked: bool, view: HitTest.View,
    between: seq<FlowOp>,
    leaseHeld: bool, available: bool, tickAt: nat, late: seq<FlowOp>, dispatch: FlowOp)

  datatype Event =
    | StartPort
    | FinishInit
    | Sample(sample: RawSample, now: nat)
    | Calibrate(model: Option<Model>, locked: bool)
    | App(op: FlowOp)
    | Ui(step: UiInput)

  datatype Tick = Tick(held: bool, at: nat)

  datatype Outcome = Outcome(
    ran: bool, skipped: bool, poll: PollResult, holdAllowed: bool, target: Option<HitTest.Target>,
    ticks: seq<Tick>, resetFires: bool, next: State)

  predicate PinPending(f: FlowState) {
    f.kind.PinProtected? && !f.stage.Idle? && !f.stage.Executing? && !f.stage.Finished?
  }

  function Apply(f: FlowState, op: FlowOp): FlowState {
    match op
    case Nothing => f
    case Begin(kind, available, leaseHeld) =>
      if !available then f
      else if kind.PinIndependent? then Begun(f, kind)
      else if !leaseHeld || f.holdMillis.None? || !f.stage.Idle? then f
      else PinVerified(Begun(f, kind))
    case Acknowledge(leaseHeld) => if PinPending(f) && !leaseHeld then Cancelled(f) else Acknowledged(f)
    case Cancel => Cancelled(f)
    case Dismiss => Dismissed(f)
    case EndLease => if PinPending(f) then Cancelled(f) else f
    case Configure(hold) => if f.stage.Idle? then Configured(hold) else f
  }

  function ApplyAll(f: FlowState, ops: seq<FlowOp>): FlowState {
    if ops == [] then f else Apply(ApplyAll(f, ops[..|ops| - 1]), ops[|ops| - 1])
  }

  /** The reset is run: the hold is complete, the lease of a PIN-protected reset is
      held, and the re-check behind the hold still finds the reset available. */
  predicate TickFires(f: FlowState, t: Tick, leaseHeld: bool, available: bool) {
    !(PinPending(f) && !leaseHeld) && HoldReached(f, t.held, t.at) && available
  }

  /** updateFactoryResetHold: a lost lease cancels; a completed hold runs the
      reset, which ends in Finished whatever its result. */
  function Ticked(f: FlowState, t: Tick, leaseHeld: bool): FlowState {
    if PinPending(f) && !leaseHeld then Cancelled(f)
    else if HoldReached(f, t.held, t.at) then HoldUpdated(f, t.held, t.at).(stage := Finished)
    else HoldUpdated(f, t.held, t.at)
  }

  function TickedAll(f: FlowState, ticks: seq<Tick>, leaseHeld: bool): FlowState
    requires |ticks| <= 1
  {
    if ticks == [] then f else Ticked(f, ticks[0], leaseHeld)
  }

  /** The hold counts only for a contact on the hold slot of the reset page. */
  predicate OnHoldTarget(view: HitTest.View, target: Option<HitTest.Target>) {
    view.page.FactoryReset? && target == Some(HitTest.BottomSlot(HOLD_SLOT))
  }

  function HitTarget(view: HitTest.View, poll: PollResult): Option<HitTest.Target> {
    if poll.contactHeld && poll.point.Some?
    then HitTest.TargetAt(view, poll.point.value.x, poll.point.value.y) else None
  }

  /** updateProductUi, up to drawing. */
  function UiStep(s: State, u: UiInput): Outcome {
    if !s.touch.initialized then Outcome(false, false, SILENT, false, None, [], false, s)
    else
      var memory := Measured(s.memory, u.block, u.now);
      if !StepAllowed(s.memory, u.block) then
        var t := Tick(false, u.now);
        Outcome(true, true, SILENT, false, None, [t], TickFires(s.flow, t, u.leaseHeld, u.available),
                State(s.touch, memory, Skipped(u.now), Ticked(s.flow, t, u.leaseHeld)))
      else
        var poll := PollOf(s.touch, u.locked);
        var gate := Observed(s.gate, poll.release, poll.contactHeld, poll.sampledAt);
        var target := HitTarget(u.view, poll);
        var held := OnHoldTarget(u.view, target) && gate.phase.Allowed?;
        var ticks := if s.flow.stage.Hold? then [Tick(held, u.tickAt)] else [];
        var before := ApplyAll(s.flow, u.between);
        var ticked := ApplyAll(TickedAll(before, ticks, u.leaseHeld), u.late);
        var flow := if poll.freshEdge && target.Some? then Apply(ticked, u.dispatch) else ticked;
        Outcome(true, false, poll, gate.phase.Allowed?, target, ticks,
                ticks != [] && TickFires(before, ticks[0], u.leaseHeld, u.available),
                State(Polled(s.touch, u.locked), memory, gate, flow))
  }

  function Next(s: State, e: Event): State {
    match e
    case StartPort => s.(touch := s.touch.(portStarted := true))
    case FinishInit => s.(touch := s.touch.(initialized := s.touch.portStarted))
    case Sample(sample, now) => s.(touch := Sampled(s.touch, sample, now))
    case Calibrate(model, locked) => s.(touch := Recalibrated(s.touch, model, locked))
    case App(op) => s.(flow := Apply(s.flow, op))
    case Ui(step) => UiStep(s, step).next
  }

  /** The state after the first n events of a run. */
  function After(init: State, run: seq<Event>, n: nat): State
    requires n <= |run|
  {
    if n == 0 then init else Next(After(init, run, n - 1), run[n - 1])
  }

  function OutcomeAt(init: State, run: seq<Event>, k: nat): Outcome
    requires k < |run| && run[k].Ui?
  {
    UiStep(After(init, run, k), run[k].step)
  }

  ghost predicate IsInitial(s: State) {
    s.touch == UNPUBLISHED && s.gate == ContactState(Allowed, 0) && exists hold :: s.flow == Configured(hold)
  }

  /** updateProductUi in the form of the source: one call on the four owners. The
      commands that other tasks send between the snapshot and the tick take
      effect where the step reads the poll, later ones right behind the tick. */
  method UpdateProductUi(
    touch: LvglTouch, memory: UiMemoryGate, gate: UiResetHoldContactGate, flow: FactoryResetFlow, u: UiInput)
    returns (freshPress: bool, ticks: seq<Tick>, resetFires: bool)
    modifies touch, memory, gate, flow
    ensures var o := UiStep(State(old(touch.State()), old(memory.State()), old(gate.State()), old(flow.State())), u);
            && State(touch.State(), memory.State(), gate.State(), flow.State()) == o.next
            && ticks == o.ticks && resetFires == o.resetFires && freshPress == o.poll.freshEdge
  {
    freshPress, ticks, resetFires := false, [], false;
    if !touch.initialized {
      return;
    }
    var allowed := memory.AllowStep(u.block, u.now);
    if !allowed {
      gate.Skip(u.now);
      resetFires := DeliverTick(flow, Tick(false, u.now), u.leaseHeld, u.available);
      ticks := [Tick(false, u.now)];
      return;
    }
    var armed := flow.stage.Hold?;  // the snapshot of this step
    var poll := touch.PollTouch(u.locked);
    var holdAllowed := gate.Observe(poll.release, poll.contactHeld, poll.sampledAt);
    freshPress := poll.freshEdge;
    PerformAll(flow, u.between);
    ticks, resetFires := ProcessTouch(flow, armed, poll, holdAllowed, u);
  }

  /** The touch tick: release, or hold tick and dispatch, in this order. */
  method ProcessTouch(flow: FactoryResetFlow, armed: bool, poll: PollResult, holdAllowed: bool, u: UiInput)
    returns (ticks: seq<Tick>, resetFires: bool)
    modifies flow
    ensures ticks == if armed then [Tick(OnHoldTarget(u.view, HitTarget(u.view, poll)) && holdAllowed, u.tickAt)] else []
    ensures resetFires == (ticks != [] && TickFires(old(flow.State()), ticks[0], u.leaseHeld, u.available))
    ensures var ticked := ApplyAll(TickedAll(old(flow.State()), ticks, u.leaseHeld), u.late);
            flow.State() == if poll.freshEdge && HitTarget(u.view, poll).Some? then Apply(ticked, u.dispatch) else ticked
  {
    ticks, resetFires := [], false;
    if !poll.contactHeld {
      if armed {
        resetFires := DeliverTick(flow, Tick(false, u.tickAt), u.leaseHeld, u.available);
        ticks := [Tick(false, u.tickAt)];
      }
      PerformAll(flow, u.late);
      return;
    }
    var target := HitTarget(u.view, poll);
    if armed {
      var tick := Tick(OnHoldTarget(u.view, target) && holdAllowed, u.tickAt);
      resetFires := DeliverTick(flow, tick, u.leaseHeld, u.available);
      ticks := [tick];
    }
    PerformAll(flow, u.late);
    if poll.freshEdge && target.Some? {
      Perform(flow, u.dispatch);
    }
  }

  method Perform(flow: FactoryResetFlow, op: FlowOp)
    modifies flow
    ensures flow.State() == Apply(old(flow.State()), op)
  {
    var pending := PinPending(FlowState(flow.holdMillis, flow.stage, flow.kind, flow.holdStartedMs));
    match op {
      case Nothing =>
      case Begin(kind, available, leaseHeld) =>
        if available && (kind.PinIndependent? || leaseHeld) {
          var begun := flow.Begin(kind);
          if begun && kind.PinProtected? {
            var _ := flow.VerifyPin();
          }
        }
      case Acknowledge(leaseHeld) =>
        if pending && !leaseHeld {
          flow.Cancel();
        } else {
          var _ := flow.Acknowledge();
        }
      case Cancel => flow.Cancel();
      case Dismiss => flow.Dismiss();
      case EndLease =>
        if pending {
          flow.Cancel();
        }
      case Configure(hold) => flow.Reconfigure(hold);
    }
  }

  method PerformAll(flow: FactoryResetFlow, ops: seq<FlowOp>)
    modifies flow
    ensures flow.State() == ApplyAll(old(flow.State()), ops)
  {
    for i := 0 to |ops|
      invariant flow.State() == ApplyAll(old(flow.State()), ops[..i])
    {
      assert ops[..i + 1][..i] == ops[..i];
      Perform(flow, ops[i]);
    }
    assert ops[..|ops|] == ops;
  }

  method DeliverTick(flow: FactoryResetFlow, t: Tick, leaseHeld: bool, available: bool) returns (fires: bool)
    modifies flow
    ensures flow.State() == Ticked(old(flow.State()), t, leaseHeld)
    ensures fires == TickFires(old(flow.State()), t, leaseHeld, available)
  {
    if PinPending(FlowState(flow.holdMillis, flow.stage, flow.kind, flow.holdStartedMs)) && !leaseHeld {
      flow.Cancel();
      return false;
    }
    fires := flow.UpdateHold(t.held, t.at);
    if fires {
      // A reset that is no longer available ends in Finished without being run.
      flow.Finish();
      fires := available;
    }
  }

  // ----- ticks of one step

  /** Exactly one tick per skipped step and per step that sees the hold stage;
      it is a true one only for an unskipped step with an answered poll, a
      contact in the hold slot's column and an open contact gate. */
  lemma TicksOfAStep(s: State, u: UiInput)
    ensures var o := UiStep(s, u);
            && |o.ticks| == (if o.ran && (o.skipped || s.flow.stage.Hold?) then 1 else 0)
            && (o.ticks != [] && o.ticks[0].held ==>
                  && !o.skipped && o.holdAllowed && CanPoll(s.touch, u.locked) && s.touch.active
                  && u.view.page.FactoryReset?
                  && 80 <= s.touch.point.x < 160 && 200 <= s.touch.point.y < 240)
  {
    var o := UiStep(s, u);
    if o.ticks != [] && o.ticks[0].held {
      HitTest.BottomSlotIsItsColumn(u.view, s.touch.point.x, s.touch.point.y, HOLD_SLOT);
    }
  }

  ghost predicate TrueTickAt(init: State, run: seq<Event>, k: nat)
    requires k < |run|
  {
    run[k].Ui? && OutcomeAt(init, run, k).ticks != [] && OutcomeAt(init, run, k).ticks[0].held
  }

  // ----- the reset needs an uninterrupted hold

  lemma {:induction false} InitializedStays(init: State, run: seq<Event>, i: nat, n: nat)
    requires i <= n <= |run| && IsInitial(init)
    requires After(init, run, i).touch.initialized
    ensures After(init, run, n).touch.initialized && After(init, run, n).touch.portStarted
    decreases n
  {
    if n > 0 {
      PortPrecedesInit(init, run, n);
      if i < n {
        InitializedStays(init, run, i, n - 1);
      }
    }
  }

  lemma {:induction false} PortPrecedesInit(init: State, run: seq<Event>, n: nat)
    requires n <= |run| && IsInitial(init)
    ensures After(init, run, n).touch.initialized ==> After(init, run, n).touch.portStarted
  {
    if n > 0 {
      PortPrecedesInit(init, run, n - 1);
    }
  }

  /** A command cannot start the hold timer; it keeps it only in the hold stage. */
  lemma OpKeepsTimer(f: FlowState, op: FlowOp)
    requires f.startedAt.Some? ==> f.stage.Hold? && f.holdMillis.Some?
    ensures var g := Apply(f, op);
            g.startedAt.Some? ==> g.stage.Hold? && g.holdMillis == f.holdMillis && g.startedAt == f.startedAt
  {
    match op case _ =>
  }

  lemma {:induction false} OpsKeepTimer(f: FlowState, ops: seq<FlowOp>)
    requires f.startedAt.Some? ==> f.stage.Hold? && f.holdMillis.Some?
    ensures var g := ApplyAll(f, ops);
            g.startedAt.Some? ==> g.stage.Hold? && g.holdMillis == f.holdMillis && g.startedAt == f.startedAt
  {
    if ops != [] {
      OpsKeepTimer(f, ops[..|ops| - 1]);
      OpKeepsTimer(ApplyAll(f, ops[..|ops| - 1]), ops[|ops| - 1]);
    }
  }

  /** A tick that leaves the timer running is a true one. */
  lemma TickKeepsTimer(f: FlowState, t: Tick, leaseHeld: bool)
    requires f.startedAt.Some? ==> f.stage.Hold? && f.holdMillis.Some?
    ensures var g := Ticked(f, t, leaseHeld);
            g.startedAt.Some? && f.stage.Hold? ==>
              && g.stage.Hold? && g.holdMillis.Some? && t.held
              && (g.startedAt == f.startedAt || g.startedAt == Some(t.at))
    ensures var g := Ticked(f, t, leaseHeld); !f.stage.Hold? ==> g.startedAt.None? || g.startedAt == f.startedAt
  {
  }

  /** One step either leaves a running timer alone, and then a UI step delivered
      a true tick, or it starts the timer with a true tick. */
  lemma StepKeepsTimer(s: State, e: Event)
    requires s.flow.startedAt.Some? ==> s.flow.stage.Hold? && s.flow.holdMillis.Some?
    requires Next(s, e).flow.startedAt.Some?
    ensures Next(s, e).flow.stage.Hold? && Next(s, e).flow.holdMillis.Some?
    ensures e.Ui? && s.touch.initialized ==> UiStep(s, e.step).ticks != [] && UiStep(s, e.step).ticks[0].held
    ensures Next(s, e).flow.startedAt != s.flow.startedAt ==>
              && e.Ui? && s.touch.initialized
              && UiStep(s, e.step).ticks[0].at == Next(s, e).flow.startedAt.value
  {
    match e
    case App(op) => OpKeepsTimer(s.flow, op);
    case Ui(u) =>
      if s.touch.initialized {
        UiKeepsTimer(s, u);
      }
    case _ =>
  }

  lemma UiKeepsTimer(s: State, u: UiInput)
    requires s.flow.startedAt.Some? ==> s.flow.stage.Hold? && s.flow.holdMillis.Some?
    requires s.touch.initialized && UiStep(s, u).next.flow.startedAt.Some?
    ensures var o := UiStep(s, u);
            && o.next.flow.stage.Hold? && o.next.flow.holdMillis.Some? && o.ticks != [] && o.ticks[0].held
            && (o.next.flow.startedAt == s.flow.startedAt || o.next.flow.startedAt == Some(o.ticks[0].at))
  {
    var o := UiStep(s, u);
    if o.skipped {
      TickKeepsTimer(s.flow, o.ticks[0], u.leaseHeld);
    } else {
      OpsKeepTimer(s.flow, u.between);
      var before := ApplyAll(s.flow, u.between);
      if o.ticks != [] {
        TickKeepsTimer(before, o.ticks[0], u.leaseHeld);
      }
      var ticked := TickedAll(before, o.ticks, u.leaseHeld);
      OpsKeepTimer(ticked, u.late);
      OpKeepsTimer(ApplyAll(ticked, u.late), u.dispatch);
    }
  }

  lemma {:induction false} TimerNeedsHoldStage(init: State, run: seq<Event>, n: nat)
    requires n <= |run| && IsInitial(init)
    ensures var f := After(init, run, n).flow; f.startedAt.Some? ==> f.stage.Hold? && f.holdMillis.Some?
  {
    if n > 0 && After(init, run, n).flow.startedAt.Some? {
      TimerNeedsHoldStage(init, run, n - 1);
      StepKeepsTimer(After(init, run, n - 1), run[n - 1]);
    }
  }

  /** A running hold timer was started by a true tick, and every UI step since
      then delivered a true tick. */
  lemma {:induction false} TimerMeansTrueTicks(init: State, run: seq<Event>, n: nat) returns (i: nat)
    requires n <= |run| && IsInitial(init)
    requires After(init, run, n).flow.startedAt.Some?
    ensures i < n && TrueTickAt(init, run, i)
    ensures OutcomeAt(init, run, i).ticks[0].at == After(init, run, n).flow.startedAt.value
    ensures forall m :: i <= m < n && run[m].Ui? ==> TrueTickAt(init, run, m)
    decreases n
  {
    var s, e := After(init, run, n - 1), run[n - 1];
    TimerNeedsHoldStage(init, run, n - 1);
    StepKeepsTimer(s, e);
    if s.flow.startedAt == After(init, run, n).flow.startedAt {
      i := TimerMeansTrueTicks(init, run, n - 1);
      InitializedStays(init, run, i, n - 1);
    } else {
      i := n - 1;
    }
  }

  /** In every run the reset fires only at the end of a hold: some earlier UI
      step started it at least the configured time before, and every UI step
      from there to the firing one saw a contact inside the hold slot. */
  lemma ResetNeedsUninterruptedHold(init: State, run: seq<Event>, k: nat) returns (i: nat)
    requires k < |run| && run[k].Ui? && IsInitial(init)
    requires OutcomeAt(init, run, k).resetFires
    ensures i < k && TrueTickAt(init, run, i)
    ensures var f := After(init, run, k).flow;
            && f.stage.Hold? && f.holdMillis.Some? && f.holdMillis.value > 0
            && OutcomeAt(init, run, i).ticks[0].at + f.holdMillis.value <= run[k].step.tickAt
    ensures forall m :: i <= m <= k && run[m].Ui? ==>
              && TrueTickAt(init, run, m)
              && !OutcomeAt(init, run, m).skipped && OutcomeAt(init, run, m).poll.contactHeld
              && run[m].step.view.page.FactoryReset?
              && 80 <= After(init, run, m).touch.point.x < 160 && 200 <= After(init, run, m).touch.point.y < 240
  {
    TimerNeedsHoldStage(init, run, k);
    OpsKeepTimer(After(init, run, k).flow, run[k].step.between);
    i := TimerMeansTrueTicks(init, run, k);
    HoldTimeIsPositive(init, run, k);
    assert TrueTickAt(init, run, k);
    forall m | i <= m <= k && run[m].Ui?
      ensures && TrueTickAt(init, run, m)
              && !OutcomeAt(init, run, m).skipped && OutcomeAt(init, run, m).poll.contactHeld
              && run[m].step.view.page.FactoryReset?
              && 80 <= After(init, run, m).touch.point.x < 160 && 200 <= After(init, run, m).touch.point.y < 240
    {
      TicksOfAStep(After(init, run, m), run[m].step);
    }
  }

  predicate FlowOk(f: FlowState) {
    (f.holdMillis.Some? ==> f.holdMillis.value > 0) && (!f.stage.Idle? ==> f.holdMillis.Some?)
  }

  lemma OpKeepsFlowOk(f: FlowState, op: FlowOp)
    requires FlowOk(f)
    ensures FlowOk(Apply(f, op))
  {
    match op case _ =>
  }

  lemma {:induction false} OpsKeepFlowOk(f: FlowState, ops: seq<FlowOp>)
    requires FlowOk(f)
    ensures FlowOk(ApplyAll(f, ops))
  {
    if ops != [] {
      OpsKeepFlowOk(f, ops[..|ops| - 1]);
      OpKeepsFlowOk(ApplyAll(f, ops[..|ops| - 1]), ops[|ops| - 1]);
    }
  }

  lemma TicksKeepFlowOk(f: FlowState, ticks: seq<Tick>, leaseHeld: bool)
    requires FlowOk(f) && |ticks| <= 1
    ensures FlowOk(TickedAll(f, ticks, leaseHeld))
  {
  }

  lemma {:induction false} HoldTimeIsPositive(init: State, run: seq<Event>, n: nat)
    requires n <= |run| && IsInitial(init)
    ensures FlowOk(After(init, run, n).flow)
  {
    if n > 0 {
      HoldTimeIsPositive(init, run, n - 1);
      var s, e := After(init, run, n - 1), run[n - 1];
      if e.App? {
        OpKeepsFlowOk(s.flow, e.op);
      } else if e.Ui? {
        var u, o := e.step, UiStep(s, e.step);
        TicksKeepFlowOk(s.flow, o.ticks, u.leaseHeld);
        OpsKeepFlowOk(s.flow, u.between);
        var before := ApplyAll(s.flow, u.between);
        TicksKeepFlowOk(before, o.ticks, u.leaseHeld);
        var ticked := TickedAll(before, o.ticks, u.leaseHeld);
        OpsKeepFlowOk(ticked, u.late);
        OpKeepsFlowOk(ApplyAll(ticked, u.late), u.dispatch);
      }
    }
  }
}
