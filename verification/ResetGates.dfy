/** The three automata between a touch contact and the factory reset: the memory
    gate that may skip a UI step, the contact gate that keeps a skipped hold
    released, and the reset flow that owns the stages and the hold timer. */
module ResetGates {
  import opened Wrappers

  // ----- memory gate

  const LOG_INTERVAL := 10000
  const U64 := 0x1_0000_0000_0000_0000
  const SIZE_RANGE := 0x1_0000_0000  // size_t of the 32-bit target

  datatype MemoryState = MemoryState(
    minimum: nat, resumeAt: nat, paused: bool, logSkip: bool, skippedSteps: nat, lastLog: Option<nat>)

  predicate StepAllowed(m: MemoryState, block: nat) {
    block >= (if m.paused then m.resumeAt else m.minimum)
  }

  function Elapsed(now: nat, since: nat): nat { (now - since) % U64 }

  function Measured(m: MemoryState, block: nat, now: nat): MemoryState {
    if StepAllowed(m, block) then m.(paused := false, logSkip := false)
    else
      var log := m.lastLog.None? || Elapsed(now, m.lastLog.value) >= LOG_INTERVAL;
      m.(paused := true, skippedSteps := (m.skippedSteps + 1) % U64, logSkip := log,
         lastLog := if log then Some(now) else m.lastLog)
  }

  class UiMemoryGate {
    const minimum: nat
    const resumeAt: nat
    var paused: bool
    var logSkip: bool
    var skippedSteps: nat
    var lastLog: Option<nat>

    ghost function State(): MemoryState
      reads this
    {
      MemoryState(minimum, resumeAt, paused, logSkip, skippedSteps, lastLog)
    }

    constructor (minimum: nat, resumeMargin: nat)
      ensures State() == MemoryState(minimum, (minimum + resumeMargin) % SIZE_RANGE, false, false, 0, None)
    {
      this.minimum := minimum;
      resumeAt := (minimum + resumeMargin) % SIZE_RANGE;
      paused, logSkip, skippedSteps, lastLog := false, false, 0, None;
    }

    method AllowStep(block: nat, now: nat) returns (allowed: bool)
      modifies this
      ensures allowed == StepAllowed(old(State()), block)
      ensures State() == Measured(old(State()), block, now)
    {
      if block < (if paused then resumeAt else minimum) {
        paused := true;
        skippedSteps := (skippedSteps + 1) % U64;
        logSkip := lastLog.None? || (now - lastLog.value) % U64 >= LOG_INTERVAL;
        if logSkip {
          lastLog := Some(now);
        }
        return false;
      }
      paused := false;
      logSkip := false;
      return true;
    }
  }

  /** The gate after a history of (measurement, time) pairs. */
  function MeasuredAll(m: MemoryState, history: seq<(nat, nat)>): MemoryState {
    if history == [] then m
    else
      var last := history[|history| - 1];
      Measured(MeasuredAll(m, history[..|history| - 1]), last.0, last.1)
  }

  ghost predicate LowSince(m: MemoryState, history: seq<(nat, nat)>, i: nat) {
    && i < |history|
    && history[i].0 < m.minimum
    && forall j :: i < j < |history| ==> history[j].0 < m.resumeAt
  }

  /** Hysteresis over whole histories: the gate pauses exactly while some
      measurement fell below the minimum and none since reached the resume mark. */
  lemma {:induction false} PausedExactlyWhileLow(m: MemoryState, history: seq<(nat, nat)>)
    requires !m.paused && m.minimum <= m.resumeAt
    ensures MeasuredAll(m, history).minimum == m.minimum && MeasuredAll(m, history).resumeAt == m.resumeAt
    ensures MeasuredAll(m, history).paused <==> exists i: nat :: LowSince(m, history, i)
  {
    if history != [] {
      var n := |history| - 1;
      var init := history[..n];
      PausedExactlyWhileLow(m, init);
      if MeasuredAll(m, init).paused && history[n].0 < m.resumeAt {
        var i: nat :| LowSince(m, init, i);
        assert LowSince(m, history, i);
      }
      if history[n].0 < m.minimum {
        assert LowSince(m, history, n);
      }
      if i: nat :| LowSince(m, history, i) {
        if i < n {
          assert LowSince(m, init, i);
          assert history[n].0 < m.resumeAt;
        }
      }
    }
  }

  ghost predicate HasHysteresis(m: MemoryState) {
    forall history :: MeasuredAll(m, history).paused <==> exists i: nat :: LowSince(m, history, i)
  }

  /** That law needs the resume mark not to wrap below the minimum: otherwise a
      second measurement between the two marks ends the pause. */
  lemma HysteresisNeedsMargin(m: MemoryState)
    requires !m.paused
    ensures HasHysteresis(m) <==> m.minimum <= m.resumeAt
  {
    if m.minimum <= m.resumeAt {
      forall history ensures MeasuredAll(m, history).paused <==> exists i: nat :: LowSince(m, history, i) {
        PausedExactlyWhileLow(m, history);
      }
    } else {
      var low := (m.resumeAt, 0);
      var none: seq<(nat, nat)> := [];
      assert [low, low][..1] == [low] && [low][..0] == none;
      assert MeasuredAll(m, [low]) == Measured(MeasuredAll(m, none), low.0, low.1);
      assert MeasuredAll(m, [low, low]) == Measured(MeasuredAll(m, [low]), low.0, low.1);
      assert LowSince(m, [low, low], 1);
    }
  }

  // ----- contact gate

  datatype Phase = Allowed | AwaitRelease | AwaitContact

  datatype ContactState = ContactState(phase: Phase, after: nat)

  function Skipped(now: nat): ContactState { ContactState(AwaitRelease, now) }

  function Observed(g: ContactState, release: bool, contact: bool, sampledAt: Option<nat>): ContactState {
    if g.phase.Allowed? || sampledAt.None? || sampledAt.value <= g.after then g
    else if g.phase.AwaitRelease? && release then ContactState(AwaitContact, sampledAt.value)
    else if g.phase.AwaitContact? && contact then g.(phase := Allowed)
    else g
  }

  class UiResetHoldContactGate {
    var phase: Phase
    var after: nat

    ghost function State(): ContactState
      reads this
    {
      ContactState(phase, after)
    }

    constructor ()
      ensures State() == ContactState(Allowed, 0)
    {
      phase, after := Allowed, 0;
    }

    method Skip(now: nat)
      modifies this
      ensures State() == Skipped(now)
    {
      phase, after := AwaitRelease, now;
    }

    method Observe(release: bool, contact: bool, sampledAt: Option<nat>) returns (allowed: bool)
      modifies this
      ensures State() == Observed(old(State()), release, contact, sampledAt)
      ensures allowed == State().phase.Allowed?
    {
      if phase.Allowed? {
        return true;
      }
      if sampledAt.None? || sampledAt.value <= after {
        return false;
      }
      if phase.AwaitRelease? && release {
        phase, after := AwaitContact, sampledAt.value;
      } else if phase.AwaitContact? && contact {
        phase := Allowed;
      }
      return phase.Allowed?;
    }
  }

  // ----- reset flow

  datatype Kind = PinProtected | PinIndependent

  datatype Stage = Idle | PinRequired | Warning | Confirm | Hold | Executing | Finished

  datatype FlowState = FlowState(holdMillis: Option<nat>, stage: Stage, kind: Kind, startedAt: Option<nat>)

  function Configured(hold: Option<nat>): FlowState {
    FlowState(if hold.Some? && hold.value > 0 then hold else None, Idle, PinIndependent, None)
  }

  function Begun(f: FlowState, kind: Kind): FlowState {
    if f.holdMillis.None? || !f.stage.Idle? then f
    else f.(kind := kind, startedAt := None, stage := if kind.PinProtected? then PinRequired else Warning)
  }

  function PinVerified(f: FlowState): FlowState {
    if f.stage.PinRequired? && f.kind.PinProtected? then f.(stage := Warning) else f
  }

  function Acknowledged(f: FlowState): FlowState {
    if f.stage.Warning? then f.(stage := Confirm)
    else if f.stage.Confirm? then f.(stage := Hold, startedAt := None)
    else f
  }

  function Cancelled(f: FlowState): FlowState {
    if f.stage.Executing? || f.stage.Idle? then f else f.(stage := Idle, startedAt := None)
  }

  function Dismissed(f: FlowState): FlowState {
    if f.stage.Finished? then f.(stage := Idle) else f
  }

  /** The hold is complete on this tick, so the reset may execute. */
  predicate HoldReached(f: FlowState, held: bool, now: nat) {
    && f.stage.Hold? && f.holdMillis.Some? && held
    && f.startedAt.Some? && f.startedAt.value + f.holdMillis.value <= now
  }

  function HoldUpdated(f: FlowState, held: bool, now: nat): FlowState {
    if !f.stage.Hold? || f.holdMillis.None? then f
    else if !held then f.(startedAt := None)
    else if f.startedAt.None? || now < f.startedAt.value then f.(startedAt := Some(now))
    else if now - f.startedAt.value < f.holdMillis.value then f
    else f.(startedAt := None, stage := Executing)
  }

  class FactoryResetFlow {
    var holdMillis: Option<nat>
    var stage: Stage
    var kind: Kind
    var holdStartedMs: Option<nat>

    ghost function State(): FlowState
      reads this
    {
      FlowState(holdMillis, stage, kind, holdStartedMs)
    }

    constructor (hold: Option<nat>)
      ensures State() == Configured(hold)
    {
      holdMillis := if hold.Some? && hold.value > 0 then hold else None;
      stage, kind, holdStartedMs := Idle, PinIndependent, None;
    }

    /** setFactoryResetHoldMillis: an inactive flow is replaced by a new one. */
    method Reconfigure(hold: Option<nat>)
      modifies this
      ensures State() == if old(State()).stage.Idle? then Configured(hold) else old(State())
    {
      if !stage.Idle? {
        return;
      }
      holdMillis := if hold.Some? && hold.value > 0 then hold else None;
      stage, kind, holdStartedMs := Idle, PinIndependent, None;
    }

    method Begin(kind: Kind) returns (started: bool)
      modifies this
      ensures State() == Begun(old(State()), kind)
      ensures started == (old(State()).holdMillis.Some? && old(State()).stage.Idle?)
    {
      if holdMillis.None? || !stage.Idle? {
        return false;
      }
      this.kind := kind;
      holdStartedMs := None;
      stage := if kind.PinProtected? then PinRequired else Warning;
      return true;
    }

    method VerifyPin() returns (moved: bool)
      modifies this
      ensures State() == PinVerified(old(State()))
      ensures moved == (State() != old(State()))
    {
      if !stage.PinRequired? || !kind.PinProtected? {
        return false;
      }
      stage := Warning;
      return true;
    }

    method Acknowledge() returns (moved: bool)
      modifies this
      ensures State() == Acknowledged(old(State()))
      ensures moved == (State() != old(State()))
    {
      match stage
      case Warning =>
        stage := Confirm;
        return true;
      case Confirm =>
        stage, holdStartedMs := Hold, None;
        return true;
      case _ =>
        return false;
    }

    method Cancel()
      modifies this
      ensures State() == Cancelled(old(State()))
    {
      if stage.Executing? || stage.Idle? {
        return;
      }
      stage, holdStartedMs := Idle, None;
    }

    method UpdateHold(held: bool, nowMs: nat) returns (reached: bool)
      modifies this
      ensures State() == HoldUpdated(old(State()), held, nowMs)
      ensures reached == HoldReached(old(State()), held, nowMs)
      ensures reached <==> State().stage.Executing? && !old(State()).stage.Executing?
    {
      if !stage.Hold? || holdMillis.None? {
        return false;
      }
      if !held {
        holdStartedMs := None;
        return false;
      }
      if holdStartedMs.None? || nowMs < holdStartedMs.value {
        holdStartedMs := Some(nowMs);
        return false;
      }
      if nowMs - holdStartedMs.value < holdMillis.value {
        return false;
      }
      holdStartedMs := None;
      stage := Executing;
      return true;
    }

    method Finish()
      modifies this
      ensures State() == if old(State()).stage.Executing? then old(State()).(stage := Finished) else old(State())
    {
      if !stage.Executing? {
        return;
      }
      stage := Finished;
    }

    method Dismiss()
      modifies this
      ensures State() == Dismissed(old(State()))
    {
      if !stage.Finished? {
        return;
      }
      stage := Idle;
    }
  }
}
