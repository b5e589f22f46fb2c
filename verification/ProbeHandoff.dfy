/** The handshake of the bring-up probe: a caller that owns a stack-allocated
    context, a worker task that writes into it, and two sets of notification
    bits. Every wait clears all bits it sees, and every wait but the last join
    has a timeout. One step of the model is one access, one send or one wait of
    one of the two tasks, so a run is an interleaving chosen by the scheduler. */
module ProbeHandoff {

  import opened Wrappers

  /** Bits pending at the caller. */
  datatype Events = Events(ready: bool, completed: bool, cleanup: bool)

  /** Bits pending at the worker. */
  datatype Controls = Controls(start: bool, cleanup: bool)

  datatype CallerPc =
    | Create
    | WaitReady
    | SendStart
    | WaitCompleted
    | RequestCleanup(ok: bool)
    | Parked                     // the cleanup request was refused: keep the context forever
    | JoinBounded(ok: bool)
    | JoinForever(ok: bool)
    | Handoff(ok: bool)
    | Returned(result: bool)

  datatype WorkerPc =
    | NotCreated
    | WriteReady
    | SendReady
    | WaitControl
    | RunProbe
    | WriteCompleted
    | SendCompleted
    | WriteFailed(cleanupSeen: bool)
    | SendFailed(cleanupSeen: bool)
    | DeleteWait
    | MarkFailed
    | CopyCaller
    | SendCleanup
    | DeleteSelf
    | Gone

  datatype Context = Context(ready: bool, completed: bool, taskFailed: bool)

  /** What happened so far, for stating properties of whole runs. */
  datatype History = History(
    ran: bool,              // the probe workload was executed
    missed: bool,           // some wait ended without the bit it waited for
    expiredEarly: bool,     // a worker wait timed out before the caller asked for cleanup
    swallowed: bool,        // a wait that is not the join consumed the cleanup event
    notifiedDeleted: bool)  // the caller notified a task that had deleted itself

  datatype State = State(
    caller: CallerPc, worker: WorkerPc,
    events: Events, controls: Controls,
    context: Context, history: History)

  /** The scheduler's choice: which task moves, and the outcomes it cannot control. */
  datatype Choice =
    | CallerRuns(accepted: bool, measured: bool)
    | CallerTimesOut
    | WorkerRuns(probeFails: bool)
    | WorkerTimesOut

  const NO_EVENTS := Events(false, false, false)
  const NO_CONTROLS := Controls(false, false)

  const INITIAL := State(Create, NotCreated, NO_EVENTS, NO_CONTROLS,
                         Context(false, false, false),
                         History(false, false, false, false, false))

  predicate CleanupRequested(c: CallerPc) {
    c.JoinBounded? || c.JoinForever? || c.Handoff? || c.Returned?
  }

  function Fail(s: State, c: CallerPc): State {
    s.(caller := c, context := s.context.(taskFailed := true), history := s.history.(missed := true))
  }

  /** The events are consumed, whichever of them the wait was for. */
  function Consume(s: State, joining: bool): State {
    s.(events := NO_EVENTS,
       history := s.history.(swallowed := s.history.swallowed || (s.events.cleanup && !joining)))
  }

  function CallerStep(s: State, accepted: bool, measured: bool): Option<State> {
    match s.caller
    case Create =>
      if accepted then Some(s.(caller := WaitReady, worker := WriteReady))
      else Some(s.(caller := Returned(false)))
    case WaitReady =>
      if s.events == NO_EVENTS then None
      else if s.events.ready && s.context.ready then Some(Consume(s, false).(caller := SendStart))
      else Some(Fail(Consume(s, false), RequestCleanup(false)))
    case SendStart =>
      if accepted then Some(Notify(s, s.controls.(start := true)).(caller := WaitCompleted))
      else Some(s.(caller := RequestCleanup(false), context := s.context.(taskFailed := true)))
    case WaitCompleted =>
      if s.events == NO_EVENTS then None
      else if s.events.completed && s.context.completed then Some(Consume(s, false).(caller := RequestCleanup(true)))
      else Some(Fail(Consume(s, false), RequestCleanup(false)))
    case RequestCleanup(ok) =>
      if accepted then Some(Notify(s, s.controls.(cleanup := true)).(caller := JoinBounded(ok)))
      else Some(s.(caller := Parked))
    case Parked => None
    case JoinBounded(ok) =>
      if s.events == NO_EVENTS then None
      else if s.events.cleanup then Some(Consume(s, true).(caller := Handoff(ok)))
      else Some(Fail(Consume(s, true), JoinForever(ok)))
    case JoinForever(ok) =>
      if s.events == NO_EVENTS then None
      else if s.events.cleanup then Some(Consume(s, true).(caller := Handoff(ok)))
      else Some(Consume(s, true))
    case Handoff(ok) =>
      Some(s.(caller := Returned(ok && measured && s.context.completed && !s.context.taskFailed)))
    case Returned(_) => None
  }

  /** Setting bits of a task that is gone reaches nobody. */
  function Notify(s: State, controls: Controls): State {
    if s.worker.Gone? then s.(history := s.history.(notifiedDeleted := true))
    else s.(controls := controls)
  }

  function CallerTimeout(s: State): Option<State> {
    if s.events != NO_EVENTS then None
    else match s.caller
      case WaitReady => Some(Fail(s, RequestCleanup(false)))
      case WaitCompleted => Some(Fail(s, RequestCleanup(false)))
      case JoinBounded(ok) => Some(Fail(s, JoinForever(ok)))
      case _ => None
  }

  function WorkerStep(s: State, probeFails: bool): Option<State> {
    match s.worker
    case NotCreated => None
    case WriteReady => Some(s.(worker := SendReady, context := s.context.(ready := true)))
    case SendReady => Some(s.(worker := WaitControl, events := s.events.(ready := true)))
    case WaitControl =>
      if s.controls == NO_CONTROLS then None
      else if s.controls.start then Some(s.(worker := RunProbe, controls := NO_CONTROLS))
      else Some(s.(worker := WriteFailed(s.controls.cleanup), controls := NO_CONTROLS,
                   history := s.history.(missed := true)))
    case RunProbe =>
      Some(s.(worker := WriteCompleted,
              context := s.context.(taskFailed := s.context.taskFailed || probeFails),
              history := s.history.(ran := true)))
    case WriteCompleted => Some(s.(worker := SendCompleted, context := s.context.(completed := true)))
    case SendCompleted => Some(s.(worker := DeleteWait, events := s.events.(completed := true)))
    case WriteFailed(seen) =>
      Some(s.(worker := SendFailed(seen), context := s.context.(taskFailed := true, completed := true)))
    case SendFailed(seen) =>
      Some(s.(worker := if seen then CopyCaller else DeleteWait, events := s.events.(completed := true)))
    case DeleteWait =>
      if s.controls == NO_CONTROLS then None
      else if s.controls.cleanup then Some(s.(worker := CopyCaller, controls := NO_CONTROLS))
      else Some(s.(worker := MarkFailed, controls := NO_CONTROLS, history := s.history.(missed := true)))
    case MarkFailed => Some(s.(worker := CopyCaller, context := s.context.(taskFailed := true)))
    case CopyCaller => Some(s.(worker := SendCleanup))
    case SendCleanup => Some(s.(worker := DeleteSelf, events := s.events.(cleanup := true)))
    case DeleteSelf => Some(s.(worker := Gone))
    case Gone => None
  }

  function WorkerTimeout(s: State): Option<State> {
    if s.controls != NO_CONTROLS || !(s.worker.WaitControl? || s.worker.DeleteWait?) then None
    else Some(s.(worker := if s.worker.WaitControl? then WriteFailed(false) else MarkFailed,
                 history := s.history.(missed := true,
                                       expiredEarly := s.history.expiredEarly || !CleanupRequested(s.caller))))
  }

  function Step(s: State, c: Choice): Option<State> {
    match c
    case CallerRuns(accepted, measured) => CallerStep(s, accepted, measured)
    case CallerTimesOut => CallerTimeout(s)
    case WorkerRuns(probeFails) => WorkerStep(s, probeFails)
    case WorkerTimesOut => WorkerTimeout(s)
  }

  /** The state after a schedule, or None if the schedule picks a blocked task. */
  function Run(schedule: seq<Choice>): Option<State> {
    if schedule == [] then Some(INITIAL)
    else match Run(schedule[..|schedule| - 1])
      case None => None
      case Some(s) => Step(s, schedule[|schedule| - 1])
  }

  /** The next worker step reads or writes the caller's stack context. */
  predicate TouchesContext(w: WorkerPc) {
    w.WriteReady? || w.SendReady? || w.RunProbe? || w.WriteCompleted? || w.SendCompleted? ||
    w.WriteFailed? || w.SendFailed? || w.MarkFailed? || w.CopyCaller?
  }

  /** The worker will touch the context now or after its current wait. */
  predicate NeedsContext(w: WorkerPc) {
    TouchesContext(w) || w.WaitControl? || w.DeleteWait?
  }

  ghost predicate Stuck(s: State) {
    forall c: Choice :: Step(s, c).None?
  }

  predicate Finished(s: State) {
    s.caller.Returned? && (s.worker.NotCreated? || s.worker.Gone?)
  }

  predicate Hung(s: State) {
    s.caller.JoinForever? && s.worker.Gone? && s.events == NO_EVENTS
  }

  // ----- the inductive invariant

  predicate CleanupSent(s: State) { s.worker.DeleteSelf? || s.worker.Gone? }

  predicate Joined(s: State) {
    s.caller.Handoff? || (s.caller.Returned? && !s.worker.NotCreated?)
  }

  /** The worker left its final wait, or never started the workload. */
  predicate PastLastWait(w: WorkerPc) {
    w.WriteFailed? || w.SendFailed? || w.MarkFailed? || w.CopyCaller? || w.SendCleanup? || w.DeleteSelf? || w.Gone?
  }

  predicate StartConsumed(w: WorkerPc) {
    w.RunProbe? || w.WriteCompleted? || w.SendCompleted? || w.DeleteWait? || PastLastWait(w)
  }

  /** One cleanup event is sent, and it is in exactly one place. */
  predicate OneCleanupEvent(s: State) {
    && (CleanupSent(s) <==> s.events.cleanup || s.history.swallowed || Joined(s))
    && !(s.events.cleanup && s.history.swallowed)
    && !(s.events.cleanup && Joined(s))
    && !(s.history.swallowed && Joined(s))
  }

  predicate Phases(s: State) {
    && (s.caller.Create? ==> s == INITIAL)
    && (s.worker.NotCreated? <==> s.caller.Create? || s == INITIAL.(caller := Returned(false)))
    && (s.controls.cleanup ==> CleanupRequested(s.caller))
    && (s.controls.start ==> !s.caller.WaitReady? && !s.caller.SendStart?)
    && ((s.worker.WriteReady? || s.worker.SendReady? || s.worker.WaitControl?) && CleanupRequested(s.caller)
        ==> s.controls.cleanup)
  }

  /** While no worker wait expires early, the worker keeps step with the caller. */
  predicate InStep(s: State) {
    && (s.history.swallowed ==> s.history.expiredEarly)
    && (s.history.notifiedDeleted ==> s.history.expiredEarly)
    && (!s.history.expiredEarly && !CleanupRequested(s.caller) ==> !PastLastWait(s.worker))
    && (!s.history.expiredEarly && StartConsumed(s.worker) ==> !s.controls.start)
    && (!s.history.expiredEarly && (s.worker.WriteFailed? || s.worker.SendFailed?) ==> s.worker.cleanupSeen)
    && (!s.history.expiredEarly && (s.caller.WaitReady? || s.caller.SendStart?) ==> !StartConsumed(s.worker))
  }

  predicate Failures(s: State) {
    && (s.history.missed ==> s.context.taskFailed || s.worker.WriteFailed? || s.worker.MarkFailed?)
    && ((s.worker.WriteFailed? || s.worker.SendFailed? || s.worker.MarkFailed?) ==> s.history.missed)
    && (s.history.expiredEarly ==> s.history.missed)
    && (!s.history.missed && StartConsumed(s.worker) && !s.worker.RunProbe? ==> s.history.ran)
    && (s.caller.Returned? && s.caller.result ==> s.history.ran && !s.history.missed)
  }

  predicate Inv(s: State) {
    OneCleanupEvent(s) && Phases(s) && InStep(s) && Failures(s)
  }

  lemma WaitReadyKeepsInv(s: State)
    requires Inv(s) && s.caller.WaitReady? && s.events != NO_EVENTS
    ensures Inv(CallerStep(s, true, true).value) && Measure(CallerStep(s, true, true).value) < Measure(s)
  {
  }

  lemma WaitCompletedKeepsInv(s: State)
    requires Inv(s) && s.caller.WaitCompleted? && s.events != NO_EVENTS
    ensures Inv(CallerStep(s, true, true).value) && Measure(CallerStep(s, true, true).value) < Measure(s)
  {
  }

  lemma BoundedJoinKeepsInv(s: State)
    requires Inv(s) && s.caller.JoinBounded? && s.events != NO_EVENTS
    ensures Inv(CallerStep(s, true, true).value) && Measure(CallerStep(s, true, true).value) < Measure(s)
  {
  }

  lemma JoinKeepsInv(s: State)
    requires Inv(s) && s.caller.JoinForever? && s.events != NO_EVENTS
    ensures Inv(CallerStep(s, true, true).value) && Measure(CallerStep(s, true, true).value) < Measure(s)
  {
  }

  lemma CreateKeepsInv(s: State, accepted: bool, measured: bool)
    requires Inv(s) && s.caller.Create?
    ensures Inv(CallerStep(s, accepted, measured).value) && Measure(CallerStep(s, accepted, measured).value) < Measure(s)
  {
  }

  lemma SendStartKeepsInv(s: State, accepted: bool, measured: bool)
    requires Inv(s) && s.caller.SendStart?
    ensures Inv(CallerStep(s, accepted, measured).value) && Measure(CallerStep(s, accepted, measured).value) < Measure(s)
  {
  }

  lemma RequestCleanupKeepsInv(s: State, accepted: bool, measured: bool)
    requires Inv(s) && s.caller.RequestCleanup?
    ensures Inv(CallerStep(s, accepted, measured).value) && Measure(CallerStep(s, accepted, measured).value) < Measure(s)
  {
  }

  lemma HandoffKeepsInv(s: State, accepted: bool, measured: bool)
    requires Inv(s) && s.caller.Handoff?
    ensures Inv(CallerStep(s, accepted, measured).value) && Measure(CallerStep(s, accepted, measured).value) < Measure(s)
  {
  }

  lemma WorkerWaitKeepsInv(s: State)
    requires Inv(s) && (s.worker.WaitControl? || s.worker.DeleteWait?) && WorkerStep(s, true).Some?
    ensures Inv(WorkerStep(s, true).value) && Measure(WorkerStep(s, true).value) < Measure(s)
  {
    match s.worker
    case WaitControl =>
    case DeleteWait =>
  }

  lemma WorkerEarlyKeepsInv(s: State, probeFails: bool)
    requires Inv(s) && (s.worker.WriteReady? || s.worker.SendReady? || s.worker.RunProbe? || s.worker.WriteCompleted?
                        || s.worker.SendCompleted?)
    ensures Inv(WorkerStep(s, probeFails).value) && Measure(WorkerStep(s, probeFails).value) < Measure(s)
  {
    match s.worker
    case WriteReady =>
    case SendReady =>
    case RunProbe =>
    case WriteCompleted =>
    case SendCompleted =>
  }

  lemma WorkerLateKeepsInv(s: State)
    requires Inv(s) && PastLastWait(s.worker) && !s.worker.Gone?
    ensures Inv(WorkerStep(s, true).value) && Measure(WorkerStep(s, true).value) < Measure(s)
  {
    match s.worker
    case WriteFailed(_) =>
    case SendFailed(_) =>
    case MarkFailed =>
    case CopyCaller =>
    case SendCleanup =>
    case DeleteSelf =>
  }

  lemma WaitTimeoutKeepsInv(s: State)
    requires Inv(s) && (s.caller.WaitReady? || s.caller.WaitCompleted?) && CallerTimeout(s).Some?
    ensures Inv(CallerTimeout(s).value) && Measure(CallerTimeout(s).value) < Measure(s)
  {
    match s.caller
    case WaitReady =>
    case WaitCompleted =>
  }

  lemma JoinTimeoutKeepsInv(s: State)
    requires Inv(s) && s.caller.JoinBounded? && CallerTimeout(s).Some?
    ensures Inv(CallerTimeout(s).value) && Measure(CallerTimeout(s).value) < Measure(s)
  {
  }

  lemma WorkerTimeoutKeepsInv(s: State)
    requires Inv(s) && WorkerTimeout(s).Some?
    ensures Inv(WorkerTimeout(s).value) && Measure(WorkerTimeout(s).value) < Measure(s)
  {
  }

  /** Every step keeps the invariant and uses up some of the steps left. */
  lemma StepKeepsInv(s: State, c: Choice)
    requires Inv(s) && Step(s, c).Some?
    ensures Inv(Step(s, c).value) && Measure(Step(s, c).value) < Measure(s)
  {
    match c
    case CallerRuns(accepted, measured) =>
      match s.caller {
        case Create => CreateKeepsInv(s, accepted, measured);
        case WaitReady => WaitReadyKeepsInv(s);
        case SendStart => SendStartKeepsInv(s, accepted, measured);
        case WaitCompleted => WaitCompletedKeepsInv(s);
        case RequestCleanup(_) => RequestCleanupKeepsInv(s, accepted, measured);
        case JoinBounded(_) => BoundedJoinKeepsInv(s);
        case JoinForever(_) => JoinKeepsInv(s);
        case Handoff(_) => HandoffKeepsInv(s, accepted, measured);
        case _ =>
      }
    case WorkerRuns(probeFails) =>
      if s.worker.WaitControl? || s.worker.DeleteWait? {
        WorkerWaitKeepsInv(s);
      } else if PastLastWait(s.worker) {
        WorkerLateKeepsInv(s);
      } else {
        WorkerEarlyKeepsInv(s, probeFails);
      }
    case CallerTimesOut =>
      if s.caller.JoinBounded? {
        JoinTimeoutKeepsInv(s);
      } else {
        WaitTimeoutKeepsInv(s);
      }
    case WorkerTimesOut => WorkerTimeoutKeepsInv(s);
  }

  lemma {:induction false} ReachableInv(schedule: seq<Choice>)
    requires Run(schedule).Some?
    ensures Inv(Run(schedule).value)
  {
    if schedule != [] {
      var prefix := schedule[..|schedule| - 1];
      ReachableInv(prefix);
      StepKeepsInv(Run(prefix).value, schedule[|schedule| - 1]);
    }
  }

  /** Whatever the interleaving and the timeouts, once run() has returned the
      worker never reads or writes the caller's context again. */
  lemma NoAccessAfterReturn(schedule: seq<Choice>, more: seq<Choice>)
    requires Run(schedule).Some? && Run(schedule).value.caller.Returned?
    requires Run(schedule + more).Some?
    ensures Run(schedule + more).value.caller == Run(schedule).value.caller
    ensures !NeedsContext(Run(schedule + more).value.worker)
  {
    ReachableInv(schedule + more);
    ReturnedIsFinal(schedule, more);
  }

  lemma {:induction false} ReturnedIsFinal(schedule: seq<Choice>, more: seq<Choice>)
    requires Run(schedule).Some? && Run(schedule).value.caller.Returned?
    requires Run(schedule + more).Some?
    ensures Run(schedule + more).value.caller == Run(schedule).value.caller
    ensures Run(schedule + more).value.context == Run(schedule).value.context
  {
    if more == [] {
      assert schedule + more == schedule;
    } else {
      var init := more[..|more| - 1];
      assert (schedule + more)[..|schedule + more| - 1] == schedule + init;
      ReturnedIsFinal(schedule, init);
      ReachableInv(schedule + init);
    }
  }

  // ----- every run ends

  function CallerRank(c: CallerPc): nat {
    match c
    case Create => 8
    case WaitReady => 7
    case SendStart => 6
    case WaitCompleted => 5
    case RequestCleanup(_) => 4
    case JoinBounded(_) => 3
    case JoinForever(_) => 2
    case Handoff(_) => 1
    case Parked => 0
    case Returned(_) => 0
  }

  function WorkerRank(w: WorkerPc): nat {
    match w
    case NotCreated => 12
    case WriteReady => 11
    case SendReady => 10
    case WaitControl => 9
    case RunProbe => 8
    case WriteCompleted => 7
    case SendCompleted => 6
    case WriteFailed(_) => 7
    case SendFailed(_) => 6
    case DeleteWait => 5
    case MarkFailed => 4
    case CopyCaller => 3
    case SendCleanup => 2
    case DeleteSelf => 1
    case Gone => 0
  }

  function Bit(b: bool): nat { if b then 1 else 0 }

  /** Steps left: a worker step may post one event, a join round consumes one. */
  function Measure(s: State): nat {
    2 * WorkerRank(s.worker) + CallerRank(s.caller)
    + Bit(s.events.ready) + Bit(s.events.completed) + Bit(s.events.cleanup)
  }

  lemma {:induction false} EveryRunIsBounded(schedule: seq<Choice>)
    requires Run(schedule).Some?
    ensures |schedule| + Measure(Run(schedule).value) <= Measure(INITIAL) == 32
  {
    if schedule != [] {
      var prefix := schedule[..|schedule| - 1];
      EveryRunIsBounded(prefix);
      ReachableInv(prefix);
      StepKeepsInv(Run(prefix).value, schedule[|schedule| - 1]);
    }
  }

  // ----- when the join hangs, exactly

  /** A run that cannot go on has either finished, was parked by a refused
      request, or hangs in the join; and it hangs exactly when an earlier wait
      of the caller swallowed the cleanup event. */
  lemma HangsExactlyWhenSwallowed(schedule: seq<Choice>)
    requires Run(schedule).Some? && Stuck(Run(schedule).value)
    ensures var s := Run(schedule).value;
            && (Finished(s) || Hung(s) || s.caller.Parked?)
            && (Hung(s) ==> s.history.swallowed)
            && (s.history.swallowed && !s.caller.Parked? ==> Hung(s))
  {
    ReachableInv(schedule);
    var s := Run(schedule).value;
    assert Step(s, CallerRuns(true, true)).None?;
    assert Step(s, CallerTimesOut).None?;
    assert Step(s, WorkerRuns(true)).None?;
    assert Step(s, WorkerTimesOut).None?;
  }

  /** If no worker control wait expires before the caller asks for cleanup, then
      only the join consumes the cleanup event, no deleted task is notified, and
      every maximal run returns, unless the cleanup request itself was refused. */
  lemma JoinCannotHang(schedule: seq<Choice>)
    requires Run(schedule).Some? && !Run(schedule).value.history.expiredEarly
    ensures !Run(schedule).value.history.swallowed && !Run(schedule).value.history.notifiedDeleted
    ensures Stuck(Run(schedule).value) ==> Finished(Run(schedule).value) || Run(schedule).value.caller.Parked?
  {
    ReachableInv(schedule);
    if Stuck(Run(schedule).value) {
      HangsExactlyWhenSwallowed(schedule);
    }
  }

  lemma Extend(schedule: seq<Choice>, c: Choice) returns (longer: seq<Choice>)
    requires Run(schedule).Some?
    ensures longer == schedule + [c] && Run(longer) == Step(Run(schedule).value, c)
  {
    longer := schedule + [c];
    assert longer[..|longer| - 1] == schedule;
  }

  lemma ReachesCompletion() returns (schedule: seq<Choice>)
    ensures Run(schedule) == Some(State(WaitCompleted, RunProbe, NO_EVENTS, NO_CONTROLS,
                                        Context(true, false, false), History(false, false, false, false, false)))
  {
    var caller, worker := CallerRuns(true, true), WorkerRuns(false);
    schedule := Extend([], caller);
    schedule := Extend(schedule, worker);
    schedule := Extend(schedule, worker);
    schedule := Extend(schedule, caller);
    schedule := Extend(schedule, caller);
    schedule := Extend(schedule, worker);
  }

  lemma ReachesExpiry() returns (schedule: seq<Choice>)
    ensures Run(schedule) == Some(State(WaitCompleted, MarkFailed, Events(false, true, false), NO_CONTROLS,
                                        Context(true, true, false), History(true, true, true, false, false)))
  {
    var worker := WorkerRuns(false);
    schedule := ReachesCompletion();
    schedule := Extend(schedule, worker);
    schedule := Extend(schedule, worker);
    schedule := Extend(schedule, worker);
    schedule := Extend(schedule, WorkerTimesOut);
  }

  lemma ReachesLateCleanup() returns (schedule: seq<Choice>)
    ensures Run(schedule) == Some(State(WaitCompleted, SendCleanup, Events(false, true, false), NO_CONTROLS,
                                        Context(true, true, true), History(true, true, true, false, false)))
  {
    schedule := ReachesExpiry();
    schedule := Extend(schedule, WorkerRuns(false));
    schedule := Extend(schedule, WorkerRuns(false));
  }

  lemma ReachesMergedEvents() returns (schedule: seq<Choice>)
    ensures Run(schedule) == Some(State(WaitCompleted, Gone, Events(false, true, true), NO_CONTROLS,
                                        Context(true, true, true), History(true, true, true, false, false)))
  {
    schedule := ReachesLateCleanup();
    schedule := Extend(schedule, WorkerRuns(false));
    schedule := Extend(schedule, WorkerRuns(false));
  }

  lemma HungIsStuck(s: State)
    requires Hung(s)
    ensures Stuck(s)
  {
    forall c: Choice ensures Step(s, c).None? {
      match c case _ =>
    }
  }

  /** The hypothesis of JoinCannotHang is needed: here the caller is not
      scheduled while the worker's last wait expires, so Completed and Cleanup
      arrive merged, and the wait for Completed swallows the cleanup event. */
  lemma HangIsReachable() returns (schedule: seq<Choice>)
    ensures Run(schedule).Some? && Hung(Run(schedule).value) && Stuck(Run(schedule).value)
    ensures Run(schedule).value.history.expiredEarly
  {
    var caller := CallerRuns(true, true);
    schedule := ReachesMergedEvents();
    schedule := Extend(schedule, caller);
    schedule := Extend(schedule, caller);
    schedule := Extend(schedule, CallerTimesOut);
    HungIsStuck(Run(schedule).value);
  }

  /** run() reports success only if the workload ran and every wait of both
      tasks ended with the bit it was waiting for. */
  lemma PassMeansCleanHandshake(schedule: seq<Choice>)
    requires Run(schedule).Some? && Run(schedule).value.caller == Returned(true)
    ensures Run(schedule).value.history.ran && !Run(schedule).value.history.missed
    ensures !Run(schedule).value.history.expiredEarly
  {
    ReachableInv(schedule);
  }
}
