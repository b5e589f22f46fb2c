/** The touch state that the display task's read callback publishes and the UI
    loop polls. Both sides, and the calibration setter, run under one lock, so
    the model's steps are the three critical sections. */
module TouchInput {
  import opened Wrappers

  /** Affine calibration from raw controller values to screen coordinates. */
  datatype Model = Model(a: real, b: real, c: real, d: real, e: real, f: real)

  datatype Status = NoContact | Contact | ControllerError

  datatype RawSample = RawSample(status: Status, contact: bool, rawX: nat, rawY: nat)

  datatype Point = Point(x: nat, y: nat)

  datatype Published = Published(
    portStarted: bool, initialized: bool,
    model: Option<Model>,
    active: bool, point: Point, edge: bool,
    release: bool, sampledAt: Option<nat>)

  datatype PollResult = PollResult(
    contactHeld: bool, point: Option<Point>, freshEdge: bool,
    release: bool, sampledAt: Option<nat>)

  const SILENT := PollResult(false, None, false, false, None)
  const UNPUBLISHED := Published(false, false, None, false, Point(0, 0), false, false, None)

  function ClampToDisplay(value: real, max: nat): (r: nat)
    ensures value < 0.0 ==> r == 0
    ensures value > max as real ==> r == max
    ensures 0.0 <= value <= max as real ==> r as real <= value < r as real + 1.0
  {
    if value < 0.0 then 0
    else if value > max as real then max
    else value.Floor
  }

  function ScreenPoint(m: Model, s: RawSample): Point {
    var x, y := s.rawX as real, s.rawY as real;
    Point(ClampToDisplay(m.a * x + m.b * y + m.c, 319), ClampToDisplay(m.d * x + m.e * y + m.f, 239))
  }

  predicate IsContact(s: RawSample) { s.status.Contact? && s.contact }

  /** The read callback; it is registered only once the port is started. */
  function Sampled(p: Published, s: RawSample, now: nat): Published {
    if !p.portStarted then p
    else if p.model.None? then p.(release := false, sampledAt := None, active := false)
    else if IsContact(s) then
      p.(release := false, sampledAt := Some(now), active := true, edge := p.edge || !p.active,
         point := ScreenPoint(p.model.value, s))
    else
      p.(release := s.status.NoContact?, sampledAt := if s.status.NoContact? then Some(now) else None, active := false)
  }

  /** setTouchCalibration: before the port exists there is nothing to reset; on
      a lock timeout everything stays as it was. */
  function Recalibrated(p: Published, model: Option<Model>, locked: bool): Published {
    if !p.portStarted then p.(model := model)
    else if !locked then p
    else p.(model := model, active := false, edge := false, release := false, sampledAt := None, point := Point(0, 0))
  }

  predicate CanPoll(p: Published, locked: bool) { p.initialized && p.portStarted && locked }

  function PollOf(p: Published, locked: bool): PollResult {
    if CanPoll(p, locked)
    then PollResult(p.active, if p.active then Some(p.point) else None, p.edge, p.release, p.sampledAt)
    else SILENT
  }

  function Polled(p: Published, locked: bool): Published {
    if CanPoll(p, locked) then p.(edge := false) else p
  }

  class LvglTouch {
    var portStarted: bool
    var initialized: bool
    var touchCalibrationModel: Option<Model>
    var touchPressActive: bool
    var touchPressX: nat
    var touchPressY: nat
    var touchPressEdgePending: bool
    var physicalRelease: bool
    var sampledAtMillis: Option<nat>

    ghost function State(): Published
      reads this
    {
      Published(portStarted, initialized, touchCalibrationModel, touchPressActive, Point(touchPressX, touchPressY),
                touchPressEdgePending, physicalRelease, sampledAtMillis)
    }

    constructor ()
      ensures State() == UNPUBLISHED
    {
      portStarted, initialized := false, false;
      touchCalibrationModel := None;
      touchPressActive, touchPressX, touchPressY, touchPressEdgePending := false, 0, 0, false;
      physicalRelease, sampledAtMillis := false, None;
    }

    method ReadTouchFailClosed(sample: RawSample, now: nat)
      requires portStarted
      modifies this
      ensures State() == Sampled(old(State()), sample, now)
    {
      physicalRelease := false;
      sampledAtMillis := None;
      if touchCalibrationModel.None? {
        touchPressActive := false;
        return;
      }
      if sample.status.NoContact? {
        physicalRelease := true;
        sampledAtMillis := Some(now);
      }
      if !sample.status.Contact? || !sample.contact {
        touchPressActive := false;
        return;
      }
      sampledAtMillis := Some(now);
      var clamped := ScreenPoint(touchCalibrationModel.value, sample);
      if !touchPressActive {
        touchPressEdgePending := true;
      }
      touchPressActive := true;
      touchPressX := clamped.x;
      touchPressY := clamped.y;
    }

    method SetTouchCalibration(activeModel: Option<Model>, locked: bool)
      modifies this
      ensures State() == Recalibrated(old(State()), activeModel, locked)
    {
      if !portStarted {
        touchCalibrationModel := activeModel;
        return;
      }
      if !locked {
        return;
      }
      touchCalibrationModel := activeModel;
      touchPressActive, touchPressEdgePending := false, false;
      physicalRelease, sampledAtMillis := false, None;
      touchPressX, touchPressY := 0, 0;
    }

    method PollTouch(locked: bool) returns (result: PollResult)
      modifies this
      ensures result == PollOf(old(State()), locked)
      ensures State() == Polled(old(State()), locked)
    {
      result := SILENT;
      if !initialized || !portStarted || !locked {
        return;
      }
      result := result.(release := physicalRelease, sampledAt := sampledAtMillis, contactHeld := touchPressActive);
      if touchPressActive {
        result := result.(point := Some(Point(touchPressX, touchPressY)));
      }
      if touchPressEdgePending {
        result := result.(freshEdge := true);
        touchPressEdgePending := false;
      }
    }
  }
}
