/** The touch calibration harness: the owner's confirmation loop and the capture
    loop, both waiting for one complete touch session on a sample trace. */
module CaptureSession {
  import opened Wrappers

  const MINIMUM_CONTACT_SAMPLES := 15
  const STABLE_RELEASE_SAMPLES := 5
  const COUNTER_RANGE := 0x1_0000_0000

  type uint16 = n: nat | n < 0x1_0000

  datatype Status = Contact | NoContact | Failed

  datatype Sample = Sample(status: Status, contact: bool, x: uint16, y: uint16, strength: uint16, time: nat) {
    predicate IsContact() { status == Contact && contact }

    predicate IsRelease() { status == NoContact }

    /** A contact status without contact counts as a controller error too. */
    predicate IsError() { !IsContact() && !IsRelease() }
  }

  // ----- when a session is complete

  /** Five consecutive no-contact samples end at k. */
  predicate GapEnds(trace: seq<Sample>, k: nat)
    requires k < |trace|
  {
    STABLE_RELEASE_SAMPLES <= k + 1 && forall j :: k + 1 - STABLE_RELEASE_SAMPLES <= j <= k ==> trace[j].IsRelease()
  }

  /** No session crosses an error or a five-sample gap. */
  predicate Boundary(trace: seq<Sample>, k: nat)
    requires k < |trace|
  {
    trace[k].IsError() || GapEnds(trace, k)
  }

  /** The first sample after the last boundary before i. */
  function SessionStart(trace: seq<Sample>, i: nat): (b: nat)
    requires i <= |trace|
    ensures b <= i && (b > 0 ==> Boundary(trace, b - 1))
    ensures forall j :: b <= j < i ==> !Boundary(trace, j)
  {
    if i == 0 || Boundary(trace, i - 1) then i else SessionStart(trace, i - 1)
  }

  function Contacts(trace: seq<Sample>, from: nat, to: nat): seq<Sample>
    requires from <= to <= |trace|
  {
    if from == to then []
    else Contacts(trace, from, to - 1) + if trace[to - 1].IsContact() then [trace[to - 1]] else []
  }

  function SessionContacts(trace: seq<Sample>, i: nat): seq<Sample>
    requires i <= |trace|
  {
    Contacts(trace, SessionStart(trace, i), i)
  }

  /** A gap ends a session whose 32-bit contact counter shows at least fifteen. */
  predicate Completes(trace: seq<Sample>, k: nat)
    requires k < |trace|
  {
    GapEnds(trace, k) && |SessionContacts(trace, k)| % COUNTER_RANGE >= MINIMUM_CONTACT_SAMPLES
  }

  ghost predicate FirstCompletion(trace: seq<Sample>, r: Option<nat>) {
    match r
    case None => forall j :: 0 <= j < |trace| ==> !Completes(trace, j)
    case Some(k) => k < |trace| && Completes(trace, k) && forall j :: 0 <= j < k ==> !Completes(trace, j)
  }

  // ----- the state of both loops

  /** `session`, `contacts` and `released` describe the trace before i. */
  ghost predicate Tracks(trace: seq<Sample>, i: nat, session: bool, contacts: nat, released: nat) {
    && i <= |trace|
    && (session <==> SessionContacts(trace, i) != [])
    && contacts == |SessionContacts(trace, i)| % COUNTER_RANGE
    && (session ==>
          && released < STABLE_RELEASE_SAMPLES && released < i && trace[i - 1 - released].IsContact()
          && forall j :: i - released <= j < i ==> trace[j].IsRelease())
  }

  lemma ContactStep(trace: seq<Sample>, i: nat, session: bool, contacts: nat, released: nat)
    requires Tracks(trace, i, session, contacts, released) && i < |trace| && trace[i].IsContact()
    ensures Tracks(trace, i + 1, true, (contacts + 1) % COUNTER_RANGE, 0) && !Completes(trace, i)
    ensures SessionContacts(trace, i + 1) == SessionContacts(trace, i) + [trace[i]]
  {
    assert !Boundary(trace, i);
  }

  lemma ReleaseStep(trace: seq<Sample>, i: nat, session: bool, contacts: nat, released: nat)
    requires Tracks(trace, i, session, contacts, released) && i < |trace| && trace[i].IsRelease()
    ensures session && released + 1 == STABLE_RELEASE_SAMPLES ==>
              && Tracks(trace, i + 1, false, 0, 0)
              && (Completes(trace, i) <==> contacts >= MINIMUM_CONTACT_SAMPLES)
    ensures session && released + 1 < STABLE_RELEASE_SAMPLES ==>
              && Tracks(trace, i + 1, true, contacts, released + 1) && !Completes(trace, i)
              && SessionContacts(trace, i + 1) == SessionContacts(trace, i)
    ensures !session ==> Tracks(trace, i + 1, false, 0, 0) && !Completes(trace, i)
  {
    if session {
      if released + 1 == STABLE_RELEASE_SAMPLES {
        assert GapEnds(trace, i);
      } else {
        assert !GapEnds(trace, i) by { assert !trace[i - 1 - released].IsRelease(); }
      }
    }
  }

  lemma ErrorStep(trace: seq<Sample>, i: nat, session: bool, contacts: nat, released: nat)
    requires Tracks(trace, i, session, contacts, released) && i < |trace| && trace[i].IsError()
    ensures Tracks(trace, i + 1, false, 0, 0) && !Completes(trace, i)
  {
    assert !GapEnds(trace, i);
  }

  /** The confirmation loop stops at the first completed session, and only there. */
  method WaitForOwnerGeometryConfirmation(trace: seq<Sample>) returns (r: Option<nat>)
    ensures FirstCompletion(trace, r)
  {
    var contacts: nat, released: nat, session := 0, 0, false;
    for i := 0 to |trace|
      invariant Tracks(trace, i, session, contacts, released)
      invariant forall j :: 0 <= j < i ==> !Completes(trace, j)
    {
      var sample := trace[i];
      if sample.IsContact() {
        ContactStep(trace, i, session, contacts, released);
        if !session {
          session, contacts, released := true, 0, 0;
        }
        contacts := (contacts + 1) % COUNTER_RANGE;
        released := 0;
      } else if sample.IsRelease() {
        ReleaseStep(trace, i, session, contacts, released);
        if session {
          if released < STABLE_RELEASE_SAMPLES {
            released := released + 1;
          }
          if released >= STABLE_RELEASE_SAMPLES {
            if contacts >= MINIMUM_CONTACT_SAMPLES {
              return Some(i);
            }
            session, contacts, released := false, 0, 0;
          }
        }
      } else {
        ErrorStep(trace, i, session, contacts, released);
        session, contacts, released := false, 0, 0;
      }
    }
    r := None;
  }

  // ----- the reported statistics

  class ContactStats {
    var sampleCount: nat
    var minX: uint16
    var maxX: uint16
    var minY: uint16
    var maxY: uint16
    var minStrength: uint16
    var maxStrength: uint16
    var first: nat
    var last: nat

    constructor ()
      ensures Describes([])
    {
      sampleCount, first, last := 0, 0, 0;
      minX, maxX, minY, maxY, minStrength, maxStrength := 0xFFFF, 0, 0xFFFF, 0, 0xFFFF, 0;
    }

    /** The fields are exactly the statistics of these contacts. The counter is
        32 bits wide, and `first` is taken again whenever it is zero. */
    ghost predicate Describes(cs: seq<Sample>)
      reads this
    {
      && sampleCount == |cs| % COUNTER_RANGE
      && (cs == [] ==> first == last == 0)
      && (cs != [] ==>
            && first == FirstSeen(cs).time
            && last == cs[|cs| - 1].time)
      && IsRange(minX, maxX, Xs(cs)) && IsRange(minY, maxY, Ys(cs)) && IsRange(minStrength, maxStrength, Strengths(cs))
    }

    method Widen(s: Sample, ghost before: seq<Sample>)
      requires IsRange(minX, maxX, Xs(before)) && IsRange(minY, maxY, Ys(before))
      requires IsRange(minStrength, maxStrength, Strengths(before))
      modifies `minX, `maxX, `minY, `maxY, `minStrength, `maxStrength
      ensures IsRange(minX, maxX, Xs(before + [s])) && IsRange(minY, maxY, Ys(before + [s]))
      ensures IsRange(minStrength, maxStrength, Strengths(before + [s]))
    {
      ColumnsGrow(before, s);
      RangeGrows(minX, maxX, Xs(before), s.x);
      RangeGrows(minY, maxY, Ys(before), s.y);
      RangeGrows(minStrength, maxStrength, Strengths(before), s.strength);
      minX, maxX := Min(minX, s.x), Max(maxX, s.x);
      minY, maxY := Min(minY, s.y), Max(maxY, s.y);
      minStrength, maxStrength := Min(minStrength, s.strength), Max(maxStrength, s.strength);
    }

    method Reset()
      modifies this
      ensures Describes([])
    {
      sampleCount, first, last := 0, 0, 0;
      minX, maxX, minY, maxY, minStrength, maxStrength := 0xFFFF, 0, 0xFFFF, 0, 0xFFFF, 0;
    }

    method Observe(s: Sample, ghost before: seq<Sample>)
      requires Describes(before)
      modifies this
      ensures Describes(before + [s])
    {
      FirstIndex(before, s);
      if sampleCount == 0 {
        first := s.time;
      }
      sampleCount := (sampleCount + 1) % COUNTER_RANGE;
      last := s.time;
      Widen(s, before);
    }
  }

  function Min(a: uint16, b: uint16): uint16 { if b < a then b else a }

  function Max(a: uint16, b: uint16): uint16 { if a < b then b else a }

  function Xs(cs: seq<Sample>): seq<uint16> { seq(|cs|, i requires 0 <= i < |cs| => cs[i].x) }

  function Ys(cs: seq<Sample>): seq<uint16> { seq(|cs|, i requires 0 <= i < |cs| => cs[i].y) }

  function Strengths(cs: seq<Sample>): seq<uint16> { seq(|cs|, i requires 0 <= i < |cs| => cs[i].strength) }

  /** Smallest and largest of the values; of none, the empty range. */
  ghost predicate IsRange(low: uint16, high: uint16, values: seq<uint16>) {
    && (values == [] ==> low == 0xFFFF && high == 0)
    && (values != [] ==> low in values && high in values)
    && forall v :: v in values ==> low <= v <= high
  }

  lemma RangeGrows(low: uint16, high: uint16, values: seq<uint16>, v: uint16)
    requires IsRange(low, high, values)
    ensures IsRange(Min(low, v), Max(high, v), values + [v])
  {
    assert (values + [v])[|values|] == v;
  }

  lemma ColumnsGrow(cs: seq<Sample>, s: Sample)
    ensures Xs(cs + [s]) == Xs(cs) + [s.x] && Ys(cs + [s]) == Ys(cs) + [s.y]
    ensures Strengths(cs + [s]) == Strengths(cs) + [s.strength]
  {
  }

  /** The contact whose time stays in `first`: the last one seen at a zero counter. */
  ghost function FirstSeen(cs: seq<Sample>): Sample
    requires cs != []
  {
    cs[(|cs| - 1) / COUNTER_RANGE * COUNTER_RANGE]
  }

  lemma FirstIndex(cs: seq<Sample>, s: Sample)
    ensures FirstSeen(cs + [s]) == if |cs| % COUNTER_RANGE == 0 then s else FirstSeen(cs)
    ensures |cs + [s]| % COUNTER_RANGE == (|cs| % COUNTER_RANGE + 1) % COUNTER_RANGE
  {
    var n := |cs|;
    if n % COUNTER_RANGE == 0 {
      assert n / COUNTER_RANGE * COUNTER_RANGE == n;
    } else {
      assert n / COUNTER_RANGE == (n - 1) / COUNTER_RANGE;
    }
  }

  /** The capture loop stops at the same sample as the confirmation loop, with
      the statistics of exactly the completed session. */
  method CaptureContact(trace: seq<Sample>) returns (r: Option<nat>, stats: ContactStats)
    ensures FirstCompletion(trace, r)
    ensures r.Some? ==> stats.Describes(SessionContacts(trace, r.value))
  {
    stats := new ContactStats();
    var session, released := false, 0;
    for i := 0 to |trace|
      invariant fresh(stats) && stats.Describes(SessionContacts(trace, i))
      invariant Tracks(trace, i, session, stats.sampleCount, released)
      invariant forall j :: 0 <= j < i ==> !Completes(trace, j)
    {
      var sample := trace[i];
      if sample.IsContact() {
        ContactStep(trace, i, session, stats.sampleCount, released);
        if !session {
          session, released := true, 0;
          stats.Reset();
        }
        released := 0;
        stats.Observe(sample, SessionContacts(trace, i));
      } else if sample.IsRelease() {
        ReleaseStep(trace, i, session, stats.sampleCount, released);
        if session {
          if released < STABLE_RELEASE_SAMPLES {
            released := released + 1;
          }
          if released >= STABLE_RELEASE_SAMPLES {
            if stats.sampleCount >= MINIMUM_CONTACT_SAMPLES {
              r := Some(i);
              return;
            }
            session, released := false, 0;
            stats.Reset();
          }
        }
      } else {
        ErrorStep(trace, i, session, stats.sampleCount, released);
        session, released := false, 0;
        stats.Reset();
      }
    }
    r := None;
  }

  /** The two loops cannot disagree on when a trace is accepted. */
  lemma OneCompletion(trace: seq<Sample>, a: Option<nat>, b: Option<nat>)
    requires FirstCompletion(trace, a) && FirstCompletion(trace, b)
    ensures a == b
  {
    if a.Some? && b.Some? {
      assert !(a.value < b.value) && !(b.value < a.value);
    }
  }
}
