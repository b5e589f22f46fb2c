/** The redraw decision of the UI loop: a key of revisions and small values is
    compared with the key of the last drawn screen, so that an unchanged screen
    is not built again. */
module RenderGate {
  import opened Wrappers
  import HitTest

  /** Semantic content whose inner structure the key never looks at. */
  type Content = string

  datatype ZoneRule = ZoneRule(europeanUnion: bool, offsetMinutes: int)

  datatype Revisions = Revisions(user: Option<nat>, catalog: Option<nat>)

  /** What a granted read lease returns: a catalog comes with its own revision. */
  datatype Source = Source(locale: string, zoneId: string, rule: ZoneRule, catalog: Content, revision: nat)

  const DEFAULT_SOURCE := Source("en", "", ZoneRule(false, 0), "", 0)

  // ----- presentation cache

  datatype Cache = Cache(source: Option<Source>, adopted: Option<(nat, nat)>, last: Option<Source>)

  const EMPTY_CACHE := Cache(None, None, None)

  predicate Decidable(r: Revisions) { r.user.Some? && r.catalog.Some? }

  predicate NeedsFill(c: Cache, r: Revisions) {
    c.adopted.None? || (Decidable(r) && (r.user.value, r.catalog.value) != c.adopted.value)
  }

  function Refreshed(c: Cache, networkPage: bool, r: Revisions, fill: Option<Source>): Cache {
    if networkPage then c.(source := None, adopted := None)
    else if !NeedsFill(c, r) || fill.None? then c
    else Cache(fill, if Decidable(r) then Some((r.user.value, r.catalog.value)) else None, fill)
  }

  function Copy(c: Cache): Source { if c.source.Some? then c.source.value else DEFAULT_SOURCE }

  /** Locale and time zone survive the eviction of the copy. */
  function Kept(c: Cache): Source { if c.last.Some? then c.last.value else DEFAULT_SOURCE }

  /** What a refresh leaves: no copy on the network page, the requested revisions
      if the source answered, and otherwise the old copy. */
  lemma RefreshIsCurrent(c: Cache, networkPage: bool, r: Revisions, fill: Option<Source>)
    ensures var d := Refreshed(c, networkPage, r, fill);
            && (networkPage ==> d.source.None? && d.adopted.None? && Kept(d) == Kept(c))
            && (!networkPage && Decidable(r) ==>
                  d.adopted == Some((r.user.value, r.catalog.value)) || (fill.None? && d == c))
            && (!networkPage && !Decidable(r) && c.adopted.Some? ==> d == c)
            && (d.last != c.last ==> !networkPage && fill.Some? && d.source == fill == d.last)
  {
  }

  /** Once the requested revisions are adopted, further refreshes for them do not
      ask the source again, whatever it would answer. */
  lemma RefreshOnce(c: Cache, r: Revisions, fill: Source, again: Option<Source>)
    requires Decidable(r)
    ensures var d := Refreshed(c, false, r, Some(fill)); Refreshed(d, false, r, again) == d
  {
  }

  class PresentationCache {
    var source: Option<Source>
    var adoptedRevisions: Option<(nat, nat)>
    var last: Option<Source>

    ghost function State(): Cache
      reads this
    {
      Cache(source, adoptedRevisions, last)
    }

    constructor ()
      ensures State() == EMPTY_CACHE
    {
      source, adoptedRevisions, last := None, None, None;
    }

    method Update(networkPage: bool, r: Revisions, fill: Option<Source>)
      modifies this
      ensures State() == Refreshed(old(State()), networkPage, r, fill)
    {
      if networkPage {
        Evict();
        return;
      }
      var needsFill := true;
      if adoptedRevisions.Some? {
        needsFill := false;
        if r.user.Some? && r.catalog.Some? {
          needsFill := r.user.value != adoptedRevisions.value.0 || r.catalog.value != adoptedRevisions.value.1;
        }
      }
      if !needsFill || fill.None? {
        return;
      }
      source := fill;
      last := fill;
      adoptedRevisions :=
        if r.user.Some? && r.catalog.Some? then Some((r.user.value, r.catalog.value)) else None;
    }

    method Evict()
      modifies `source, `adoptedRevisions
      ensures source.None? && adoptedRevisions.None?
    {
      source := None;
      adoptedRevisions := None;
    }
  }

  // ----- clock text

  /** The calendar facts the local time needs, for any calendar: the year of a
      day, the day of the last Sunday of a month, the representable days. */
  datatype Calendar = Calendar(yearOf: int -> int, lastSunday: (int, int) -> int, representable: int -> bool)

  const DAY := 86400

  function ClockText(c: Calendar, utc: Option<int>, rule: ZoneRule): Option<(int, int)> {
    if utc.None? || utc.value < 0 || !rule.europeanUnion || !c.representable(utc.value / DAY) then None
    else
      var year := c.yearOf(utc.value / DAY);
      var summer := c.lastSunday(year, 3) * DAY + 3600 <= utc.value < c.lastSunday(year, 10) * DAY + 3600;
      var local := utc.value + (rule.offsetMinutes + (if summer then 60 else 0)) * 60;
      if !c.representable(local / DAY) then None
      else Some((local % DAY / 3600, local % 3600 / 60))
  }

  /** The key's division truncates towards zero. */
  function TruncatedMinute(utc: int): int { if utc >= 0 then utc / 60 else -(-utc / 60) }

  lemma DayOfMinute(x: int)
    ensures x / DAY == x / 60 / 1440 && x % DAY == 60 * (x / 60 % 1440) + x % 60
  {
    var d, k, r := x / 60 / 1440, x / 60 % 1440, x % 60;
    assert x == DAY * d + (60 * k + r) && 0 <= 60 * k + r < DAY;
  }

  lemma HourOfMinute(x: int)
    ensures x / 3600 == x / 60 / 60 && x % 3600 == 60 * (x / 60 % 60) + x % 60
  {
    var h, n, r := x / 60 / 60, x / 60 % 60, x % 60;
    assert x == 3600 * h + (60 * n + r) && 0 <= 60 * n + r < 3600;
  }

  /** Day, hour and minute of an instant depend on its minute only. */
  lemma MinuteDecides(x: int)
    ensures x / DAY == x / 60 / 1440
    ensures x % DAY / 3600 == x / 60 % 1440 / 60
    ensures x % 3600 / 60 == x / 60 % 60
  {
    DayOfMinute(x);
    HourOfMinute(x);
    HourOfMinute(x % DAY);
  }

  lemma SameMinuteSameEdge(a: int, b: int, day: int)
    requires a / 60 == b / 60
    ensures day * DAY + 3600 <= a <==> day * DAY + 3600 <= b
  {
    var edge := day * 1440 + 60;
    assert day * DAY + 3600 == 60 * edge;
    assert a == 60 * (a / 60) + a % 60 && b == 60 * (b / 60) + b % 60;
  }

  lemma SameMinuteShifted(a: int, b: int, minutes: int)
    requires a / 60 == b / 60
    ensures (a + minutes * 60) / DAY == (b + minutes * 60) / DAY
    ensures (a + minutes * 60) % DAY / 3600 == (b + minutes * 60) % DAY / 3600
    ensures (a + minutes * 60) % 3600 / 60 == (b + minutes * 60) % 3600 / 60
  {
    MinuteDecides(a + minutes * 60);
    MinuteDecides(b + minutes * 60);
    assert (a + minutes * 60) / 60 == a / 60 + minutes;
    assert (b + minutes * 60) / 60 == b / 60 + minutes;
  }

  lemma SameMinuteSameText(c: Calendar, a: int, b: int, rule: ZoneRule)
    requires 0 <= a && 0 <= b && a / 60 == b / 60
    ensures ClockText(c, Some(a), rule) == ClockText(c, Some(b), rule)
  {
    MinuteDecides(a);
    MinuteDecides(b);
    var year := c.yearOf(a / DAY);
    SameMinuteSameEdge(a, b, c.lastSunday(year, 3));
    SameMinuteSameEdge(a, b, c.lastSunday(year, 10));
    SameMinuteShifted(a, b, rule.offsetMinutes);
    SameMinuteShifted(a, b, rule.offsetMinutes + 60);
  }

  /** The minute in the key stands for the clock text exactly when both times
      are on the same side of zero; the minute -0 and the minute 0 share a key. */
  lemma MinuteKeyExact(c: Calendar, a: int, b: int, rule: ZoneRule)
    requires TruncatedMinute(a) == TruncatedMinute(b)
    ensures ClockText(c, Some(a), rule) == ClockText(c, Some(b), rule) <==>
              (a < 0 <==> b < 0) || ClockText(c, Some(if a < b then b else a), rule).None?
  {
    if 0 <= a && 0 <= b {
      SameMinuteSameText(c, a, b, rule);
    }
  }

  /** The last second before zero and zero itself share a key but not a text. */
  lemma NegativeMinuteShares(offsetMinutes: int)
    ensures TruncatedMinute(-1) == TruncatedMinute(0)
    ensures var c, rule := Calendar(day => 1970, (year, month) => 0, day => true), ZoneRule(true, offsetMinutes);
            ClockText(c, Some(-1), rule).None? && ClockText(c, Some(0), rule).Some?
  {
  }

  // ----- revision tracker

  const REVISION_LIMIT := 0xFFFF_FFFF_FFFF_FFFF

  datatype Tracker = Tracker(published: Option<Content>, revision: nat)

  function PublishedTo(t: Tracker, s: Content): Tracker {
    if t.published == Some(s) then t
    else Tracker(Some(s), if t.revision != REVISION_LIMIT then t.revision + 1 else t.revision)
  }

  function PublishedAll(history: seq<Content>): Tracker {
    if history == [] then Tracker(None, 0)
    else PublishedTo(PublishedAll(history[..|history| - 1]), history[|history| - 1])
  }

  class RefreshTracker {
    var published: Option<Content>
    var revision: nat

    ghost function State(): Tracker
      reads this
    {
      Tracker(published, revision)
    }

    constructor ()
      ensures State() == Tracker(None, 0)
    {
      published, revision := None, 0;
    }

    method Publish(snapshot: Content) returns (current: nat)
      modifies this
      ensures State() == PublishedTo(old(State()), snapshot) && current == State().revision
    {
      if published != Some(snapshot) {
        if revision != REVISION_LIMIT {
          revision := revision + 1;
        }
        published := Some(snapshot);
      }
      return revision;
    }
  }

  /** Below the limit, two publications carry the same revision exactly if the
      snapshot did not change from one to the other. */
  lemma {:induction false} RevisionIdentifiesSnapshot(history: seq<Content>, i: nat)
    requires 0 < i <= |history| && PublishedAll(history).revision < REVISION_LIMIT
    ensures PublishedAll(history[..i]).revision <= PublishedAll(history).revision
    ensures PublishedAll(history[..i]).revision == PublishedAll(history).revision <==>
              forall k :: i <= k < |history| ==> history[k] == history[i - 1]
    ensures PublishedAll(history).published == Some(history[|history| - 1])
  {
    var n := |history| - 1;
    if i == |history| {
      assert history[..i] == history;
    } else {
      var init := history[..n];
      assert init[..i] == history[..i];
      RevisionIdentifiesSnapshot(init, i);
      assert PublishedAll(history) == PublishedTo(PublishedAll(init), history[n]);
      if PublishedAll(history[..i]).revision == PublishedAll(history).revision {
        assert init[n - 1] == history[i - 1];
      }
    }
  }

  // ----- one loop step

  /** Everything one loop step reads: the snapshot, the workspace before and
      after touch handling, the two answers of the presentation source, and
      whether a requested draw succeeds. */
  datatype Moment = Moment(
    snapshot: Content, refresh: Option<nat>, revisions: Revisions,
    pageBefore: HitTest.Page, page: HitTest.Page, workspace: Content, workspaceRevision: nat,
    firstFill: Option<Source>, fill: Option<Source>,
    pressed: Option<HitTest.Target>, network: nat, utc: Option<int>,
    accessPoint: Content, accessPointRevision: nat, drawSucceeds: bool)

  datatype Key = Key(
    refresh: Option<nat>, workspaceRevision: nat, page: HitTest.Page, catalogRevision: Option<nat>,
    localeFingerprint: nat, pressed: Option<HitTest.Target>, network: nat, utcMinute: Option<int>,
    rule: ZoneRule, accessPointRevision: nat)

  /** The visible inputs of the screen model; parts a page does not draw are None. */
  datatype Screen = Screen(
    snapshot: Content, page: HitTest.Page, workspace: Content, programs: Option<Content>, locale: string,
    pressed: Option<HitTest.Target>, network: nat, clockText: Option<(int, int)>, clockTrusted: bool,
    zoneText: Option<string>, accessPoint: Option<Content>)

  datatype Gate = Gate(cache: Cache, rendered: Option<Key>, pending: Option<Key>)

  /** The gate together with what the display shows. */
  datatype Loop = Loop(gate: Gate, shown: Option<Screen>)

  /** Fixed for a run: the fingerprint function, the calendar, and what a page draws
      of the catalog for a given snapshot and workspace. */
  datatype World = World(
    fingerprint: string -> nat, calendar: Calendar,
    programs: (HitTest.Page, Content, Content, Content) -> Content)

  function CacheFor(c: Cache, m: Moment): Cache {
    Refreshed(Refreshed(c, m.pageBefore.HeaderNetworkPage?, m.revisions, m.firstFill),
              m.page.HeaderNetworkPage?, m.revisions, m.fill)
  }

  function MakeKey(w: World, c: Cache, m: Moment): Key {
    Key(m.refresh, m.workspaceRevision, m.page, if c.adopted.Some? then Some(c.adopted.value.1) else None,
        w.fingerprint(Kept(c).locale), m.pressed, m.network,
        if m.utc.Some? then Some(TruncatedMinute(m.utc.value)) else None,
        Kept(c).rule, if m.page.HeaderNetworkPage? then m.accessPointRevision else 0)
  }

  /** What the page draws of the copied catalog. */
  function ProgramText(w: World, c: Cache, m: Moment): Option<Content> {
    if m.page.HeaderNetworkPage? then None else Some(w.programs(m.page, m.snapshot, m.workspace, Copy(c).catalog))
  }

  /** The zone id that the clock page draws. */
  function ZoneText(c: Cache, m: Moment): Option<string> {
    if m.page.HeaderClockPage? then Some(Kept(c).zoneId) else None
  }

  function MakeScreen(w: World, c: Cache, m: Moment): Screen {
    Screen(m.snapshot, m.page, m.workspace, ProgramText(w, c, m), Kept(c).locale, m.pressed, m.network,
           ClockText(w.calendar, m.utc, Kept(c).rule), m.utc.Some?, ZoneText(c, m),
           if m.page.HeaderNetworkPage? then Some(m.accessPoint) else None)
  }

  predicate Required(w: World, l: Loop, m: Moment) {
    l.gate.rendered != Some(MakeKey(w, CacheFor(l.gate.cache, m), m))
  }

  function Stepped(w: World, l: Loop, m: Moment): Loop {
    var cache := CacheFor(l.gate.cache, m);
    var key := MakeKey(w, cache, m);
    if Required(w, l, m) && m.drawSucceeds
    then Loop(Gate(cache, Some(key), Some(key)), Some(MakeScreen(w, cache, m)))
    else Loop(Gate(cache, l.gate.rendered, Some(key)), l.shown)
  }

  class UiRenderGate {
    const world: World
    const presentation: PresentationCache
    var renderedKey: Option<Key>
    var pendingKey: Option<Key>

    ghost function State(): Gate
      reads this, presentation
    {
      Gate(presentation.State(), renderedKey, pendingKey)
    }

    constructor (world: World)
      ensures State() == Gate(EMPTY_CACHE, None, None) && this.world == world && fresh(presentation)
    {
      this.world := world;
      presentation := new PresentationCache();
      renderedKey, pendingKey := None, None;
    }

    /** A change of the revisions reaches the copy in the first step in which the
        source answers; the network page holds no copy but keeps the locale. */
    method BeginStep(m: Moment)
      modifies presentation
      ensures var before := old(presentation.State());
              presentation.State() == Refreshed(before, m.pageBefore.HeaderNetworkPage?, m.revisions, m.firstFill)
      ensures m.pageBefore.HeaderNetworkPage? ==>
                presentation.source.None? && Kept(presentation.State()) == Kept(old(presentation.State()))
      ensures !m.pageBefore.HeaderNetworkPage? && Decidable(m.revisions) && m.firstFill.Some? ==>
                presentation.adoptedRevisions == Some((m.revisions.user.value, m.revisions.catalog.value))
    {
      presentation.Update(m.pageBefore.HeaderNetworkPage?, m.revisions, m.firstFill);
    }

    method RenderRequired(m: Moment) returns (required: bool)
      modifies this, presentation
      ensures presentation.State() == Refreshed(old(presentation.State()), m.page.HeaderNetworkPage?, m.revisions, m.fill)
      ensures pendingKey == Some(MakeKey(world, presentation.State(), m)) && renderedKey == old(renderedKey)
      ensures required <==> renderedKey != pendingKey
    {
      presentation.Update(m.page.HeaderNetworkPage?, m.revisions, m.fill);
      var cache := Cache(presentation.source, presentation.adoptedRevisions, presentation.last);
      pendingKey := Some(MakeKey(world, cache, m));
      return renderedKey.None? || renderedKey.value != pendingKey.value;
    }

    method MarkRendered()
      modifies this
      ensures State() == old(State()).(rendered := old(pendingKey))
    {
      renderedKey := pendingKey;
    }
  }

  /** The render part of one loop step, on the gate object and the display. */
  method RenderStep(gate: UiRenderGate, shown: Option<Screen>, m: Moment) returns (now: Option<Screen>)
    modifies gate, gate.presentation
    ensures Loop(gate.State(), now) == Stepped(gate.world, Loop(old(gate.State()), shown), m)
  {
    now := shown;
    gate.BeginStep(m);
    var required := gate.RenderRequired(m);
    if required && m.drawSucceeds {
      var cache := Cache(gate.presentation.source, gate.presentation.adoptedRevisions, gate.presentation.last);
      now := Some(MakeScreen(gate.world, cache, m));
      gate.MarkRendered();
    }
  }

  // ----- whole runs

  function After(w: World, shown: Option<Screen>, run: seq<Moment>, n: nat): Loop
    requires n <= |run|
  {
    if n == 0 then Loop(Gate(EMPTY_CACHE, None, None), shown)
    else Stepped(w, After(w, shown, run, n - 1), run[n - 1])
  }

  function CacheAt(w: World, shown: Option<Screen>, run: seq<Moment>, k: nat): Cache
    requires k < |run|
  {
    CacheFor(After(w, shown, run, k).gate.cache, run[k])
  }

  function ScreenAt(w: World, shown: Option<Screen>, run: seq<Moment>, k: nat): Screen
    requires k < |run|
  {
    MakeScreen(w, CacheAt(w, shown, run, k), run[k])
  }

  function KeyAt(w: World, shown: Option<Screen>, run: seq<Moment>, k: nat): Key
    requires k < |run|
  {
    MakeKey(w, CacheAt(w, shown, run, k), run[k])
  }

  ghost predicate FillsAre(run: seq<Moment>, i: nat, s: Source)
    requires i < |run|
  {
    run[i].firstFill == Some(s) || run[i].fill == Some(s)
  }

  /** The documented revision contract, as hypotheses on a run. */
  ghost predicate Contract(w: World, run: seq<Moment>, catalogOf: nat -> Content, locales: set<string>) {
    && (forall i, j :: 0 <= i < |run| && 0 <= j < |run| && run[i].refresh == run[j].refresh
          ==> run[i].snapshot == run[j].snapshot)
    && (forall i, j :: 0 <= i < |run| && 0 <= j < |run| && run[i].workspaceRevision == run[j].workspaceRevision
            && run[i].page == run[j].page
          ==> run[i].workspace == run[j].workspace)
    && (forall i, j :: 0 <= i < |run| && 0 <= j < |run| && run[i].accessPointRevision == run[j].accessPointRevision
          ==> run[i].accessPoint == run[j].accessPoint)
    && (forall i: nat, s :: i < |run| && FillsAre(run, i, s) ==>
          s.locale in locales && s.catalog == catalogOf(s.revision))
    && DEFAULT_SOURCE.locale in locales
    && (forall a, b :: a in locales && b in locales && w.fingerprint(a) == w.fingerprint(b) ==> a == b)
    && (forall i :: 0 <= i < |run| && run[i].utc.Some? ==> run[i].utc.value >= 0)
  }

  ghost predicate CacheOk(c: Cache, catalogOf: nat -> Content, locales: set<string>) {
    && (c.adopted.Some? ==> c.source.Some? && c.source.value.catalog == catalogOf(c.source.value.revision))
    && Kept(c).locale in locales
  }

  /** The copy is the catalog of the revision that the key carries. */
  predicate Current(c: Cache) { c.adopted.Some? && c.source.Some? && c.source.value.revision == c.adopted.value.1 }

  lemma RefreshKeepsOk(
    c: Cache, networkPage: bool, r: Revisions, fill: Option<Source>, catalogOf: nat -> Content, locales: set<string>)
    requires CacheOk(c, catalogOf, locales)
    requires fill.Some? ==> fill.value.locale in locales && fill.value.catalog == catalogOf(fill.value.revision)
    ensures CacheOk(Refreshed(c, networkPage, r, fill), catalogOf, locales)
  {
  }

  lemma CacheForKeepsOk(
    c: Cache, w: World, run: seq<Moment>, n: nat, catalogOf: nat -> Content, locales: set<string>)
    requires n < |run| && Contract(w, run, catalogOf, locales) && CacheOk(c, catalogOf, locales)
    ensures CacheOk(CacheFor(c, run[n]), catalogOf, locales)
  {
    var m := run[n];
    assert m.firstFill.Some? ==> FillsAre(run, n, m.firstFill.value);
    assert m.fill.Some? ==> FillsAre(run, n, m.fill.value);
    RefreshKeepsOk(c, m.pageBefore.HeaderNetworkPage?, m.revisions, m.firstFill, catalogOf, locales);
    var first := Refreshed(c, m.pageBefore.HeaderNetworkPage?, m.revisions, m.firstFill);
    RefreshKeepsOk(first, m.page.HeaderNetworkPage?, m.revisions, m.fill, catalogOf, locales);
  }

  lemma {:induction false} CacheStaysOk(
    w: World, shown: Option<Screen>, run: seq<Moment>, catalogOf: nat -> Content, locales: set<string>, n: nat)
    requires n <= |run| && Contract(w, run, catalogOf, locales)
    ensures CacheOk(After(w, shown, run, n).gate.cache, catalogOf, locales)
    ensures n < |run| ==> CacheOk(CacheAt(w, shown, run, n), catalogOf, locales)
  {
    if n > 0 {
      CacheStaysOk(w, shown, run, catalogOf, locales, n - 1);
    }
    if n < |run| {
      CacheForKeepsOk(After(w, shown, run, n).gate.cache, w, run, n, catalogOf, locales);
    }
  }

  /** The shown screen is the one of the step whose key is remembered. */
  lemma {:induction false} ShownIsRendered(w: World, shown: Option<Screen>, run: seq<Moment>, n: nat) returns (d: nat)
    requires n <= |run| && After(w, shown, run, n).gate.rendered.Some?
    ensures d < n && After(w, shown, run, n).gate.rendered == Some(KeyAt(w, shown, run, d))
    ensures After(w, shown, run, n).shown == Some(ScreenAt(w, shown, run, d))
  {
    var l := After(w, shown, run, n - 1);
    if Required(w, l, run[n - 1]) && run[n - 1].drawSucceeds {
      d := n - 1;
    } else {
      d := ShownIsRendered(w, shown, run, n - 1);
    }
  }

  /** Two equal keys mean equal screens exactly if the two drawn parts that the key
      does not carry agree; the program part does if both copies are current. */
  lemma SameKeySameScreen(
    w: World, c: Cache, m: Moment, d: Cache, n: Moment, catalogOf: nat -> Content, locales: set<string>)
    requires MakeKey(w, c, m) == MakeKey(w, d, n)
    requires m.snapshot == n.snapshot && m.workspace == n.workspace
    requires m.page.HeaderNetworkPage? ==> m.accessPoint == n.accessPoint
    requires CacheOk(c, catalogOf, locales) && CacheOk(d, catalogOf, locales)
    requires w.fingerprint(Kept(c).locale) == w.fingerprint(Kept(d).locale) ==> Kept(c).locale == Kept(d).locale
    requires (m.utc.Some? ==> m.utc.value >= 0) && (n.utc.Some? ==> n.utc.value >= 0)
    ensures MakeScreen(w, c, m) == MakeScreen(w, d, n) <==>
              ZoneText(c, m) == ZoneText(d, n) && ProgramText(w, c, m) == ProgramText(w, d, n)
    ensures Current(c) && Current(d) ==> ProgramText(w, c, m) == ProgramText(w, d, n)
  {
    if m.utc.Some? {
      SameMinuteSameText(w.calendar, m.utc.value, n.utc.value, Kept(c).rule);
    }
  }

  /** Whenever the gate asks for no redraw, the display shows the screen of an
      earlier step. It equals the screen of the current inputs exactly if zone id
      and program part are drawn the same; with current copies that leaves the
      zone id. */
  lemma NoRedrawIsExact(
    w: World, shown: Option<Screen>, run: seq<Moment>, catalogOf: nat -> Content, locales: set<string>, n: nat)
    returns (d: nat)
    requires n < |run| && Contract(w, run, catalogOf, locales)
    requires !Required(w, After(w, shown, run, n), run[n])
    ensures d < n && After(w, shown, run, n + 1).shown == Some(ScreenAt(w, shown, run, d))
    ensures ScreenAt(w, shown, run, d) == ScreenAt(w, shown, run, n) <==>
              && ZoneText(CacheAt(w, shown, run, d), run[d]) == ZoneText(CacheAt(w, shown, run, n), run[n])
              && ProgramText(w, CacheAt(w, shown, run, d), run[d]) == ProgramText(w, CacheAt(w, shown, run, n), run[n])
    ensures Current(CacheAt(w, shown, run, d)) && Current(CacheAt(w, shown, run, n)) ==>
              ProgramText(w, CacheAt(w, shown, run, d), run[d]) == ProgramText(w, CacheAt(w, shown, run, n), run[n])
  {
    d := ShownIsRendered(w, shown, run, n);
    CacheStaysOk(w, shown, run, catalogOf, locales, d);
    CacheStaysOk(w, shown, run, catalogOf, locales, n);
    SameKeySameScreen(w, CacheAt(w, shown, run, d), run[d], CacheAt(w, shown, run, n), run[n], catalogOf, locales);
  }

  /** No catalog is committed between a snapshot and the read that follows it. */
  ghost predicate ReadsMatch(run: seq<Moment>) {
    forall i: nat, s :: i < |run| && FillsAre(run, i, s) && Decidable(run[i].revisions) ==>
      s.revision == run[i].revisions.catalog.value
  }

  lemma RefreshKeepsCurrent(c: Cache, networkPage: bool, r: Revisions, fill: Option<Source>)
    requires c.adopted.Some? ==> Current(c)
    requires fill.Some? && Decidable(r) ==> fill.value.revision == r.catalog.value
    ensures var d := Refreshed(c, networkPage, r, fill); d.adopted.Some? ==> Current(d)
  {
  }

  /** Then every copy with adopted revisions is current. */
  lemma {:induction false} MatchingReadsAreCurrent(w: World, shown: Option<Screen>, run: seq<Moment>, n: nat)
    requires n < |run| && ReadsMatch(run)
    ensures CacheAt(w, shown, run, n).adopted.Some? ==> Current(CacheAt(w, shown, run, n))
  {
    if n > 0 {
      MatchingReadsAreCurrent(w, shown, run, n - 1);
    }
    var c, m := After(w, shown, run, n).gate.cache, run[n];
    assert m.firstFill.Some? ==> FillsAre(run, n, m.firstFill.value);
    assert m.fill.Some? ==> FillsAre(run, n, m.fill.value);
    RefreshKeepsCurrent(c, m.pageBefore.HeaderNetworkPage?, m.revisions, m.firstFill);
    var first := Refreshed(c, m.pageBefore.HeaderNetworkPage?, m.revisions, m.firstFill);
    RefreshKeepsCurrent(first, m.page.HeaderNetworkPage?, m.revisions, m.fill);
  }

  /** A stale copy lasts until the commit reaches the snapshot: a step that sees a
      catalog revision other than the drawn one and gets an answer is redrawn. */
  lemma NewRevisionIsDrawn(w: World, l: Loop, m: Moment)
    requires !m.page.HeaderNetworkPage? && Decidable(m.revisions) && m.fill.Some?
    requires l.gate.rendered.Some? && l.gate.rendered.value.catalogRevision != m.revisions.catalog
    ensures Required(w, l, m)
  {
    var first := Refreshed(l.gate.cache, m.pageBefore.HeaderNetworkPage?, m.revisions, m.firstFill);
    RefreshIsCurrent(first, false, m.revisions, m.fill);
  }

  /** A failed draw changes neither the display nor the remembered key, so the
      redraw stays pending for as long as the inputs stay away from that key. */
  lemma {:induction false} FailedDrawStaysPending(w: World, shown: Option<Screen>, run: seq<Moment>, i: nat, n: nat)
    requires i < n < |run| && Required(w, After(w, shown, run, i), run[i])
    requires forall k :: i <= k < n ==> !run[k].drawSucceeds
    ensures After(w, shown, run, n).shown == After(w, shown, run, i).shown
    ensures KeyAt(w, shown, run, n) == KeyAt(w, shown, run, i) ==> Required(w, After(w, shown, run, n), run[n])
    ensures After(w, shown, run, n).gate.rendered == After(w, shown, run, i).gate.rendered
  {
    if i < n - 1 {
      StaysPut(w, shown, run, i, n - 1);
    }
  }

  lemma {:induction false} StaysPut(w: World, shown: Option<Screen>, run: seq<Moment>, i: nat, n: nat)
    requires i <= n < |run| && forall k :: i <= k < n ==> !run[k].drawSucceeds
    ensures After(w, shown, run, n).shown == After(w, shown, run, i).shown
    ensures After(w, shown, run, n).gate.rendered == After(w, shown, run, i).gate.rendered
  {
    if i < n {
      StaysPut(w, shown, run, i, n - 1);
    }
  }

  /** The zone id is indeed missing from the key: on the clock page, if the
      presentation source refused the read in the step that drew the new
      revisions and grants it one step later with another zone of the same
      rule, the old zone id stays on the display. */
  lemma LateZoneIsNotDrawn(w: World, l: Loop, m: Moment, zoneId: string)
    requires m.page.HeaderClockPage? && m.pageBefore.HeaderClockPage? && m.firstFill.None? && m.fill.None?
    requires Decidable(m.revisions) && l.gate.cache.adopted.Some? && l.gate.cache.last.Some?
    requires l.gate.cache.adopted.value.1 == m.revisions.catalog.value
    requires l.gate.cache.adopted.value.0 != m.revisions.user.value
    requires Required(w, l, m) && m.drawSucceeds && zoneId != Kept(l.gate.cache).zoneId
    ensures var later := m.(firstFill := Some(Kept(l.gate.cache).(zoneId := zoneId)));
            var drawn := Stepped(w, l, m);
            && !Required(w, drawn, later)
            && Stepped(w, drawn, later).shown.value.zoneText == Some(Kept(l.gate.cache).zoneId)
            && MakeScreen(w, CacheFor(drawn.gate.cache, later), later).zoneText == Some(zoneId)
  {
  }

  // ----- the gaps in runs under the contract

  function Look(page: HitTest.Page, refresh: nat, r: Revisions, fill: Option<Source>): Moment {
    Moment("snapshot", Some(refresh), r, page, page, "workspace", 0, fill, fill, None, 0, None, "access", 0, true)
  }

  ghost predicate Lawful(s: Source, catalogOf: nat -> Content) {
    s.locale == DEFAULT_SOURCE.locale && s.catalog == catalogOf(s.revision)
  }

  /** While the revisions are unknown every step copies the catalog anew, but the
      key stays the same: a second catalog is not drawn. */
  lemma CatalogGapIsReal(w: World, page: HitTest.Page, a: Source, b: Source, catalogOf: nat -> Content)
    returns (run: seq<Moment>)
    requires !page.HeaderNetworkPage? && b == a.(catalog := b.catalog, revision := b.revision)
    requires Lawful(a, catalogOf) && Lawful(b, catalogOf)
    ensures |run| == 2 && Contract(w, run, catalogOf, {DEFAULT_SOURCE.locale})
    ensures !Required(w, After(w, None, run, 1), run[1])
    ensures After(w, None, run, 2).shown == Some(MakeScreen(w, Cache(Some(a), None, Some(a)), run[0]))
    ensures ScreenAt(w, None, run, 1).programs == Some(w.programs(page, "snapshot", "workspace", b.catalog))
  {
    var unknown := Revisions(None, None);
    run := [Look(page, 0, unknown, Some(a)), Look(page, 0, unknown, Some(b))];
    assert After(w, None, run, 0) == Loop(Gate(EMPTY_CACHE, None, None), None);
    assert CacheAt(w, None, run, 0) == Cache(Some(a), None, Some(a));
    assert After(w, None, run, 1) == Stepped(w, After(w, None, run, 0), run[0]);
    assert CacheAt(w, None, run, 1) == Cache(Some(b), None, Some(b));
  }

  /** Read, refused read with a new user revision, granted read one step later. */
  function LateRun(page: HitTest.Page, a: Source, b: Source): seq<Moment> {
    var before, after := Revisions(Some(0), Some(0)), Revisions(Some(1), Some(0));
    [Look(page, 0, before, Some(a)), Look(page, 1, after, None), Look(page, 1, after, Some(b))]
  }

  lemma LateRunIsLawful(w: World, page: HitTest.Page, a: Source, b: Source, catalogOf: nat -> Content)
    requires Lawful(a, catalogOf) && Lawful(b, catalogOf)
    ensures Contract(w, LateRun(page, a, b), catalogOf, {DEFAULT_SOURCE.locale})
  {
  }

  lemma LateRunStates(w: World, page: HitTest.Page, a: Source, b: Source)
    requires !page.HeaderNetworkPage?
    ensures var run := LateRun(page, a, b);
            && After(w, None, run, 1).gate.cache == Cache(Some(a), Some((0, 0)), Some(a))
            && After(w, None, run, 1).gate.rendered == Some(MakeKey(w, Cache(Some(a), Some((0, 0)), Some(a)), run[0]))
            && CacheAt(w, None, run, 1) == Cache(Some(a), Some((0, 0)), Some(a))
            && CacheAt(w, None, run, 2) == Cache(Some(b), Some((1, 0)), Some(b))
  {
    var run := LateRun(page, a, b);
    assert CacheAt(w, None, run, 0) == Cache(Some(a), Some((0, 0)), Some(a));
    assert After(w, None, run, 1) == Stepped(w, After(w, None, run, 0), run[0]);
    assert After(w, None, run, 2) == Stepped(w, After(w, None, run, 1), run[1]);
  }

  /** What the late answer brings is not drawn if locale and zone rule stay: a new
      zone id on the clock page, or, where a catalog was committed between
      snapshot and read, a new catalog under the old revision. */
  lemma LateAnswerIsNotDrawn(w: World, page: HitTest.Page, a: Source, b: Source, catalogOf: nat -> Content)
    requires !page.HeaderNetworkPage? && Lawful(a, catalogOf) && Lawful(b, catalogOf) && a.rule == b.rule
    ensures var run := LateRun(page, a, b);
            && Contract(w, run, catalogOf, {DEFAULT_SOURCE.locale})
            && Required(w, After(w, None, run, 1), run[1]) && !Required(w, After(w, None, run, 2), run[2])
            && After(w, None, run, 3).shown == Some(MakeScreen(w, Cache(Some(a), Some((0, 0)), Some(a)), run[1]))
            && ScreenAt(w, None, run, 2) == MakeScreen(w, Cache(Some(b), Some((1, 0)), Some(b)), run[2])
  {
    LateRunIsLawful(w, page, a, b, catalogOf);
    LateRunStates(w, page, a, b);
    var run := LateRun(page, a, b);
    assert After(w, None, run, 2) == Stepped(w, After(w, None, run, 1), run[1]);
  }

  /** The old zone id stays on the clock page. */
  lemma ZoneGapIsReal(w: World, a: Source, zoneId: string, catalogOf: nat -> Content)
    requires Lawful(a, catalogOf) && zoneId != a.zoneId
    ensures var run := LateRun(HitTest.HeaderClockPage, a, a.(zoneId := zoneId));
            && Contract(w, run, catalogOf, {DEFAULT_SOURCE.locale}) && !Required(w, After(w, None, run, 2), run[2])
            && After(w, None, run, 3).shown.Some? && After(w, None, run, 3).shown.value.zoneText == Some(a.zoneId)
            && ScreenAt(w, None, run, 2).zoneText == Some(zoneId)
  {
    LateAnswerIsNotDrawn(w, HitTest.HeaderClockPage, a, a.(zoneId := zoneId), catalogOf);
  }

  /** A catalog committed between snapshot and read is not drawn, whatever the page
      draws of it. */
  lemma StaleCopyIsReal(
    w: World, page: HitTest.Page, a: Source, catalog: Content, revision: nat, catalogOf: nat -> Content)
    requires !page.HeaderNetworkPage? && Lawful(a, catalogOf) && catalog == catalogOf(revision)
    ensures var run := LateRun(page, a, a.(catalog := catalog, revision := revision));
            && Contract(w, run, catalogOf, {DEFAULT_SOURCE.locale}) && !Required(w, After(w, None, run, 2), run[2])
            && After(w, None, run, 3).shown.Some?
            && After(w, None, run, 3).shown.value.programs == Some(w.programs(page, "snapshot", "workspace", a.catalog))
            && ScreenAt(w, None, run, 2).programs == Some(w.programs(page, "snapshot", "workspace", catalog))
  {
    LateAnswerIsNotDrawn(w, page, a, a.(catalog := catalog, revision := revision), catalogOf);
  }
}
