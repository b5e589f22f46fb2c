/** The touch geometry of the 320 x 240 screen: which target a point hits, which
    content rows are drawn, and which rectangle is drawn as press feedback. */
module HitTest {

  import opened Wrappers

  const WIDTH := 320
  const HEIGHT := 240
  const ROW_LEFT := 8
  const ROW_TOP := 64
  const ROW_HEIGHT := 40
  const ROW_WIDTH := 304
  const VISIBLE_ROWS := 3
  const SUMMARY_ROW_WIDTH := 244
  const BUTTON_LEFT := 256
  const BUTTON_WIDTH := 56
  const BUTTON_HEIGHT := 60
  const KEYPAD_LEFT := 8
  const KEYPAD_TOP := 62
  const KEYPAD_PITCH_X := 102
  const KEYPAD_PITCH_Y := 34
  const KEYPAD_CELL_WIDTH := 98
  const KEYBOARD_LEFT := 8
  const KEYBOARD_TOP := 62
  const KEYBOARD_PITCH_X := 30
  const KEYBOARD_PITCH_Y := 34
  const CONTROL_TOP := 200
  const CONTROL_HEIGHT := 40
  const SETTINGS_ROWS := 6
  const MAX_FIELDS := 7
  const SIZE_RANGE := 0x1_0000_0000  // size_t of the 32-bit target

  datatype Rect = Rect(left: nat, top: nat, width: nat, height: nat) {
    predicate Contains(x: nat, y: nat) {
      left <= x < left + width && top <= y < top + height
    }
    predicate OnScreen() { left + width <= WIDTH && top + height <= HEIGHT }
  }

  const HEADER_LANGUAGE := Rect(176, 0, 44, 32)
  const HEADER_NETWORK := Rect(220, 4, 44, 18)
  const HEADER_CLOCK := Rect(264, 0, 56, 32)

  /** Pages that differ in content geometry; PlainPage is any other one. */
  datatype Page =
    | ProgramList | Messages | HeaderLanguagePage | Settings
    | ProgramSummary | ManualHolding | ManualTimed | StopDialog | Completion
    | ProgramEdit | ValueEdit | TextEdit | Pin | FactoryReset
    | HeaderClockPage | HeaderNetworkPage | PlainPage

  datatype Summary = Summary(fieldCount: nat, rowOffset: nat, pagerButtons: bool)

  /** The list pages copy the index unclamped, so it may lie behind a list that shrank. */
  datatype Pager = Pager(itemCount: nat, currentIndex: nat)

  datatype Target =
    | HeaderLanguage | HeaderNetwork | HeaderClock
    | ContentCell(row: nat, column: nat)
    | BottomSlot(slot: nat)

  datatype View = View(
    page: Page,
    summary: Option<Summary>,
    editRows: Option<nat>,      // rows of the program editor
    listed: nat,                // programs of the list page
    messages: nat,              // messages of the snapshot
    languages: nat,             // languages of this build
    pager: Pager,
    slotVisible: nat -> bool)   // the four bottom slots

  predicate IsListPage(page: Page) {
    page.ProgramList? || page.Messages? || page.HeaderLanguagePage? || page.Settings?
  }

  /** Pages whose touch zone already holds an editor or a key grid. */
  predicate IsEditPage(page: Page) { page.ProgramEdit? || page.ValueEdit? || page.TextEdit? || page.Pin? }

  /** What the workspace guarantees of a page view: the pager counts the entries
      of the page, and a field list stands on no list page and no edit page. */
  predicate WellFormed(v: View) {
    && v.listed < SIZE_RANGE && v.pager.currentIndex < SIZE_RANGE
    && (v.page.ProgramList? ==> v.pager.itemCount == v.listed)
    && (!v.page.ProgramList? ==> v.listed == 0)
    && (v.page.Messages? ==> v.pager.itemCount == v.messages)
    && (v.page.HeaderLanguagePage? ==> v.pager == Pager(v.languages, 0))
    && (v.page.Settings? ==> v.pager.itemCount == SETTINGS_ROWS)
    && (v.summary.Some? ==> !IsListPage(v.page) && !IsEditPage(v.page))
    && (v.summary.Some? ==> v.pager.itemCount == v.summary.value.fieldCount <= MAX_FIELDS)
    && (v.summary.Some? ==> v.summary.value.rowOffset <= VISIBLE_ROWS)
    && (v.editRows.Some? <==> v.page.ProgramEdit?)
    && (v.page.ProgramEdit? ==> v.pager.itemCount == v.editRows.value)
  }

  predicate InRowZone(y: nat) { ROW_TOP <= y < ROW_TOP + VISIBLE_ROWS * ROW_HEIGHT }

  function Min(a: nat, b: nat): nat { if a < b then a else b }

  function TargetAt(v: View, x: nat, y: nat): Option<Target> {
    if x >= WIDTH then None
    else if HEADER_LANGUAGE.Contains(x, y) then Some(HeaderLanguage)
    else if HEADER_NETWORK.Contains(x, y) then Some(HeaderNetwork)
    else if HEADER_CLOCK.Contains(x, y) then Some(HeaderClock)
    else if !v.page.ValueEdit? && v.summary.Some? && x >= ROW_LEFT && InRowZone(y) then
      var summary := v.summary.value;
      if x < ROW_LEFT + SUMMARY_ROW_WIDTH then
        var row := (y - ROW_TOP) / ROW_HEIGHT;
        if row >= summary.rowOffset && v.pager.currentIndex + (row - summary.rowOffset) < summary.fieldCount
        then Some(ContentCell(row, 0)) else None
      else PagerButtonAt(summary.pagerButtons, x, y)
    else if v.page.ProgramEdit? && v.editRows.Some? && x >= ROW_LEFT && InRowZone(y) then
      if x < ROW_LEFT + SUMMARY_ROW_WIDTH then
        var row := (y - ROW_TOP) / ROW_HEIGHT;
        if v.pager.currentIndex + row < v.editRows.value then Some(ContentCell(row, 0)) else None
      else PagerButtonAt(v.editRows.value > VISIBLE_ROWS, x, y)
    else if v.page.Pin? && InKeyboard(x, y, 2) then Some(KeyboardCell(x, y))
    else if v.page.TextEdit? && InKeyboard(x, y, 4) then Some(KeyboardCell(x, y))
    else if v.page.ValueEdit? && x >= KEYPAD_LEFT && KEYPAD_TOP <= y < KEYPAD_TOP + 4 * KEYPAD_PITCH_Y then
      var column := (x - KEYPAD_LEFT) / KEYPAD_PITCH_X;
      if column < 3 && (x - KEYPAD_LEFT) % KEYPAD_PITCH_X < KEYPAD_CELL_WIDTH
      then Some(ContentCell((y - KEYPAD_TOP) / KEYPAD_PITCH_Y, column)) else None
    else if IsListPage(v.page) && v.pager.itemCount > 0 && v.pager.currentIndex < v.pager.itemCount
            && ROW_LEFT <= x < ROW_LEFT + ROW_WIDTH && InRowZone(y) then
      var row := (y - ROW_TOP) / ROW_HEIGHT;
      if row < Min(v.pager.itemCount - v.pager.currentIndex, VISIBLE_ROWS) then Some(ContentCell(row, 0)) else None
    else if y < CONTROL_TOP || y >= CONTROL_TOP + CONTROL_HEIGHT then None
    else if v.slotVisible(x / 80) then Some(BottomSlot(x / 80))
    else None
  }

  function PagerButtonAt(shown: bool, x: nat, y: nat): Option<Target>
    requires y >= ROW_TOP
  {
    if shown && BUTTON_LEFT <= x < BUTTON_LEFT + BUTTON_WIDTH
    then Some(ContentCell((y - ROW_TOP) / BUTTON_HEIGHT, 1)) else None
  }

  predicate InKeyboard(x: nat, y: nat, rows: nat) {
    && KEYBOARD_LEFT <= x < KEYBOARD_LEFT + 10 * KEYBOARD_PITCH_X
    && KEYBOARD_TOP <= y < KEYBOARD_TOP + rows * KEYBOARD_PITCH_Y
  }

  function KeyboardCell(x: nat, y: nat): Target
    requires x >= KEYBOARD_LEFT && y >= KEYBOARD_TOP
  {
    ContentCell((y - KEYBOARD_TOP) / KEYBOARD_PITCH_Y, (x - KEYBOARD_LEFT) / KEYBOARD_PITCH_X)
  }

  // ----- drawn rows

  /** First drawn row and number of drawn rows, as the drawing code computes
      them. The program list subtracts without a guard, so the difference wraps
      when the pager lies behind the list; all other pages guard it. */
  function RowWindow(v: View): (nat, nat) {
    if v.listed > 0 then (0, Min((v.listed - v.pager.currentIndex) % SIZE_RANGE, VISIBLE_ROWS))
    else if v.page.HeaderLanguagePage? then (0, Min(v.languages, VISIBLE_ROWS))
    else if v.page.Messages? then (0, Min(Remaining(v.messages, v), VISIBLE_ROWS))
    else if v.summary.Some? && v.summary.value.rowOffset <= VISIBLE_ROWS then
      (v.summary.value.rowOffset,
       Min(Remaining(v.summary.value.fieldCount, v), VISIBLE_ROWS - v.summary.value.rowOffset))
    else if v.page.Settings? then (0, Min(Remaining(SETTINGS_ROWS, v), VISIBLE_ROWS))
    else if v.editRows.Some? then (0, Min(Remaining(v.editRows.value, v), VISIBLE_ROWS))
    else (0, 0)
  }

  function Remaining(count: nat, v: View): nat {
    if count > v.pager.currentIndex then count - v.pager.currentIndex else 0
  }

  function RowWidth(v: View): nat {
    if IsListPage(v.page) then ROW_WIDTH else SUMMARY_ROW_WIDTH
  }

  /** The touch zone of row r; the drawn fill leaves a 2 px gap at its bottom. */
  function RowRect(v: View, r: nat): Rect {
    Rect(ROW_LEFT, ROW_TOP + r * ROW_HEIGHT, RowWidth(v), ROW_HEIGHT)
  }

  function RowFill(v: View, r: nat): Rect {
    RowRect(v, r).(height := ROW_HEIGHT - 2)
  }

  predicate RowDrawn(v: View, r: nat) {
    RowWindow(v).0 <= r < RowWindow(v).0 + RowWindow(v).1
  }

  /** Appends one fill per visible row, as makeRepresentativeScreen does. */
  method DrawRows(v: View) returns (fills: seq<Rect>)
    ensures forall r: nat :: RowDrawn(v, r) <==> RowFill(v, r) in fills
    ensures |fills| == RowWindow(v).1 <= VISIBLE_ROWS
    ensures forall rect :: rect in fills ==> rect.OnScreen()
  {
    var (offset, count) := RowWindow(v);
    fills := [];
    for index := 0 to count
      invariant |fills| == index
      invariant forall i :: 0 <= i < index ==> fills[i] == RowFill(v, i + offset)
    {
      fills := fills + [RowFill(v, index + offset)];
    }
    forall r: nat | RowDrawn(v, r) ensures RowFill(v, r) in fills {
      assert fills[r - offset] == RowFill(v, r);
    }
  }

  /** The program list is drawn from behind its end. */
  predicate BehindList(v: View) { 0 < v.listed < v.pager.currentIndex }

  /** A point hits row r exactly if it lies in the touch zone of row r and row r
      is drawn, unless the pager lies behind the program list. */
  lemma RowHittableExactlyWhenDrawn(v: View, x: nat, y: nat, r: nat)
    requires WellFormed(v) && HasRows(v) && !BehindList(v)
    ensures TargetAt(v, x, y) == Some(ContentCell(r, 0)) <==> RowDrawn(v, r) && RowRect(v, r).Contains(x, y)
  {
    if InRowZone(y) {
      RowOf(y, r);
    }
  }

  /** The page draws content rows in one of the two row layouts. */
  predicate HasRows(v: View) { IsListPage(v.page) || v.summary.Some? || v.page.ProgramEdit? }

  ghost predicate HitsFollowDrawing(v: View) {
    forall x: nat, y: nat, r: nat ::
      TargetAt(v, x, y) == Some(ContentCell(r, 0)) <==> RowDrawn(v, r) && RowRect(v, r).Contains(x, y)
  }

  /** Every drawn row of the program list shows an entry that exists. */
  ghost predicate DrawsOwnEntries(v: View) {
    v.listed > 0 ==> forall r: nat :: RowDrawn(v, r) ==> v.pager.currentIndex + r < v.listed
  }

  /** That case is the one in which the code fails: behind the list the wrapped
      difference draws rows that no touch can hit, from entries that do not exist. */
  lemma RowsAgreeExactly(v: View)
    requires WellFormed(v) && HasRows(v)
    ensures HitsFollowDrawing(v) <==> !BehindList(v)
    ensures DrawsOwnEntries(v) <==> !BehindList(v)
  {
    if BehindList(v) {
      assert v.listed - v.pager.currentIndex + SIZE_RANGE == (v.listed - v.pager.currentIndex) % SIZE_RANGE;
      assert RowDrawn(v, 0) && RowRect(v, 0).Contains(ROW_LEFT, ROW_TOP);
      assert TargetAt(v, ROW_LEFT, ROW_TOP) != Some(ContentCell(0, 0));
    } else {
      forall x: nat, y: nat, r: nat
        ensures TargetAt(v, x, y) == Some(ContentCell(r, 0)) <==> RowDrawn(v, r) && RowRect(v, r).Contains(x, y)
      {
        RowHittableExactlyWhenDrawn(v, x, y, r);
      }
    }
  }

  /** A list of five programs that shrank to three under a pager at the fifth. */
  lemma ShrunkenListDrawsStrayRows(slotVisible: nat -> bool)
    ensures var v := View(ProgramList, None, None, 3, 0, 0, Pager(3, 4), slotVisible);
            && WellFormed(v) && RowWindow(v) == (0, 3) && TargetAt(v, 100, 70) != Some(ContentCell(0, 0))
  {
  }

  lemma RowOf(y: nat, r: nat)
    requires InRowZone(y)
    ensures (y - ROW_TOP) / ROW_HEIGHT == r <==> ROW_TOP + r * ROW_HEIGHT <= y < ROW_TOP + r * ROW_HEIGHT + ROW_HEIGHT
    ensures (y - ROW_TOP) / ROW_HEIGHT < VISIBLE_ROWS
  {
  }

  // ----- press feedback

  function FeedbackRect(v: View, t: Target): Option<Rect> {
    match t
    case ContentCell(row, column) =>
      if IsListPage(v.page) && column == 0 && row < VISIBLE_ROWS then
        Some(Rect(ROW_LEFT, ROW_TOP + row * ROW_HEIGHT, ROW_WIDTH, ROW_HEIGHT))
      else if (!v.page.ValueEdit? && v.summary.Some?) || v.page.ProgramEdit? then
        if column == 0 && row < VISIBLE_ROWS then
          Some(Rect(ROW_LEFT, ROW_TOP + row * ROW_HEIGHT, SUMMARY_ROW_WIDTH, ROW_HEIGHT))
        else if column == 1 && row < 2 then
          Some(Rect(BUTTON_LEFT, ROW_TOP + row * BUTTON_HEIGHT, BUTTON_WIDTH, BUTTON_HEIGHT))
        else None
      else if ((v.page.TextEdit? && row < 4) || (v.page.Pin? && row < 2)) && column < 10 then
        Some(Rect(KEYBOARD_LEFT + column * KEYBOARD_PITCH_X, KEYBOARD_TOP + row * KEYBOARD_PITCH_Y,
                  KEYBOARD_PITCH_X, KEYBOARD_PITCH_Y))
      else if v.page.ValueEdit? && row < 4 && column < 3 then
        Some(Rect(KEYPAD_LEFT + column * KEYPAD_PITCH_X, KEYPAD_TOP + row * KEYPAD_PITCH_Y,
                  KEYPAD_CELL_WIDTH, KEYPAD_PITCH_Y))
      else None
    case BottomSlot(slot) =>
      if slot < 4 then Some(Rect(slot * 80, CONTROL_TOP, 80, CONTROL_HEIGHT)) else None
    case _ => None
  }

  lemma Quotient(a: nat, d: nat)
    requires d > 0
    ensures a / d * d <= a < a / d * d + d
    ensures a % d == a - a / d * d
  {
    assert a == a / d * d + a % d;
  }

  /** Every content-cell or bottom-slot target found at a point is answered by a
      feedback rectangle that contains the point and stays on the screen. */
  lemma FeedbackCoversTarget(v: View, x: nat, y: nat)
    requires WellFormed(v) && TargetAt(v, x, y).Some?
    requires TargetAt(v, x, y).value.ContentCell? || TargetAt(v, x, y).value.BottomSlot?
    ensures var feedback := FeedbackRect(v, TargetAt(v, x, y).value);
            feedback.Some? && feedback.value.Contains(x, y) && feedback.value.OnScreen()
  {
    if y >= ROW_TOP { Quotient(y - ROW_TOP, ROW_HEIGHT); Quotient(y - ROW_TOP, BUTTON_HEIGHT); }
    if y >= KEYBOARD_TOP { Quotient(y - KEYBOARD_TOP, KEYBOARD_PITCH_Y); }
    if x >= KEYBOARD_LEFT { Quotient(x - KEYBOARD_LEFT, KEYBOARD_PITCH_X); Quotient(x - KEYPAD_LEFT, KEYPAD_PITCH_X); }
    Quotient(x, 80);
  }

  /** The bottom slots are hit by their own 80 px columns only. */
  lemma BottomSlotIsItsColumn(v: View, x: nat, y: nat, slot: nat)
    requires TargetAt(v, x, y) == Some(BottomSlot(slot))
    ensures Rect(80 * slot, CONTROL_TOP, 80, CONTROL_HEIGHT).Contains(x, y) && slot < 4 && v.slotVisible(slot)
  {
    Quotient(x, 80);
  }
}
