/** The flash capacity check: blob chunks and entries of the NVS storage, and the
    partition table reader. */
module NvsChunks {
  const ENTRY_SIZE := 32
  const ENTRY_COUNT := 126
  const CHUNK_MAX_SIZE := ENTRY_SIZE * (ENTRY_COUNT - 1)
  const BLOB_INDEX_ENTRIES := 1

  function CeilDiv(n: nat, d: nat): nat
    requires d > 0
  {
    (n + d - 1) / d
  }

  function Total(chunks: seq<nat>): nat {
    if chunks == [] then 0 else Total(chunks[..|chunks| - 1]) + chunks[|chunks| - 1]
  }

  function BlobDataEntries(chunk: nat): nat { 1 + CeilDiv(chunk, ENTRY_SIZE) }

  function SumOfEntries(chunks: seq<nat>): nat {
    if chunks == [] then 0 else SumOfEntries(chunks[..|chunks| - 1]) + BlobDataEntries(chunks[|chunks| - 1])
  }

  /** Entries of a blob stored in these chunks. */
  function CutEntries(chunks: seq<nat>): nat { BLOB_INDEX_ENTRIES + SumOfEntries(chunks) }

  /** A way to store the blob: at least one chunk, none too large for a page. */
  predicate IsCut(chunks: seq<nat>, size: nat) {
    chunks != [] && Total(chunks) == size && forall c :: c in chunks ==> c <= CHUNK_MAX_SIZE
  }

  /** Full chunks and one remainder, which is empty only for the empty blob. */
  predicate IsGreedyCut(chunks: seq<nat>, size: nat) {
    && IsCut(chunks, size)
    && (forall i :: 0 <= i < |chunks| - 1 ==> chunks[i] == CHUNK_MAX_SIZE)
    && (size > 0 ==> chunks[|chunks| - 1] > 0)
    && (size == 0 ==> chunks == [0])
  }

  method BlobDataChunks(size: nat) returns (chunks: seq<nat>)
    ensures IsGreedyCut(chunks, size)
    ensures forall c :: c in chunks ==> BlobDataEntries(c) <= ENTRY_COUNT
  {
    if size == 0 {
      chunks := [0];
      assert chunks[..0] == [];
      return;
    }
    chunks := [];
    var remaining := size;
    while remaining > 0
      invariant 0 <= remaining <= size && Total(chunks) + remaining == size
      invariant forall c :: c in chunks ==> 0 < c <= CHUNK_MAX_SIZE
      invariant remaining > 0 ==> forall i :: 0 <= i < |chunks| ==> chunks[i] == CHUNK_MAX_SIZE
      invariant forall i :: 0 <= i < |chunks| - 1 ==> chunks[i] == CHUNK_MAX_SIZE
    {
      var chunk := if remaining < CHUNK_MAX_SIZE then remaining else CHUNK_MAX_SIZE;
      assert (chunks + [chunk])[..|chunks|] == chunks;
      chunks := chunks + [chunk];
      remaining := remaining - chunk;
    }
    assert chunks[|chunks| - 1] in chunks;
  }

  /** Entries a blob needs, as a closed formula. */
  function EntriesFor(size: nat): nat {
    if size == 0 then 2 else 1 + CeilDiv(size, CHUNK_MAX_SIZE) + CeilDiv(size, ENTRY_SIZE)
  }

  /** What the capacity script computes for a blob: the closed formula, minimal over all cuts. */
  method NvsBlobEntries(size: nat) returns (entries: nat)
    ensures entries == EntriesFor(size)
    ensures forall chunks :: IsCut(chunks, size) ==> entries <= CutEntries(chunks)
  {
    var chunks := BlobDataChunks(size);
    var sum := 0;
    for i := 0 to |chunks|
      invariant sum == SumOfEntries(chunks[..i])
    {
      assert chunks[..i + 1][..i] == chunks[..i];
      sum := sum + BlobDataEntries(chunks[i]);
    }
    assert chunks[..|chunks|] == chunks;
    entries := BLOB_INDEX_ENTRIES + sum;
    GreedyEntries(chunks, size);
    forall cut | IsCut(cut, size) ensures entries <= CutEntries(cut) {
      NoCutIsCheaper(cut, size);
    }
  }

  lemma {:induction false} FullChunks(chunks: seq<nat>)
    requires forall i :: 0 <= i < |chunks| ==> chunks[i] == CHUNK_MAX_SIZE
    ensures Total(chunks) == CHUNK_MAX_SIZE * |chunks| && SumOfEntries(chunks) == ENTRY_COUNT * |chunks|
  {
    if chunks != [] {
      FullChunks(chunks[..|chunks| - 1]);
      assert BlobDataEntries(CHUNK_MAX_SIZE) == ENTRY_COUNT;
    }
  }

  lemma GreedyEntries(chunks: seq<nat>, size: nat)
    requires IsGreedyCut(chunks, size)
    ensures CutEntries(chunks) == EntriesFor(size)
  {
    var full, rest := chunks[..|chunks| - 1], chunks[|chunks| - 1];
    FullChunks(full);
    assert rest in chunks;
    var k := |full|;
    if size > 0 {
      assert size == 4000 * k + rest && 0 < rest <= 4000;
      assert CeilDiv(size, 4000) == k + 1;
      assert CeilDiv(size, 32) == 125 * k + CeilDiv(rest, 32);
    } else {
      assert full == [];
    }
  }

  lemma {:induction false} CutBounds(chunks: seq<nat>)
    requires forall c :: c in chunks ==> c <= CHUNK_MAX_SIZE
    ensures SumOfEntries(chunks) >= |chunks| + CeilDiv(Total(chunks), ENTRY_SIZE)
    ensures Total(chunks) <= CHUNK_MAX_SIZE * |chunks|
  {
    if chunks != [] {
      var front, last := chunks[..|chunks| - 1], chunks[|chunks| - 1];
      assert last in chunks && forall c :: c in front ==> c in chunks;
      CutBounds(front);
      assert CeilDiv(Total(front) + last, 32) <= CeilDiv(Total(front), 32) + CeilDiv(last, 32);
    }
  }

  /** The greedy cut is minimal among all cuts into chunks that fit a page. */
  lemma NoCutIsCheaper(chunks: seq<nat>, size: nat)
    requires IsCut(chunks, size)
    ensures EntriesFor(size) <= CutEntries(chunks)
  {
    CutBounds(chunks);
    assert size <= 4000 * |chunks|;
    assert CeilDiv(size, 4000) <= |chunks|;
  }

  lemma EntriesAreMonotone(m: nat, n: nat)
    requires m <= n
    ensures EntriesFor(m) <= EntriesFor(n)
  {
    if m > 0 {
      assert CeilDiv(m, 4000) <= CeilDiv(n, 4000) && CeilDiv(m, 32) <= CeilDiv(n, 32);
    } else if n > 0 {
      assert CeilDiv(n, 4000) >= 1 && CeilDiv(n, 32) >= 1;
    }
  }

  // ----- the capacity bound

  const PAGE_SIZE := 0x1000
  const NAMESPACE_ENTRIES := 1
  const RESERVE_PAGES := 4
  const WEAR_HEADROOM_PAGES := 64

  /** Blobs of one kind: their size and how many slots hold one. */
  datatype Slots = Slots(size: nat, count: nat)

  /** Entries of one full copy of all slots, without the namespace entry. */
  function SlotEntries(groups: seq<Slots>): nat {
    if groups == [] then 0
    else SlotEntries(groups[..|groups| - 1]) + groups[|groups| - 1].count * EntriesFor(groups[|groups| - 1].size)
  }

  function BoundPages(groups: seq<Slots>): nat {
    CeilDiv(2 * (NAMESPACE_ENTRIES + SlotEntries(groups)), ENTRY_COUNT)
  }

  /** The bound is the least number of pages with enough entries for two full copies. */
  method CapacityModel(groups: seq<Slots>) returns (boundPages: nat, plannedPages: nat)
    ensures var twoCopies := 2 * (NAMESPACE_ENTRIES + SlotEntries(groups));
            forall pages: nat :: pages * ENTRY_COUNT >= twoCopies <==> pages >= boundPages
    ensures boundPages == BoundPages(groups) && plannedPages == boundPages + RESERVE_PAGES + WEAR_HEADROOM_PAGES
  {
    var full := NAMESPACE_ENTRIES;
    for i := 0 to |groups|
      invariant full == NAMESPACE_ENTRIES + SlotEntries(groups[..i])
    {
      var entries := NvsBlobEntries(groups[i].size);
      full := full + groups[i].count * entries;
      assert groups[..i + 1][..i] == groups[..i];
    }
    assert groups[..|groups|] == groups;
    boundPages := CeilDiv(full + full, ENTRY_COUNT);
    plannedPages := boundPages + RESERVE_PAGES + WEAR_HEADROOM_PAGES;
  }

  lemma ProductGrows(a: nat, b: nat, c: nat, d: nat)
    requires a <= b && c <= d
    ensures a * c <= b * d
  {
    assert a * c <= a * d <= b * d;
  }

  /** A larger blob or one more slot never lowers the bound. */
  lemma {:induction false} LargerSlotsNeedMore(a: seq<Slots>, b: seq<Slots>)
    requires |a| == |b| && forall i :: 0 <= i < |a| ==> a[i].size <= b[i].size && a[i].count <= b[i].count
    ensures SlotEntries(a) <= SlotEntries(b) && BoundPages(a) <= BoundPages(b)
  {
    if a != [] {
      var x, y := a[|a| - 1], b[|b| - 1];
      LargerSlotsNeedMore(a[..|a| - 1], b[..|b| - 1]);
      EntriesAreMonotone(x.size, y.size);
      ProductGrows(x.count, y.count, EntriesFor(x.size), EntriesFor(y.size));
    }
  }

  const CONFIGURATION_SLOTS: seq<Slots> :=
    [Slots(301, 4), Slots(45, 4), Slots(32813, 4), Slots(149, 3), Slots(114, 2), Slots(42, 2)]
  const RUN_SLOTS: seq<Slots> := [Slots(8240, 2), Slots(256, 1)]

  lemma AddSlots(a: seq<Slots>, s: Slots, entries: nat) returns (r: seq<Slots>)
    requires entries == EntriesFor(s.size)
    ensures r == a + [s] && SlotEntries(r) == SlotEntries(a) + s.count * entries
  {
    r := a + [s];
    assert r[..|a|] == a;
  }

  lemma RecordEntries()
    ensures SlotEntries(CONFIGURATION_SLOTS + RUN_SLOTS) == 4783
  {
    var s0: seq<Slots> := [];
    var s1 := AddSlots(s0, Slots(301, 4), 12);
    var s2 := AddSlots(s1, Slots(45, 4), 4);
    var s3 := AddSlots(s2, Slots(32813, 4), 1036);
    var s4 := AddSlots(s3, Slots(149, 3), 7);
    var s5 := AddSlots(s4, Slots(114, 2), 6);
    var s6 := AddSlots(s5, Slots(42, 2), 4);
    var s7 := AddSlots(s6, Slots(8240, 2), 262);
    var s8 := AddSlots(s7, Slots(256, 1), 10);
    assert s8 == CONFIGURATION_SLOTS + RUN_SLOTS;
  }

  /** With the records of this firmware the plan needs 144 of the 256 pages. */
  method PlannedStateStore() returns (pages: nat)
    ensures pages == 144 && pages * PAGE_SIZE <= 0x100000
  {
    var slots := CONFIGURATION_SLOTS + RUN_SLOTS;
    RecordEntries();
    var bound;
    bound, pages := CapacityModel(slots);
    assert bound == 76 by {
      assert 76 * ENTRY_COUNT >= 9568 && !(75 * ENTRY_COUNT >= 9568);
    }
  }

  // ----- placing the items on pages

  /** Items of `entries` entries that one blob stores: data chunks and the index. */
  function ItemsOf(size: nat, entries: nat): nat {
    var full := if entries == ENTRY_COUNT then size / CHUNK_MAX_SIZE else 0;
    var rest := size % CHUNK_MAX_SIZE;
    var last := if (rest > 0 || size == 0) && entries == BlobDataEntries(rest) then 1 else 0;
    full + last + if entries == BLOB_INDEX_ENTRIES then 1 else 0
  }

  function CountEntries(chunks: seq<nat>, entries: nat): nat {
    if chunks == [] then 0
    else CountEntries(chunks[..|chunks| - 1], entries)
         + if BlobDataEntries(chunks[|chunks| - 1]) == entries then 1 else 0
  }

  lemma {:induction false} CountFullChunks(chunks: seq<nat>, entries: nat)
    requires forall i :: 0 <= i < |chunks| ==> chunks[i] == CHUNK_MAX_SIZE
    ensures CountEntries(chunks, entries) == if entries == ENTRY_COUNT then |chunks| else 0
  {
    if chunks != [] {
      CountFullChunks(chunks[..|chunks| - 1], entries);
      assert BlobDataEntries(CHUNK_MAX_SIZE) == ENTRY_COUNT;
    }
  }

  /** The items are those of the chunk loop, plus the index. */
  lemma ItemsOfChunks(chunks: seq<nat>, size: nat, entries: nat)
    requires IsGreedyCut(chunks, size)
    ensures ItemsOf(size, entries) == CountEntries(chunks, entries) + if entries == BLOB_INDEX_ENTRIES then 1 else 0
  {
    var full, last := chunks[..|chunks| - 1], chunks[|chunks| - 1];
    CountFullChunks(full, entries);
    FullChunks(full);
    assert last in chunks;
    if size > 0 {
      var k := |full|;
      assert size == 4000 * k + last && 0 < last <= 4000;
      if last == 4000 {
        assert size / 4000 == k + 1 && size % 4000 == 0;
        assert BlobDataEntries(4000) == ENTRY_COUNT;
      } else {
        assert size / 4000 == k && size % 4000 == last;
      }
    } else {
      assert full == [];
    }
  }

  function SlotItems(groups: seq<Slots>, entries: nat): nat {
    if groups == [] then 0
    else SlotItems(groups[..|groups| - 1], entries)
         + groups[|groups| - 1].count * ItemsOf(groups[|groups| - 1].size, entries)
  }

  /** Items of two full copies, with the namespace entry of each. */
  function Demand(groups: seq<Slots>, entries: nat): nat {
    2 * (SlotItems(groups, entries) + if entries == NAMESPACE_ENTRIES then 1 else 0)
  }

  /** A page as runs of equal items, and a placement as runs of equal pages. */
  datatype Page = Blank | Run(entries: nat, items: nat, rest: Page)

  datatype Placement = Nothing | Copies(page: Page, count: nat, rest: Placement)

  function PageEntries(p: Page): nat {
    match p
    case Blank => 0
    case Run(entries, items, rest) => entries * items + PageEntries(rest)
  }

  function PageItems(p: Page, entries: nat): nat {
    match p
    case Blank => 0
    case Run(e, items, rest) => (if e == entries then items else 0) + PageItems(rest, entries)
  }

  function Pages(p: Placement): nat {
    match p
    case Nothing => 0
    case Copies(_, count, rest) => count + Pages(rest)
  }

  function Placed(p: Placement, entries: nat): nat {
    match p
    case Nothing => 0
    case Copies(page, count, rest) => count * PageItems(page, entries) + Placed(rest, entries)
  }

  predicate NoneOverfull(p: Placement) {
    match p
    case Nothing => true
    case Copies(page, _, rest) => PageEntries(page) <= ENTRY_COUNT && NoneOverfull(rest)
  }

  /** Every item lies on one page, and no page is overfull. */
  ghost predicate Places(p: Placement, groups: seq<Slots>) {
    NoneOverfull(p) && forall entries: nat :: Placed(p, entries) == Demand(groups, entries)
  }

  lemma AddItems(a: seq<Slots>, s: Slots, entries: nat) returns (r: seq<Slots>)
    ensures r == a + [s] && SlotItems(r, entries) == SlotItems(a, entries) + s.count * ItemsOf(s.size, entries)
  {
    r := a + [s];
    assert r[..|a|] == a;
  }

  lemma FirmwareItems(n: nat)
    ensures SlotItems(CONFIGURATION_SLOTS + RUN_SLOTS, n) ==
              4 * ItemsOf(301, n) + 4 * ItemsOf(45, n) + 4 * ItemsOf(32813, n) + 3 * ItemsOf(149, n)
              + 2 * ItemsOf(114, n) + 2 * ItemsOf(42, n) + 2 * ItemsOf(8240, n) + ItemsOf(256, n)
  {
    var s0: seq<Slots> := [];
    var s1 := AddItems(s0, Slots(301, 4), n);
    var s2 := AddItems(s1, Slots(45, 4), n);
    var s3 := AddItems(s2, Slots(32813, 4), n);
    var s4 := AddItems(s3, Slots(149, 3), n);
    var s5 := AddItems(s4, Slots(114, 2), n);
    var s6 := AddItems(s5, Slots(42, 2), n);
    var s7 := AddItems(s6, Slots(8240, 2), n);
    var s8 := AddItems(s7, Slots(256, 1), n);
    assert s8 == CONFIGURATION_SLOTS + RUN_SLOTS;
  }

  lemma AddRun(entries: nat, items: nat, rest: Page, total: nat) returns (p: Page)
    requires total == entries * items + PageEntries(rest)
    ensures PageEntries(p) == total
    ensures forall n: nat :: PageItems(p, n) == (if entries == n then items else 0) + PageItems(rest, n)
  {
    p := Run(entries, items, rest);
  }

  lemma AddPages(page: Page, count: nat, rest: Placement) returns (p: Placement)
    requires PageEntries(page) <= ENTRY_COUNT && NoneOverfull(rest)
    ensures NoneOverfull(p) && Pages(p) == count + Pages(rest)
    ensures forall n: nat :: Placed(p, n) == count * PageItems(page, n) + Placed(rest, n)
  {
    p := Copies(page, count, rest);
  }

  lemma FullPage() returns (p: Page)
    ensures PageEntries(p) == 126 && forall n: nat :: PageItems(p, n) == if n == 126 then 1 else 0
  {
    p := AddRun(126, 1, Blank, 126);
  }

  lemma MixedPage() returns (p: Page)
    ensures PageEntries(p) == 126
    ensures forall n: nat :: PageItems(p, n) == if n == 27 then 4 else if n == 11 || n == 6 || n == 1 then 1 else 0
  {
    var one := AddRun(1, 1, Blank, 1);
    var two := AddRun(6, 1, one, 7);
    var three := AddRun(11, 1, two, 18);
    p := AddRun(27, 4, three, 126);
  }

  lemma MiddlePage() returns (p: Page)
    ensures PageEntries(p) == 126
    ensures forall n: nat :: PageItems(p, n) == if n == 11 || n == 9 then 6 else if n == 6 then 1 else 0
  {
    var one := AddRun(6, 1, Blank, 6);
    var two := AddRun(9, 6, one, 60);
    p := AddRun(11, 6, two, 126);
  }

  lemma SmallPage() returns (p: Page)
    ensures PageEntries(p) == 118
    ensures forall n: nat ::
              PageItems(p, n) ==
                if n == 6 then 3 else if n == 5 then 4 else if n == 3 then 12 else if n == 1 then 44 else 0
  {
    var one := AddRun(1, 44, Blank, 44);
    var two := AddRun(3, 12, one, 80);
    var three := AddRun(5, 4, two, 100);
    p := AddRun(6, 3, three, 118);
  }

  /** Items of the two copies, by size. */
  function FirmwareDemand(n: nat): nat {
    if n == 126 then 72 else if n == 27 || n == 11 then 8 else if n == 9 || n == 6 then 6
    else if n == 5 then 4 else if n == 3 then 12 else if n == 1 then 46 else 0
  }

  lemma FirmwarePlacement() returns (p: Placement)
    ensures NoneOverfull(p) && Pages(p) == 76 && forall n: nat :: Placed(p, n) == FirmwareDemand(n)
  {
    var full := FullPage();
    var mixed := MixedPage();
    var middle := MiddlePage();
    var small := SmallPage();
    var one := AddPages(small, 1, Nothing);
    var two := AddPages(middle, 1, one);
    var four := AddPages(mixed, 2, two);
    p := AddPages(full, 72, four);
  }

  /** Items of a blob that needs one chunk. */
  lemma SmallBlobItems(size: nat, n: nat)
    requires 0 < size < CHUNK_MAX_SIZE && BlobDataEntries(size) < ENTRY_COUNT
    ensures ItemsOf(size, n) == (if n == BlobDataEntries(size) then 1 else 0) + if n == 1 then 1 else 0
  {
    assert size / 4000 == 0 && size % 4000 == size;
  }

  lemma RecordItems(n: nat)
    ensures ItemsOf(301, n) == (if n == 11 || n == 1 then 1 else 0)
    ensures ItemsOf(45, n) == (if n == 3 || n == 1 then 1 else 0)
    ensures ItemsOf(149, n) == (if n == 6 || n == 1 then 1 else 0)
    ensures ItemsOf(114, n) == (if n == 5 || n == 1 then 1 else 0)
    ensures ItemsOf(42, n) == (if n == 3 || n == 1 then 1 else 0)
    ensures ItemsOf(256, n) == (if n == 9 || n == 1 then 1 else 0)
  {
    SmallBlobItems(301, n);
    SmallBlobItems(45, n);
    SmallBlobItems(149, n);
    SmallBlobItems(114, n);
    SmallBlobItems(42, n);
    SmallBlobItems(256, n);
  }

  lemma LargeRecordItems(n: nat)
    ensures ItemsOf(32813, n) == (if n == 126 then 8 else if n == 27 || n == 1 then 1 else 0)
    ensures ItemsOf(8240, n) == (if n == 126 then 2 else if n == 9 || n == 1 then 1 else 0)
  {
  }

  lemma DemandOfFirmware(groups: seq<Slots>, n: nat)
    requires groups == CONFIGURATION_SLOTS + RUN_SLOTS
    ensures Demand(groups, n) == FirmwareDemand(n)
  {
    FirmwareItems(n);
    RecordItems(n);
    LargeRecordItems(n);
  }

  /** For the records of this firmware the bound is really enough: two full copies
      can be placed on the 76 pages, every chunk within one page. */
  lemma FirmwareSlotsFit(groups: seq<Slots>) returns (p: Placement)
    requires groups == CONFIGURATION_SLOTS + RUN_SLOTS
    ensures BoundPages(groups) == 76 == Pages(p) && Places(p, groups)
  {
    RecordEntries();
    p := FirmwarePlacement();
    forall n: nat ensures Placed(p, n) == Demand(groups, n) {
      DemandOfFirmware(groups, n);
    }
  }

  lemma {:induction false} ItemsFitPage(p: Page, entries: nat)
    ensures PageItems(p, entries) * entries <= PageEntries(p)
  {
    if p.Run? {
      ItemsFitPage(p.rest, entries);
      var first := if p.entries == entries then p.items else 0;
      assert PageItems(p, entries) * entries == first * entries + PageItems(p.rest, entries) * entries;
    }
  }

  lemma {:induction false} OnePerPage(p: Placement, entries: nat)
    requires 2 * entries > ENTRY_COUNT && NoneOverfull(p)
    ensures Placed(p, entries) <= Pages(p)
  {
    if p.Copies? {
      OnePerPage(p.rest, entries);
      ItemsFitPage(p.page, entries);
      var items := PageItems(p.page, entries);
      if items >= 2 {
        ProductGrows(2, items, entries, entries);
      }
      ProductGrows(p.count, p.count, items, 1);
    }
  }

  /** In general it is not: two blobs whose chunks fill just over half a page need
      four pages for two copies, while the bound is three. */
  lemma BoundMayNotSuffice(placement: Placement)
    requires Places(placement, [Slots(2016, 2)])
    ensures BoundPages([Slots(2016, 2)]) == 3 && Pages(placement) >= 4
  {
    var none: seq<Slots> := [];
    var one := AddItems(none, Slots(2016, 2), 64);
    var same := AddSlots(none, Slots(2016, 2), 65);
    assert one == same == [Slots(2016, 2)];
    assert ItemsOf(2016, 64) == 1;
    OnePerPage(placement, 64);
  }

  // ----- the partition table

  const PARTITION_TABLE_END := 0x9000
  const FLASH_END := 0x400000

  datatype Row = Row(name: string, start: int, length: int)

  datatype Failure = BadLabel(row: nat) | BadSize(row: nat) | OutOfSpace(row: nat) | Overlap

  datatype Result<T> = Ok(value: T) | Err(error: Failure)

  predicate RowFits(r: Row) { r.length > 0 && PARTITION_TABLE_END <= r.start && r.start + r.length <= FLASH_END }

  predicate Apart(a: Row, b: Row) { a.start + a.length <= b.start || b.start + b.length <= a.start }

  /** Every row is named uniquely and lies in the data space. */
  ghost predicate RowsFit(rows: seq<Row>) {
    && (forall i :: 0 <= i < |rows| ==> rows[i].name != "" && RowFits(rows[i]))
    && forall i, j :: 0 <= i < j < |rows| ==> rows[i].name != rows[j].name
  }

  ghost predicate PairwiseApart(rows: seq<Row>) {
    forall a, b :: a in rows && b in rows && a != b ==> Apart(a, b)
  }

  /** Stable sorting by start address. */
  function InsertByStart(r: Row, sorted: seq<Row>): seq<Row> {
    if sorted == [] then [r]
    else if sorted[0].start <= r.start then [sorted[0]] + InsertByStart(r, sorted[1..])
    else [r] + sorted
  }

  function SortByStart(rows: seq<Row>): seq<Row> {
    if rows == [] then [] else InsertByStart(rows[|rows| - 1], SortByStart(rows[..|rows| - 1]))
  }

  /** In address order, no row twice. */
  ghost predicate Ascending(rows: seq<Row>) {
    forall i, j :: 0 <= i < j < |rows| ==> rows[i].start <= rows[j].start && rows[i] != rows[j]
  }

  ghost predicate SameRows(a: seq<Row>, b: seq<Row>) { forall r :: r in a <==> r in b }

  lemma {:induction false} InsertSorts(r: Row, sorted: seq<Row>)
    requires Ascending(sorted) && r !in sorted
    ensures Ascending(InsertByStart(r, sorted)) && SameRows(InsertByStart(r, sorted), [r] + sorted)
  {
    if sorted != [] {
      var head, tail := sorted[0], sorted[1..];
      assert sorted == [head] + tail;
      if head.start <= r.start {
        assert forall i :: 0 <= i < |tail| ==> tail[i] == sorted[i + 1];
        InsertSorts(r, tail);
        var s := InsertByStart(r, tail);
        forall i | 0 <= i < |s| ensures head.start <= s[i].start && head != s[i] {
          assert s[i] in [r] + tail;
        }
      }
    }
  }

  lemma {:induction false} SortSorts(rows: seq<Row>)
    requires forall i, j :: 0 <= i < j < |rows| ==> rows[i] != rows[j]
    ensures Ascending(SortByStart(rows)) && SameRows(SortByStart(rows), rows)
  {
    if rows != [] {
      var front, last := rows[..|rows| - 1], rows[|rows| - 1];
      SortSorts(front);
      InsertSorts(last, SortByStart(front));
      assert rows == front + [last];
    }
  }

  ghost predicate NeighboursApart(rows: seq<Row>) {
    forall i :: 0 <= i < |rows| - 1 ==> rows[i].start + rows[i].length <= rows[i + 1].start
  }

  /** In address order it is enough to compare neighbours. */
  lemma NeighboursDecide(rows: seq<Row>)
    requires Ascending(rows) && forall r :: r in rows ==> r.length > 0
    ensures NeighboursApart(rows) <==> PairwiseApart(rows)
  {
    if NeighboursApart(rows) {
      forall i, j | 0 <= i < j < |rows| ensures Apart(rows[i], rows[j]) {
        assert rows[i].start + rows[i].length <= rows[i + 1].start <= rows[j].start;
      }
    } else {
      var i :| 0 <= i < |rows| - 1 && rows[i].start + rows[i].length > rows[i + 1].start;
      assert rows[i] in rows && rows[i + 1] in rows && !Apart(rows[i], rows[i + 1]);
    }
  }

  /** The loop over neighbours in address order. */
  method CheckOverlap(rows: seq<Row>) returns (overlap: bool)
    requires RowsFit(rows)
    ensures overlap <==> !PairwiseApart(rows)
  {
    var ordered := SortByStart(rows);
    SortSorts(rows);
    NeighboursDecide(ordered);
    var i := 0;
    while i + 1 < |ordered|
      invariant forall j :: 0 <= j < i && j < |ordered| - 1 ==>
        ordered[j].start + ordered[j].length <= ordered[j + 1].start
    {
      if ordered[i].start + ordered[i].length > ordered[i + 1].start {
        assert !NeighboursApart(ordered);
        return true;
      }
      i := i + 1;
    }
    overlap := false;
  }

  /** The named row is the first one that the reader refuses, and why. */
  ghost predicate FirstBad(rows: seq<Row>, e: Failure)
    requires e != Overlap
  {
    var i := e.row;
    && i < |rows| && RowsFit(rows[..i])
    && match e
       case BadLabel(_) => rows[i].name == "" || exists j :: 0 <= j < i && rows[j].name == rows[i].name
       case BadSize(_) => rows[i].length <= 0
       case OutOfSpace(_) => rows[i].length > 0 && !RowFits(rows[i])
       case Overlap => false
  }

  lemma BadRowDoesNotFit(rows: seq<Row>, e: Failure)
    requires e != Overlap && FirstBad(rows, e)
    ensures !RowsFit(rows)
  {
  }

  /** The reader accepts a table exactly if all rows fit and no two overlap;
      otherwise it reports the first bad row, or the overlap if every row is good. */
  method ReadPartitions(rows: seq<Row>) returns (r: Result<map<string, Row>>)
    ensures r.Ok? <==> RowsFit(rows) && PairwiseApart(rows)
    ensures r == Err(Overlap) <==> RowsFit(rows) && !PairwiseApart(rows)
    ensures r.Err? && r.error != Overlap ==> FirstBad(rows, r.error)
    ensures r.Ok? ==> Table(rows, r.value)
  {
    var partitions: map<string, Row> := map[];
    for i := 0 to |rows|
      invariant RowsFit(rows[..i]) && Table(rows[..i], partitions)
    {
      var row := rows[i];
      if row.name == "" || row.name in partitions {
        BadRowDoesNotFit(rows, BadLabel(i));
        return Err(BadLabel(i));
      }
      if row.length <= 0 {
        BadRowDoesNotFit(rows, BadSize(i));
        return Err(BadSize(i));
      }
      if row.start < PARTITION_TABLE_END || row.start + row.length > FLASH_END {
        BadRowDoesNotFit(rows, OutOfSpace(i));
        return Err(OutOfSpace(i));
      }
      TableGrows(rows, i, partitions);
      partitions := partitions[row.name := row];
    }
    assert rows[..|rows|] == rows;
    var overlap := CheckOverlap(rows);
    r := if overlap then Err(Overlap) else Ok(partitions);
  }

  /** The dictionary holds exactly the rows, by name. */
  ghost predicate Table(rows: seq<Row>, partitions: map<string, Row>) {
    && (forall row :: row in rows ==> row.name in partitions && partitions[row.name] == row)
    && forall name :: name in partitions ==> exists j :: 0 <= j < |rows| && rows[j].name == name
  }

  lemma TableGrows(rows: seq<Row>, i: nat, partitions: map<string, Row>)
    requires i < |rows| && RowsFit(rows[..i]) && Table(rows[..i], partitions)
    requires rows[i].name != "" && rows[i].name !in partitions && RowFits(rows[i])
    ensures RowsFit(rows[..i + 1]) && Table(rows[..i + 1], partitions[rows[i].name := rows[i]])
  {
    var longer := rows[..i + 1];
    assert longer == rows[..i] + [rows[i]];
    forall j | 0 <= j < i ensures longer[j].name != rows[i].name {
      assert longer[j] in rows[..i];
    }
    forall name | name in partitions ensures exists j :: 0 <= j < |longer| && longer[j].name == name {
      var j :| 0 <= j < i && rows[..i][j].name == name;
      assert longer[j].name == name;
    }
    assert longer[i].name == rows[i].name;
  }
}
