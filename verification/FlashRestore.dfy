/** Backup, campaign and restore of the production flash: what the phases of the
    product runner do to the flash image and to the manifest file, including
    phases that fail part-way. A digest carries its preimage, which models
    SHA-256 as collision-free. */
module FlashRestore {
  import opened Wrappers
  import opened Bytes

  const FLASH_SIZE := 0x400000
  const SECTOR := 0x1000
  const BOOT := 0x1000
  const TABLE := 0x8000
  const TABLE_LIMIT := 0x1000
  const APP := 0x10000
  const STATE := 0x300000
  const STATE_SIZE := 0x100000

  type Blob = seq<byte>
  type Flash = f: seq<byte> | |f| == FLASH_SIZE witness seq(FLASH_SIZE, i => 0)

  datatype Digest = Digest(preimage: Blob)

  // ----- flash accesses

  function SectorEnd(end: nat): nat { (end + SECTOR - 1) / SECTOR * SECTOR }

  function Region(f: Flash, offset: nat, size: nat): Blob
    requires offset + size <= FLASH_SIZE
  {
    f[offset..offset + size]
  }

  ghost predicate SameOutside(f: Flash, g: Flash, from: nat, to: nat) {
    forall i :: 0 <= i < FLASH_SIZE && !(from <= i < to) ==> f[i] == g[i]
  }

  /** A successful write: the bytes are there; the rest of the last sector was
      erased with them and may hold anything. */
  ghost predicate Written(f: Flash, offset: nat, data: Blob, g: Flash) {
    && offset + |data| <= FLASH_SIZE
    && Region(g, offset, |data|) == data
    && SameOutside(f, g, offset, SectorEnd(offset + |data|))
  }

  function Overwrite(f: Flash, offset: nat, data: Blob): Flash
    requires offset + |data| <= FLASH_SIZE
  {
    f[..offset] + data + f[offset + |data|..]
  }

  lemma OverwriteIsAWrite(f: Flash, offset: nat, data: Blob)
    requires offset + |data| <= FLASH_SIZE
    ensures Written(f, offset, data, Overwrite(f, offset, data))
  {
    assert Region(Overwrite(f, offset, data), offset, |data|) == data;
  }

  lemma SectorEndBounds(end: nat)
    ensures end <= SectorEnd(end)
    ensures end <= STATE ==> SectorEnd(end) <= STATE
  {
  }

  // ----- manifest

  datatype Entry = Entry(file: string, offset: nat, size: nat, digest: Digest)

  /** The frozen build report, which is never flashed. */
  datatype Report = Report(file: string, digest: Digest)

  datatype CampaignResult = NotRun | Pass | FailOrInterrupted

  datatype RestoreState = PendingBootloader | RetryRequired | PendingNormalBoot | Complete

  datatype Manifest = Manifest(
    sourceSha: string,
    table: Entry, stateStore: Entry,
    bootloader: Entry, releaseTable: Entry, application: Entry,
    report: Report,
    restoreRequired: bool, campaign: CampaignResult, restore: RestoreState,
    restoredApplication: Option<Digest>, observedSha: Option<string>)

  /** The loader's checks of the manifest's own fields. */
  predicate CrossFieldOk(m: Manifest) {
    && (m.restore.Complete? <==> !m.restoreRequired)
    && (m.restore.PendingNormalBoot? || m.restore.Complete? ==> m.restoredApplication.Some?)
    && (m.restore.Complete? ==> m.observedSha == Some(m.sourceSha))
    && m.table.offset == TABLE && 0 < m.table.size <= TABLE_LIMIT
    && m.stateStore.offset == STATE && m.stateStore.size == STATE_SIZE
    && m.bootloader.offset == BOOT && m.releaseTable.offset == TABLE && m.application.offset == APP
    && m.releaseTable.size == m.table.size && m.releaseTable.digest == m.table.digest
  }

  predicate FileOk(files: map<string, Blob>, e: Entry) {
    e.file in files && |files[e.file]| == e.size && Digest(files[e.file]) == e.digest
  }

  predicate FilesOk(files: map<string, Blob>, m: Manifest) {
    m.report.file in files && Digest(files[m.report.file]) == m.report.digest &&
    FileOk(files, m.table) && FileOk(files, m.stateStore) &&
    FileOk(files, m.bootloader) && FileOk(files, m.releaseTable) && FileOk(files, m.application)
  }

  predicate LoadAccepts(files: map<string, Blob>, m: Manifest) { CrossFieldOk(m) && FilesOk(files, m) }

  /** What no phase after prepare may change. */
  predicate SameCapture(m: Manifest, n: Manifest) {
    m.sourceSha == n.sourceSha && m.table == n.table && m.stateStore == n.stateStore &&
    m.bootloader == n.bootloader && m.releaseTable == n.releaseTable && m.application == n.application &&
    m.report == n.report
  }

  // ----- what a restore does to the flash

  datatype Image = Image(table: Blob, state: Blob, bootloader: Blob, application: Blob)

  function ImageOf(m: Manifest): Image {
    Image(m.table.digest.preimage, m.stateStore.digest.preimage,
          m.bootloader.digest.preimage, m.application.digest.preimage)
  }

  predicate ReadsBack(f: Flash, offset: nat, data: Blob) {
    offset + |data| <= FLASH_SIZE && Region(f, offset, |data|) == data
  }

  ghost predicate FiveWrites(f: Flash, f1: Flash, f2: Flash, f3: Flash, f4: Flash, g: Flash, image: Image) {
    && Written(f, STATE, image.state, f1) && Written(f1, TABLE, image.table, f2)
    && Written(f2, BOOT, image.bootloader, f3) && Written(f3, TABLE, image.table, f4)
    && Written(f4, APP, image.application, g)
  }

  predicate ReleaseReads(g: Flash, image: Image) {
    ReadsBack(g, BOOT, image.bootloader) && ReadsBack(g, TABLE, image.table) && ReadsBack(g, APP, image.application)
  }

  /** State store and table are written and read back one by one, then the three
      release artifacts in one command, of which only those are read back. */
  ghost predicate Restored(f: Flash, image: Image, g: Flash) {
    && ReleaseReads(g, image)
    && exists f1: Flash, f2: Flash, f3: Flash, f4: Flash :: FiveWrites(f, f1, f2, f3, f4, g, image)
  }

  /** The rebaseline reads all four regions back after its last write. */
  ghost predicate Rebaselined(f: Flash, image: Image, g: Flash) {
    Restored(f, image, g) && ReadsBack(g, STATE, image.state)
  }

  lemma RegionKept(f: Flash, g: Flash, from: nat, to: nat, offset: nat, size: nat)
    requires SameOutside(f, g, from, to) && offset + size <= FLASH_SIZE
    requires to <= offset || offset + size <= from
    ensures Region(f, offset, size) == Region(g, offset, size)
  {
  }

  /** After the five writes the release reads back if the bootloader ends below
      the table, and the state store if nothing was written over it; what reads
      back has been restored. */
  lemma AfterFiveWrites(f: Flash, f1: Flash, f2: Flash, f3: Flash, f4: Flash, g: Flash, image: Image)
    requires FiveWrites(f, f1, f2, f3, f4, g, image) && |image.table| <= TABLE_LIMIT
    ensures BOOT + |image.bootloader| <= TABLE ==> ReleaseReads(g, image)
    ensures BOOT + |image.bootloader| <= STATE && APP + |image.application| <= STATE ==> ReadsBack(g, STATE, image.state)
    ensures ReleaseReads(g, image) ==> Restored(f, image, g)
  {
    SectorEndBounds(TABLE + |image.table|);
    if BOOT + |image.bootloader| <= TABLE {
      RegionKept(f3, f4, TABLE, SectorEnd(TABLE + |image.table|), BOOT, |image.bootloader|);
      RegionKept(f4, g, APP, SectorEnd(APP + |image.application|), BOOT, |image.bootloader|);
      RegionKept(f4, g, APP, SectorEnd(APP + |image.application|), TABLE, |image.table|);
    }
    if BOOT + |image.bootloader| <= STATE && APP + |image.application| <= STATE {
      StateStoreKept(f1, f2, f3, f4, g, image);
    }
  }

  /** Writes that stay below the state store leave it alone. */
  lemma StateStoreKept(f1: Flash, f2: Flash, f3: Flash, f4: Flash, g: Flash, image: Image)
    requires Written(f1, TABLE, image.table, f2) && Written(f2, BOOT, image.bootloader, f3)
    requires Written(f3, TABLE, image.table, f4) && Written(f4, APP, image.application, g)
    requires |image.table| <= TABLE_LIMIT && |image.state| <= STATE_SIZE
    requires BOOT + |image.bootloader| <= STATE && APP + |image.application| <= STATE
    ensures Region(g, STATE, |image.state|) == Region(f1, STATE, |image.state|)
  {
    SectorEndBounds(TABLE + |image.table|);
    SectorEndBounds(BOOT + |image.bootloader|);
    SectorEndBounds(APP + |image.application|);
    RegionKept(f1, f2, TABLE, SectorEnd(TABLE + |image.table|), STATE, |image.state|);
    RegionKept(f2, f3, BOOT, SectorEnd(BOOT + |image.bootloader|), STATE, |image.state|);
    RegionKept(f3, f4, TABLE, SectorEnd(TABLE + |image.table|), STATE, |image.state|);
    RegionKept(f4, g, APP, SectorEnd(APP + |image.application|), STATE, |image.state|);
  }

  /** A successful restore brings back table and state store if bootloader and
      application end at or below the state store. */
  lemma RestoreBringsBack(f: Flash, image: Image, g: Flash)
    requires Restored(f, image, g) && |image.state| == STATE_SIZE && |image.table| <= TABLE_LIMIT
    ensures Region(g, TABLE, |image.table|) == image.table
    ensures BOOT + |image.bootloader| <= STATE && APP + |image.application| <= STATE ==>
              Region(g, STATE, STATE_SIZE) == image.state
  {
    var f1: Flash, f2: Flash, f3: Flash, f4: Flash :| FiveWrites(f, f1, f2, f3, f4, g, image);
    AfterFiveWrites(f, f1, f2, f3, f4, g, image);
  }

  /** The three artifacts fit the flash, and where the bootloader reaches into
      table or application it holds the same bytes; only then can a restore
      read all three back. */
  predicate CanReadBack(table: Blob, bootloader: Blob, application: Blob) {
    && BOOT + |bootloader| <= FLASH_SIZE && APP + |application| <= FLASH_SIZE
    && (forall i :: 0 <= i < |table| && TABLE + i < BOOT + |bootloader| ==> bootloader[TABLE - BOOT + i] == table[i])
    && forall i :: 0 <= i < |application| && APP + i < BOOT + |bootloader| ==> bootloader[APP - BOOT + i] == application[i]
  }

  lemma RestoredCanReadBack(f: Flash, image: Image, g: Flash)
    requires Restored(f, image, g) && |image.table| <= TABLE_LIMIT
    ensures CanReadBack(image.table, image.bootloader, image.application)
  {
    var boot, table, app := image.bootloader, image.table, image.application;
    forall i | 0 <= i < |table| && TABLE + i < BOOT + |boot| ensures boot[TABLE - BOOT + i] == table[i] {
      assert Region(g, BOOT, |boot|)[TABLE - BOOT + i] == g[TABLE + i] == Region(g, TABLE, |table|)[i];
    }
    forall i | 0 <= i < |app| && APP + i < BOOT + |boot| ensures boot[APP - BOOT + i] == app[i] {
      assert Region(g, BOOT, |boot|)[APP - BOOT + i] == g[APP + i] == Region(g, APP, |app|)[i];
    }
  }

  /** The bound is exact: every successful restore of a release keeps every state
      store exactly if bootloader and application end at or below it, or the
      release cannot be restored at all. */
  lemma StateStoreSafeExactly(table: Blob, bootloader: Blob, application: Blob)
    requires |table| <= TABLE_LIMIT
    ensures (forall f: Flash, state: Blob, g: Flash ::
               |state| == STATE_SIZE && Restored(f, Image(table, state, bootloader, application), g) ==>
                 Region(g, STATE, STATE_SIZE) == state)
            <==> (BOOT + |bootloader| <= STATE && APP + |application| <= STATE)
                 || !CanReadBack(table, bootloader, application)
  {
    if BOOT + |bootloader| <= STATE && APP + |application| <= STATE {
      forall f: Flash, state: Blob, g: Flash |
        |state| == STATE_SIZE && Restored(f, Image(table, state, bootloader, application), g)
        ensures Region(g, STATE, STATE_SIZE) == state
      {
        RestoreBringsBack(f, Image(table, state, bootloader, application), g);
      }
    } else if CanReadBack(table, bootloader, application) {
      var f: Flash := seq(FLASH_SIZE, i => 0);
      var state, g := LosesState(f, table, bootloader, application);
    } else {
      forall f: Flash, state: Blob, g: Flash | Restored(f, Image(table, state, bootloader, application), g) ensures false {
        RestoredCanReadBack(f, Image(table, state, bootloader, application), g);
      }
    }
  }

  lemma LosesState(f: Flash, table: Blob, bootloader: Blob, application: Blob) returns (state: Blob, g: Flash)
    requires |table| <= TABLE_LIMIT && CanReadBack(table, bootloader, application)
    requires BOOT + |bootloader| > STATE || APP + |application| > STATE
    ensures |state| == STATE_SIZE && Restored(f, Image(table, state, bootloader, application), g)
    ensures Region(g, STATE, STATE_SIZE) != state
  {
    var clobber: byte := if APP + |application| > STATE then application[STATE - APP] else bootloader[STATE - BOOT];
    var other: byte := if clobber == 0 then 1 else 0;
    state := seq(STATE_SIZE, i => other);
    var image := Image(table, state, bootloader, application);
    g := WriteAll(f, image);
    assert Region(g, STATE, STATE_SIZE)[0] == g[STATE] == clobber;
    assert state[0] == other;
  }

  /** The five writes on a flash that keeps the rest of each sector. */
  lemma WriteAll(f: Flash, image: Image) returns (g: Flash)
    requires |image.table| <= TABLE_LIMIT && |image.state| == STATE_SIZE
    requires CanReadBack(image.table, image.bootloader, image.application)
    ensures Restored(f, image, g)
    ensures APP + |image.application| > STATE ==> g[STATE] == image.application[STATE - APP]
    ensures APP + |image.application| <= STATE < BOOT + |image.bootloader| ==> g[STATE] == image.bootloader[STATE - BOOT]
  {
    var f1 := Overwrite(f, STATE, image.state);
    var f2 := Overwrite(f1, TABLE, image.table);
    var f3 := Overwrite(f2, BOOT, image.bootloader);
    var f4 := Overwrite(f3, TABLE, image.table);
    g := Overwrite(f4, APP, image.application);
    OverwriteIsAWrite(f, STATE, image.state);
    OverwriteIsAWrite(f1, TABLE, image.table);
    OverwriteIsAWrite(f2, BOOT, image.bootloader);
    OverwriteIsAWrite(f3, TABLE, image.table);
    OverwriteIsAWrite(f4, APP, image.application);
    assert Region(g, BOOT, |image.bootloader|) == image.bootloader;
    assert Region(g, TABLE, |image.table|) == image.table;
    AfterFiveWrites(f, f1, f2, f3, f4, g, image);
  }
}
