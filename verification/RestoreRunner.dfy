/** The phases of the product runner as steps on a world of flash image, host
    files and manifest, and what holds over every sequence of phases, failures,
    interruptions and foreign writes. */
module RestoreRunner {
  import opened Wrappers
  import opened FlashRestore

  /** A manifest file is missing, readable, or torn by a host that died while
      writing it; a torn one is a used target that no loader reads. */
  datatype World = World(flash: Flash, files: map<string, Blob>, manifest: Option<Manifest>, torn: bool)

  /** The release that prepare is asked to freeze. */
  datatype Release = Release(sourceSha: string, table: Blob, bootloader: Blob, application: Blob, report: Blob)

  datatype Event =
    | Prepare(release: Release)
    | Campaign(passed: bool)
    | CampaignKilled     // the host died before the campaign could note its end
    | RestoreOk
    | RestoreFailed
    | RestoreKilled      // the host died before the restore could note its end
    | VerifyBoot(observedSha: string)
    | Rebaseline(image: Image)
    | ManifestTorn(prepare: Option<Release>)  // the host died inside a manifest write
    | Refused
    | Outside            // anything else that writes flash or host files

  const TABLE_BACKUP := "production_partition_table.bin"
  const STATE_BACKUP := "production_state_store.bin"
  const FROZEN_BOOTLOADER := "production_release/bootloader.bin"
  const FROZEN_TABLE := "production_release/partition-table.bin"
  const FROZEN_APPLICATION := "production_release/application.bin"
  const FROZEN_REPORT := "production_release/build-report.md"

  function EntryFor(file: string, offset: nat, data: Blob): Entry { Entry(file, offset, |data|, Digest(data)) }

  /** The manifest prepare writes after capturing table and state store. */
  function FreshManifest(flash: Flash, r: Release): Manifest
    requires |r.table| <= TABLE_LIMIT
  {
    Manifest(r.sourceSha,
             EntryFor(TABLE_BACKUP, TABLE, Region(flash, TABLE, |r.table|)),
             EntryFor(STATE_BACKUP, STATE, Region(flash, STATE, STATE_SIZE)),
             EntryFor(FROZEN_BOOTLOADER, BOOT, r.bootloader),
             EntryFor(FROZEN_TABLE, TABLE, r.table),
             EntryFor(FROZEN_APPLICATION, APP, r.application),
             Report(FROZEN_REPORT, Digest(r.report)),
             true, NotRun, PendingBootloader, None, None)
  }

  function FreshFiles(files: map<string, Blob>, flash: Flash, r: Release): map<string, Blob>
    requires |r.table| <= TABLE_LIMIT
  {
    files[TABLE_BACKUP := Region(flash, TABLE, |r.table|)]
         [STATE_BACKUP := Region(flash, STATE, STATE_SIZE)]
         [FROZEN_BOOTLOADER := r.bootloader]
         [FROZEN_TABLE := r.table]
         [FROZEN_APPLICATION := r.application]
         [FROZEN_REPORT := r.report]
  }

  /** prepare refuses used targets and empty artifacts before it touches anything. */
  predicate PrepareStarts(w: World, r: Release) {
    && w.manifest.None? && !w.torn
    && TABLE_BACKUP !in w.files && STATE_BACKUP !in w.files
    && FROZEN_BOOTLOADER !in w.files && FROZEN_TABLE !in w.files && FROZEN_APPLICATION !in w.files
    && FROZEN_REPORT !in w.files
    && 0 < |r.table| <= TABLE_LIMIT && 0 < |r.bootloader| && 0 < |r.application|
  }

  /** A table that differs from the one on the board is found after its capture. */
  predicate PrepareAllowed(w: World, r: Release) {
    PrepareStarts(w, r) && Region(w.flash, TABLE, |r.table|) == r.table
  }

  predicate Loaded(w: World) { w.manifest.Some? && LoadAccepts(w.files, w.manifest.value) }

  ghost predicate Step(w: World, e: Event, v: World) {
    && (v.torn <==> w.torn || e.ManifestTorn?)
    && match e
    case Prepare(r) =>
      && PrepareAllowed(w, r)
      && v == World(w.flash, FreshFiles(w.files, w.flash, r), Some(FreshManifest(w.flash, r)), false)
    case Campaign(passed) =>
      && Loaded(w) && v.files == w.files
      && v.manifest == Some(w.manifest.value.(
           campaign := if passed then Pass else FailOrInterrupted,
           restoreRequired := true, restore := PendingBootloader))
    case CampaignKilled => Loaded(w) && v.files == w.files && v.manifest == w.manifest
    case RestoreOk =>
      && Loaded(w) && w.manifest.value.restoreRequired && v.files == w.files
      && Restored(w.flash, ImageOf(w.manifest.value), v.flash)
      && v.manifest == Some(w.manifest.value.(
           restoreRequired := true, restore := PendingNormalBoot,
           restoredApplication := Some(w.manifest.value.application.digest)))
    case RestoreFailed =>
      && Loaded(w) && w.manifest.value.restoreRequired && v.files == w.files
      && v.manifest == Some(w.manifest.value.(restoreRequired := true, restore := RetryRequired))
    case RestoreKilled =>
      Loaded(w) && w.manifest.value.restoreRequired && v.files == w.files && v.manifest == w.manifest
    case VerifyBoot(observed) =>
      && Loaded(w) && w.manifest.value.restore.PendingNormalBoot? && observed == w.manifest.value.sourceSha
      && v.flash == w.flash && v.files == w.files
      && v.manifest == Some(w.manifest.value.(
           restoreRequired := false, restore := Complete, observedSha := Some(observed)))
    case Rebaseline(image) =>
      && w.manifest.Some? && v.manifest == w.manifest && v.files == w.files
      && FileOk(w.files, w.manifest.value.table) && FileOk(w.files, w.manifest.value.stateStore)
      && image.table == w.manifest.value.table.digest.preimage
      && image.state == w.manifest.value.stateStore.digest.preimage
      && Rebaselined(w.flash, image, v.flash)
    case ManifestTorn(prepare) =>
      && v.manifest.None?
      && if prepare.None? then Loaded(w) && v.files == w.files
         else var r := prepare.value;
           PrepareAllowed(w, r) && v.flash == w.flash && v.files == FreshFiles(w.files, w.flash, r)
    case Refused => v == w
    case Outside => v.manifest == w.manifest
  }

  /** Bootloader below the table, application below a limit. */
  predicate Fits(bootloader: nat, application: nat, limit: nat) {
    BOOT + bootloader <= TABLE && APP + application <= limit
  }

  // ----- runs

  ghost predicate Run(worlds: seq<World>, events: seq<Event>) {
    && |worlds| == |events| + 1
    && worlds[0].manifest.None? && !worlds[0].torn
    && forall i :: 0 <= i < |events| ==> Step(worlds[i], events[i], worlds[i + 1])
  }

  ghost predicate PreparedAt(worlds: seq<World>, events: seq<Event>, p: nat) {
    p < |events| < |worlds| && events[p].Prepare?
  }

  /** Every manifest that any sequence of phases leaves behind passes the
      loader's checks of its own fields, and still holds what prepare captured. */
  lemma {:induction false} ManifestIsConsistent(worlds: seq<World>, events: seq<Event>, n: nat) returns (p: nat)
    requires Run(worlds, events) && n < |worlds| && worlds[n].manifest.Some?
    ensures p < n && PreparedAt(worlds, events, p)
    ensures CrossFieldOk(worlds[n].manifest.value)
    ensures |events[p].release.table| <= TABLE_LIMIT
    ensures SameCapture(worlds[n].manifest.value, FreshManifest(worlds[p].flash, events[p].release))
    ensures PrepareAllowed(worlds[p], events[p].release)
  {
    assert Step(worlds[n - 1], events[n - 1], worlds[n]);
    if events[n - 1].Prepare? {
      p := n - 1;
    } else {
      p := ManifestIsConsistent(worlds, events, n - 1);
    }
  }

  /** So the loader rejects a manifest of a run only for its files: if they are
      unchanged, every later phase can go on. */
  lemma LoaderAcceptsOwnManifest(worlds: seq<World>, events: seq<Event>, n: nat)
    requires Run(worlds, events) && n < |worlds| && worlds[n].manifest.Some?
    ensures LoadAccepts(worlds[n].files, worlds[n].manifest.value) <==> FilesOk(worlds[n].files, worlds[n].manifest.value)
  {
    var p := ManifestIsConsistent(worlds, events, n);
  }

  /** Restore is required exactly while the manifest is not complete. */
  lemma RequiredExactlyUntilComplete(worlds: seq<World>, events: seq<Event>, n: nat)
    requires Run(worlds, events) && n < |worlds| && worlds[n].manifest.Some?
    ensures !worlds[n].manifest.value.restoreRequired <==> worlds[n].manifest.value.restore.Complete?
  {
    var p := ManifestIsConsistent(worlds, events, n);
  }

  /** Events that begin no campaign and no restore, and leave the manifest alone. */
  predicate Silent(e: Event) { e.Refused? || e.Outside? || e.Rebaseline? }

  /** A campaign or restore that left no trace in the manifest. */
  predicate Killed(e: Event) { e.CampaignKilled? || e.RestoreKilled? }

  predicate BeganPhase(e: Event) { e.Campaign? || e.RestoreOk? || e.RestoreFailed? || Killed(e) }

  lemma {:induction false} PendingBootComesFromRestore(worlds: seq<World>, events: seq<Event>, n: nat) returns (r: nat)
    requires Run(worlds, events) && n < |worlds|
    requires worlds[n].manifest.Some? && worlds[n].manifest.value.restore.PendingNormalBoot?
    ensures r < n && events[r].RestoreOk? && forall i :: r < i < n ==> Silent(events[i]) || Killed(events[i])
  {
    assert Step(worlds[n - 1], events[n - 1], worlds[n]);
    if events[n - 1].RestoreOk? {
      r := n - 1;
    } else {
      r := PendingBootComesFromRestore(worlds, events, n - 1);
    }
  }

  lemma {:induction false} CompleteComesFromVerifiedBoot(worlds: seq<World>, events: seq<Event>, n: nat)
    returns (r: nat, v: nat)
    requires Run(worlds, events) && n < |worlds|
    requires worlds[n].manifest.Some? && worlds[n].manifest.value.restore.Complete?
    ensures r < v < n && events[r].RestoreOk? && events[v] == VerifyBoot(worlds[n].manifest.value.sourceSha)
    ensures forall i :: r < i < n && i != v ==> Silent(events[i]) || Killed(events[i])
  {
    assert Step(worlds[n - 1], events[n - 1], worlds[n]);
    if events[n - 1].VerifyBoot? {
      v := n - 1;
      r := PendingBootComesFromRestore(worlds, events, n - 1);
    } else {
      r, v := CompleteComesFromVerifiedBoot(worlds, events, n - 1);
    }
  }

  /** COMPLETE is reached only by a boot with the expected identity after a
      successful restore. No campaign and no restore began since that restore
      exactly if none was killed since. */
  lemma CompleteComesFromVerifiedRestore(worlds: seq<World>, events: seq<Event>, n: nat) returns (r: nat, v: nat)
    requires Run(worlds, events) && n < |worlds|
    requires worlds[n].manifest.Some? && worlds[n].manifest.value.restore.Complete?
    ensures r < v < n && events[r].RestoreOk? && events[v] == VerifyBoot(worlds[n].manifest.value.sourceSha)
    ensures forall i :: r < i < n && BeganPhase(events[i]) ==> Killed(events[i])
    ensures (forall i :: r < i < n ==> !BeganPhase(events[i])) <==> (forall i :: r < i < n ==> !Killed(events[i]))
  {
    r, v := CompleteComesFromVerifiedBoot(worlds, events, n);
    forall i | r < i < n && BeganPhase(events[i]) ensures Killed(events[i]) {
      assert i != v;
    }
  }

  lemma FreshIsLoadable(w: World, r: Release)
    requires PrepareAllowed(w, r)
    ensures LoadAccepts(FreshFiles(w.files, w.flash, r), FreshManifest(w.flash, r))
  {
  }

  lemma TornStateStore(f: Flash, torn: Blob)
    requires |torn| == STATE_SIZE
    ensures SameOutside(f, Overwrite(f, STATE, torn), STATE, FLASH_SIZE)
    ensures Region(Overwrite(f, STATE, torn), STATE, STATE_SIZE) == torn
  {
  }

  lemma RestoredBoard(w: World, release: Release) returns (prepared: World, restored: World)
    requires PrepareAllowed(w, release) && CanReadBack(release.table, release.bootloader, release.application)
    ensures Step(w, Prepare(release), prepared) && Step(prepared, RestoreOk, restored)
    ensures Loaded(restored) && !restored.torn && restored.manifest.value.sourceSha == release.sourceSha
    ensures restored.manifest.value.restore.PendingNormalBoot? && restored.manifest.value.restoreRequired
  {
    var m := FreshManifest(w.flash, release);
    prepared := World(w.flash, FreshFiles(w.files, w.flash, release), Some(m), false);
    FreshIsLoadable(w, release);
    var flash := WriteAll(w.flash, ImageOf(m));
    var pending := m.(restore := PendingNormalBoot, restoredApplication := Some(m.application.digest));
    restored := World(flash, prepared.files, Some(pending), false);
  }

  /** A killed restore is really missed: from every board that can be prepared with
      a release that can be restored, a second restore that dies in its first write leaves a torn state store, and
      the boot check after it still reaches COMPLETE. */
  lemma KilledRestoreCompletes(w: World, release: Release, torn: Blob) returns (worlds: seq<World>, events: seq<Event>)
    requires PrepareAllowed(w, release) && |torn| == STATE_SIZE
    requires CanReadBack(release.table, release.bootloader, release.application)
    ensures Run(worlds, events)
    ensures events == [Prepare(release), RestoreOk, RestoreKilled, VerifyBoot(release.sourceSha)] && worlds[0] == w
    ensures SameOutside(worlds[2].flash, worlds[3].flash, STATE, FLASH_SIZE)
    ensures worlds[4].manifest.Some? && worlds[4].manifest.value.restore.Complete?
    ensures Region(worlds[4].flash, STATE, STATE_SIZE) == torn
  {
    var prepared, restored := RestoredBoard(w, release);
    var pending := restored.manifest.value;
    TornStateStore(restored.flash, torn);
    var killed := restored.(flash := Overwrite(restored.flash, STATE, torn));
    var complete := pending.(restoreRequired := false, restore := Complete, observedSha := Some(release.sourceSha));
    worlds := [w, prepared, restored, killed, killed.(manifest := Some(complete))];
    events := [Prepare(release), RestoreOk, RestoreKilled, VerifyBoot(release.sourceSha)];
    assert Step(restored, RestoreKilled, killed);
    assert Step(killed, events[3], worlds[4]);
  }

  lemma {:induction false} TornManifestIsUnread(worlds: seq<World>, events: seq<Event>, n: nat)
    requires Run(worlds, events) && n < |worlds|
    ensures worlds[n].torn ==> worlds[n].manifest.None?
  {
    if n > 0 {
      TornManifestIsUnread(worlds, events, n - 1);
      assert Step(worlds[n - 1], events[n - 1], worlds[n]);
    }
  }

  /** A manifest torn by a dying host ends the cycle: every later phase is refused,
      so neither restore nor rebaseline can bring the captured data back. */
  lemma {:induction false} TornManifestIsFinal(worlds: seq<World>, events: seq<Event>, n: nat, m: nat)
    requires Run(worlds, events) && n <= m < |worlds| && worlds[n].torn
    ensures worlds[m].torn && forall i :: n <= i < m ==> events[i].Refused? || events[i].Outside?
  {
    if n < m {
      TornManifestIsFinal(worlds, events, n, m - 1);
      TornManifestIsUnread(worlds, events, m - 1);
      assert Step(worlds[m - 1], events[m - 1], worlds[m]);
    }
  }

  /** Without such a phase, a foreign write or a rebaseline, a complete manifest
      means that the flash still is what the restore left. */
  lemma {:induction false} QuietRunKeepsRestoredFlash(worlds: seq<World>, events: seq<Event>, r: nat, n: nat)
    requires Run(worlds, events) && r < n < |worlds|
    requires forall i :: r < i < n ==> events[i].Refused? || events[i].VerifyBoot?
    ensures worlds[n].flash == worlds[r + 1].flash
  {
    if r + 1 < n {
      QuietRunKeepsRestoredFlash(worlds, events, r, n - 1);
      assert Step(worlds[n - 1], events[n - 1], worlds[n]);
    }
  }

  /** After prepare and any phases, failed restores and foreign writes, a
      successful restore brings back the captured table, and the captured state
      store if the frozen bootloader and application end at or below it. */
  lemma RestoreBringsBackCapture(worlds: seq<World>, events: seq<Event>, r: nat) returns (p: nat)
    requires Run(worlds, events) && r < |events| && events[r].RestoreOk?
    ensures p < r && PreparedAt(worlds, events, p) && |events[p].release.table| <= TABLE_LIMIT
    ensures var size := |events[p].release.table|;
            Region(worlds[r + 1].flash, TABLE, size) == Region(worlds[p].flash, TABLE, size)
    ensures BOOT + |events[p].release.bootloader| <= STATE && APP + |events[p].release.application| <= STATE ==>
              Region(worlds[r + 1].flash, STATE, STATE_SIZE) == Region(worlds[p].flash, STATE, STATE_SIZE)
  {
    assert Step(worlds[r], events[r], worlds[r + 1]);
    p := ManifestIsConsistent(worlds, events, r);
    RestoreBringsBack(worlds[r].flash, ImageOf(worlds[r].manifest.value), worlds[r + 1].flash);
  }

  /** The rebaseline needs no such bound. */
  lemma RebaselineBringsBackCapture(worlds: seq<World>, events: seq<Event>, r: nat) returns (p: nat)
    requires Run(worlds, events) && r < |events| && events[r].Rebaseline?
    ensures p < r && PreparedAt(worlds, events, p) && |events[p].release.table| <= TABLE_LIMIT
    ensures var size := |events[p].release.table|;
            Region(worlds[r + 1].flash, TABLE, size) == Region(worlds[p].flash, TABLE, size)
    ensures Region(worlds[r + 1].flash, STATE, STATE_SIZE) == Region(worlds[p].flash, STATE, STATE_SIZE)
  {
    assert Step(worlds[r], events[r], worlds[r + 1]);
    p := ManifestIsConsistent(worlds, events, r);
  }

  // ----- the runner itself

  /** The fate of one esptool write: whether it completes, and what the touched
      sectors hold where the data does not. */
  datatype Fate = Fate(completes: bool, residue: Flash)

  /** Every write completes and every read succeeds. */
  ghost predicate AllGo(fate: nat -> Fate, readable: nat -> bool, writeCount: nat, readCount: nat) {
    (forall i: nat :: i < writeCount ==> fate(i).completes) && forall i: nat :: i < readCount ==> readable(i)
  }

  /** The checks of the rebaseline before its first write. */
  predicate RebaselineAdmits(w: World, release: Release) {
    && w.manifest.Some?
    && FileOk(w.files, w.manifest.value.table) && FileOk(w.files, w.manifest.value.stateStore)
    && w.manifest.value.table.offset == TABLE && 0 < w.manifest.value.table.size <= TABLE_LIMIT
    && w.manifest.value.stateStore.offset == STATE && w.manifest.value.stateStore.size == STATE_SIZE
    && Digest(release.table) == w.manifest.value.table.digest
    && 0 < |release.bootloader| && 0 < |release.application|
  }

  /** Whether the host survives a phase, dies before it writes the manifest, or
      dies inside that write. */
  datatype Host = Survives | DiesBefore | DiesWriting

  class ProductRunner {
    var flash: Flash
    var files: map<string, Blob>
    var manifest: Option<Manifest>
    var torn: bool

    ghost function State(): World
      reads this
    {
      World(flash, files, manifest, torn)
    }

    constructor (flash: Flash, files: map<string, Blob>)
      ensures State() == World(flash, files, None, false)
    {
      this.flash, this.files, manifest, torn := flash, files, None, false;
    }

    method WriteFlash(offset: nat, data: Blob, fate: Fate) returns (ok: bool)
      modifies this`flash
      ensures ok <==> fate.completes && offset + |data| <= FLASH_SIZE
      ensures ok ==> Written(old(flash), offset, data, flash)
      ensures SameOutside(old(flash), flash, offset, SectorEnd(offset + |data|))
    {
      ok := fate.completes && offset + |data| <= FLASH_SIZE;
      var kept, end, done := flash, SectorEnd(offset + |data|), ok;
      flash := seq(FLASH_SIZE, i requires 0 <= i < FLASH_SIZE =>
        if done && offset <= i < offset + |data| then data[i - offset]
        else if offset <= i < end then fate.residue[i]
        else kept[i]);
      assert ok ==> Region(flash, offset, |data|) == data;
    }

    method ReadbackMatches(e: Entry, readable: bool) returns (ok: bool)
      ensures ok <==> readable && e.size == |e.digest.preimage| && ReadsBack(flash, e.offset, e.digest.preimage)
    {
      ok := readable && e.offset + e.size <= FLASH_SIZE && Digest(Region(flash, e.offset, e.size)) == e.digest;
    }

    method WriteAndVerify(e: Entry, fate: Fate, readable: bool) returns (ok: bool)
      modifies this`flash
      ensures ok <==> FileOk(files, e) && fate.completes && readable && e.offset + e.size <= FLASH_SIZE
      ensures ok ==> Written(old(flash), e.offset, e.digest.preimage, flash)
    {
      if !FileOk(files, e) {
        return false;
      }
      ok := WriteFlash(e.offset, files[e.file], fate);
      if ok {
        ok := ReadbackMatches(e, readable);
      }
    }

    /** One write command for the three release artifacts, in this order. */
    method WriteRelease(image: Image, fate: nat -> Fate) returns (ok: bool, ghost f3: Flash, ghost f4: Flash)
      modifies this`flash
      ensures ok ==>
                && Written(old(flash), BOOT, image.bootloader, f3) && Written(f3, TABLE, image.table, f4)
                && Written(f4, APP, image.application, flash)
                && fate(2).completes && fate(3).completes && fate(4).completes
      ensures fate(2).completes && fate(3).completes && fate(4).completes && |image.table| <= TABLE_LIMIT ==>
                Fits(|image.bootloader|, |image.application|, FLASH_SIZE) ==> ok
    {
      f3, f4 := flash, flash;
      ok := WriteFlash(BOOT, image.bootloader, fate(2));
      if !ok { return; }
      f3 := flash;
      ok := WriteFlash(TABLE, image.table, fate(3));
      if !ok { return; }
      f4 := flash;
      ok := WriteFlash(APP, image.application, fate(4));
    }

    /** The writes that restore and rebaseline share, in this order. */
    method WriteLayout(state: Entry, table: Entry, image: Image, fate: nat -> Fate, readable: nat -> bool)
      returns (ok: bool, ghost f1: Flash, ghost f2: Flash, ghost f3: Flash, ghost f4: Flash)
      requires FileOk(files, state) && state.offset == STATE && image.state == state.digest.preimage
      requires FileOk(files, table) && table.offset == TABLE && image.table == table.digest.preimage
      modifies this`flash
      ensures ok ==> FiveWrites(old(flash), f1, f2, f3, f4, flash, image) && AllGo(fate, readable, 5, 2)
      ensures
        AllGo(fate, readable, 5, 2) && |image.table| <= TABLE_LIMIT && |image.state| <= STATE_SIZE ==>
          Fits(|image.bootloader|, |image.application|, FLASH_SIZE) ==> ok
    {
      f1, f2, f3, f4 := flash, flash, flash, flash;
      ok := WriteAndVerify(state, fate(0), readable(0));
      if !ok { return; }
      f1 := flash;
      ok := WriteAndVerify(table, fate(1), readable(1));
      if !ok { return; }
      f2 := flash;
      ok, f3, f4 := WriteRelease(image, fate);
    }

    method RestoreProductionLayout(fate: nat -> Fate, readable: nat -> bool) returns (ok: bool)
      requires manifest.Some? && LoadAccepts(files, manifest.value)
      modifies this`flash
      ensures ok ==> Restored(old(flash), ImageOf(manifest.value), flash) && AllGo(fate, readable, 5, 5)
      ensures
        Fits(manifest.value.bootloader.size, manifest.value.application.size, FLASH_SIZE) && AllGo(fate, readable, 5, 5)
        ==> ok
    {
      var m := manifest.value;
      ghost var before, f1, f2, f3, f4 := flash, flash, flash, flash, flash;
      var image :=
        Image(files[m.table.file], files[m.stateStore.file], files[m.bootloader.file], files[m.application.file]);
      ok, f1, f2, f3, f4 := WriteLayout(m.stateStore, m.table, image, fate, readable);
      if !ok { return; }
      AfterFiveWrites(before, f1, f2, f3, f4, flash, image);
      ok := ReadbackMatches(m.bootloader, readable(2));
      if !ok { return; }
      ok := ReadbackMatches(m.releaseTable, readable(3));
      if !ok { return; }
      ok := ReadbackMatches(m.application, readable(4));
    }

    method RunRestore(confirmed: bool, host: Host, fate: nat -> Fate, readable: nat -> bool) returns (event: Event)
      modifies this
      ensures Step(old(State()), event, State())
      ensures event.RestoreOk? || event.RestoreFailed? || event.RestoreKilled? || event.ManifestTorn? || event.Refused?
      ensures event.RestoreKilled? <==> host.DiesBefore? && !event.Refused?
      ensures event.ManifestTorn? <==> host.DiesWriting? && !event.Refused?
      ensures event.Refused? <==> !confirmed || !Loaded(old(State())) || !old(manifest).value.restoreRequired
      ensures event.RestoreOk? ==> AllGo(fate, readable, 5, 5)
      ensures
        !event.Refused? && host.Survives? && AllGo(fate, readable, 5, 5) ==>
          var m := old(manifest).value;
          Fits(m.bootloader.size, m.application.size, FLASH_SIZE) ==> event.RestoreOk?
    {
      if manifest.None? || !LoadAccepts(files, manifest.value) || !manifest.value.restoreRequired || !confirmed {
        return Refused;
      }
      var ok := RestoreProductionLayout(fate, readable);
      if host.DiesBefore? {
        return RestoreKilled;
      }
      if host.DiesWriting? {
        manifest, torn := None, true;
        return ManifestTorn(None);
      }
      if !ok {
        manifest := Some(manifest.value.(restoreRequired := true, restore := RetryRequired));
        return RestoreFailed;
      }
      manifest := Some(manifest.value.(
        restoreRequired := true, restore := PendingNormalBoot,
        restoredApplication := Some(manifest.value.application.digest)));
      return RestoreOk;
    }

    /** The writes and the four readbacks of a rebaseline. */
    method WriteRebaseline(m: Manifest, image: Image, fate: nat -> Fate, readable: nat -> bool) returns (ok: bool)
      requires FileOk(files, m.table) && m.table.offset == TABLE && image.table == m.table.digest.preimage
      requires FileOk(files, m.stateStore) && m.stateStore.offset == STATE && image.state == m.stateStore.digest.preimage
      requires m.table.size <= TABLE_LIMIT && m.stateStore.size == STATE_SIZE
      modifies this`flash
      ensures ok ==> Rebaselined(old(flash), image, flash) && AllGo(fate, readable, 5, 6)
      ensures AllGo(fate, readable, 5, 6) && Fits(|image.bootloader|, |image.application|, STATE) ==> ok
    {
      ghost var before, f1, f2, f3, f4 := flash, flash, flash, flash, flash;
      ok, f1, f2, f3, f4 := WriteLayout(m.stateStore, m.table, image, fate, readable);
      if !ok { return; }
      AfterFiveWrites(before, f1, f2, f3, f4, flash, image);
      ok := ReadbackMatches(m.stateStore, readable(2));
      if !ok { return; }
      ok := ReadbackMatches(m.table, readable(3));
      if !ok { return; }
      ok := ReadbackMatches(EntryFor(FROZEN_BOOTLOADER, BOOT, image.bootloader), readable(4));
      if !ok { return; }
      ok := ReadbackMatches(EntryFor(FROZEN_APPLICATION, APP, image.application), readable(5));
    }

    /** Writes the captured data and a newly built release. A run that stops
        part-way has changed the flash but not the manifest. */
    method RebaselineProductionWrite(release: Release, ready: bool, fate: nat -> Fate, readable: nat -> bool)
      returns (event: Event)
      modifies this`flash
      ensures Step(old(State()), event, State()) && (event.Rebaseline? || event.Outside?)
      ensures !ready || !RebaselineAdmits(old(State()), release) ==> event.Outside? && flash == old(flash)
      ensures event.Rebaseline? ==> AllGo(fate, readable, 5, 6)
      ensures
        ready && RebaselineAdmits(old(State()), release) && AllGo(fate, readable, 5, 6) ==>
          Fits(|release.bootloader|, |release.application|, STATE) ==> event.Rebaseline?
    {
      if !ready || !RebaselineAdmits(World(flash, files, manifest, torn), release) {
        return Outside;
      }
      var m := manifest.value;
      var image := Image(release.table, m.stateStore.digest.preimage, release.bootloader, release.application);
      var ok := WriteRebaseline(m, image, fate, readable);
      event := if ok then Rebaseline(image) else Outside;
    }

    /** Writes the six files in order and the manifest last; a run that stops
        part-way leaves the files written so far, one that dies inside the last
        write a torn manifest. */
    method PreparePreHarnessBackup(release: Release, ready: bool, stopAfter: nat) returns (event: Event)
      modifies this
      ensures Step(old(State()), event, State())
      ensures event == Prepare(release) || event == ManifestTorn(Some(release)) || event.Refused? || event.Outside?
      ensures event.Prepare? <==> ready && PrepareAllowed(old(State()), release) && stopAfter > 7
      ensures event.ManifestTorn? <==> ready && PrepareAllowed(old(State()), release) && stopAfter == 7
      ensures event.Refused? <==> !ready || !PrepareStarts(old(State()), release) || stopAfter == 0
      ensures flash == old(flash) && forall file :: file in old(files) ==> file in files && files[file] == old(files)[file]
    {
      if !ready || !PrepareStarts(World(flash, files, manifest, torn), release) || stopAfter == 0 {
        return Refused;
      }
      var table, state := Region(flash, TABLE, |release.table|), Region(flash, STATE, STATE_SIZE);
      files := files[TABLE_BACKUP := table];
      if table != release.table || stopAfter == 1 {
        return Outside;
      }
      files := files[STATE_BACKUP := state];
      if stopAfter == 2 {
        return Outside;
      }
      files := files[FROZEN_BOOTLOADER := release.bootloader];
      if stopAfter == 3 {
        return Outside;
      }
      files := files[FROZEN_TABLE := release.table];
      if stopAfter == 4 {
        return Outside;
      }
      files := files[FROZEN_APPLICATION := release.application];
      if stopAfter == 5 {
        return Outside;
      }
      files := files[FROZEN_REPORT := release.report];
      if stopAfter == 6 {
        return Outside;
      }
      if stopAfter == 7 {
        torn := true;
        return ManifestTorn(Some(release));
      }
      manifest := Some(FreshManifest(flash, release));
      return Prepare(release);
    }

    method RunPhysicalCampaign(allowed: bool, passed: bool, host: Host, left: Flash) returns (event: Event)
      modifies this
      ensures Step(old(State()), event, State())
      ensures event == (if !allowed || !Loaded(old(State())) then Refused
                        else match host
                          case Survives => Campaign(passed)
                          case DiesBefore => CampaignKilled
                          case DiesWriting => ManifestTorn(None))
      ensures flash == if event.Refused? then old(flash) else left
    {
      if !allowed || manifest.None? || !LoadAccepts(files, manifest.value) {
        return Refused;
      }
      flash := left;
      if host.DiesBefore? {
        return CampaignKilled;
      }
      if host.DiesWriting? {
        manifest, torn := None, true;
        return ManifestTorn(None);
      }
      manifest := Some(manifest.value.(
        campaign := if passed then Pass else FailOrInterrupted,
        restoreRequired := true, restore := PendingBootloader));
      return Campaign(passed);
    }

    method VerifyRestoredBoot(observed: Option<string>, diesWriting: bool) returns (event: Event)
      modifies this
      ensures Step(old(State()), event, State()) && (event.VerifyBoot? || event == ManifestTorn(None) || event.Refused?)
      ensures event.ManifestTorn? <==> diesWriting && !event.Refused?
      ensures !event.Refused? <==>
                && Loaded(old(State())) && old(manifest).value.restore.PendingNormalBoot?
                && observed == Some(old(manifest).value.sourceSha)
    {
      if manifest.None? || !LoadAccepts(files, manifest.value) || !manifest.value.restore.PendingNormalBoot?
         || observed != Some(manifest.value.sourceSha) {
        return Refused;
      }
      if diesWriting {
        manifest, torn := None, true;
        return ManifestTorn(None);
      }
      manifest := Some(manifest.value.(restoreRequired := false, restore := Complete, observedSha := observed));
      return VerifyBoot(observed.value);
    }
  }
}
