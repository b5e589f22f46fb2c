# A verified model of the fermentation chamber firmware's protocols and tools

This Dafny project models the concurrent, stateful and algorithmic parts of the
fermentation chamber repository and proves what they keep over whole runs.
`dafny verify dfyconfig.toml` checks everything. Each file is one module:

- `ProbeHandoff` is the handshake of the bring-up probe. A caller lends its
  stack-allocated context to a worker task; both communicate through
  notification bits that each wait clears wholesale. It is a step relation, since
  the interleavings are the point: one access, one send or one wait is one step,
  and the scheduler also chooses which bounded wait expires.
- `TouchInput`, `ResetGates`, `ResetPipeline` and `TouchHistory` are the way from
  a raw touch sample to the factory reset: sampler, poll, calibration change,
  memory gate, contact gate, hold timer, and the UI loop step that composes them.
  The objects of the source are classes here; each method is tied to a function
  on the state, and the theorems are about runs of those functions.
- `RenderGate` is the redraw cache with its key, the presentation copy and the
  revision tracker; `HitTest` relates touch targets, drawn rows and press feedback.
- `FlashRestore` and `RestoreRunner` are the backup, campaign, restore and
  rebaseline phases on a 4 MB flash image, host files and a manifest. Phases may
  fail between any two writes, and anything may write the flash in between. A
  SHA-256 value is a digest that determines its data.
- `Graphs` and `StackPaths` are the worklists and the two memoised depth-first
  searches of the stack analysis.
- `SourceMasker` and `BraceBlocks` are the comment and literal masker and the
  brace-block finder of the architecture checks.
- `WebSocket` is the browser driver's framing (sections 5.2, 5.3 and 5.4 of
  RFC 6455), with `Bytes` for exclusive-or on bytes.
- `CaptureSession` is the pair of touch-session loops of the calibration harness.
- `LineAssembler` is the UART line buffer of two serial harnesses.
- `NvsChunks` is the NVS capacity arithmetic and the partition table reader.

## What the proofs found

Some expected properties do not hold of the code as written. Each has a concrete
witness and an exact condition.

- The probe's endless join can wait forever: if the worker's last wait expires
  while the caller still waits for Completed, both events arrive merged and the
  wait for Completed consumes the cleanup event (`HangIsReachable`). A run hangs
  exactly if the event was swallowed (`HangsExactlyWhenSwallowed`).
- A finger lifted and put back between two polls does not restart the five-second
  hold (`ResetAfterLift`). The hold behind a reset was one unbroken contact exactly
  if none of its UI steps after the first reported a fresh edge
  (`HoldUnbrokenExactly`).
- The program list is drawn with an unguarded unsigned subtraction. If the list
  shrinks so that the pager lies behind it, rows are drawn from entries that
  do not exist (`ShrunkenListDrawsStrayRows`); in every other view drawn and
  hittable rows agree (`RowsAgreeExactly`).
- The render key lacks the zone id that the clock page draws (`ZoneGapIsReal`), the
  catalog of a copy taken while the revisions were unknown (`CatalogGapIsReal`), and
  a catalog committed between the snapshot and the read behind it
  (`StaleCopyIsReal`). Without the last two only the zone id is left
  (`NoRedrawIsExact`, `MatchingReadsAreCurrent`). Times between -59 and -1 seconds
  share a key with the first minute but show no clock (`NegativeMinuteShares`,
  `MinuteKeyExact`).
- The memory gate's hysteresis needs a resume mark that does not wrap below the
  minimum (`HysteresisNeedsMargin`).
- A restore whose bootloader or application ends beyond 0x300000 reports success
  although it overwrote the state store (`LosesState`); it is safe exactly if both
  end at or below that address, or the release can never be read back
  (`StateStoreSafeExactly`). The rebaseline reads every region back after its last
  write and needs no bound.
- A campaign or restore that is killed before it can note its end leaves no trace,
  so COMPLETE can be reached over a torn state store (`KilledRestoreCompletes`).
  Nothing began since the restore exactly if nothing was killed since
  (`CompleteComesFromVerifiedRestore`). A host that dies inside a manifest write
  ends the cycle for good (`TornManifestIsFinal`).
- The capacity bound counts entries, but a chunk may not cross a page. For this
  firmware's records a placement exists (`FirmwareSlotsFit`); in general the bound
  may be too small (`BoundMayNotSuffice`).
- `longest_path` marks a dead end with -1 instead of dropping it, so on a cyclic
  graph a dead end can win (`DeadEndWins`). It is exact when no walk from the
  start that can still reach the target repeats a node. If every repetition costs
  stack, that is a fact about the graph too: with such a cycle the walks have no
  largest sum for any search to find (`LongestExactlyIfAcyclic`).
- The masker's doc comment promises to preserve line breaks. It drops those
  inside literals, and preserves all exactly if no literal holds one
  (`BreaksSurviveExactly`).

## Model

| member | source | states |
|---|---|---|
| `ProbeHandoff.StepKeepsInv` | main/issue_29_bringup_probe.cpp:396-588 | one access, send or wait of either task keeps the handshake invariant and uses up some of the steps that are left |
| `ProbeHandoff.ReachableInv` | main/issue_29_bringup_probe.cpp:396-588 | the invariant holds after every interleaving, with every bounded wait free to time out |
| `ProbeHandoff.NoAccessAfterReturn` | main/issue_29_bringup_probe.cpp:420-428 | once `run()` has returned, the worker neither touches the caller's stack context now nor after its current wait, in any run |
| `ProbeHandoff.ReturnedIsFinal` | main/issue_29_bringup_probe.cpp:542-643 | after the return nothing the worker still does changes the result or the context |
| `ProbeHandoff.EveryRunIsBounded` | main/issue_29_bringup_probe.cpp:396-588 | every schedule has at most a fixed number of steps |
| `ProbeHandoff.HangsExactlyWhenSwallowed` | main/issue_29_bringup_probe.cpp:525-535 | a run that cannot go on has finished, is parked after a refused cleanup request, or hangs in the endless join; and it hangs exactly if an earlier wait consumed the cleanup event |
| `ProbeHandoff.JoinCannotHang` | main/issue_29_bringup_probe.cpp:513-538 | if no worker control wait expires before the caller asks for cleanup, only the join consumes the cleanup event and the join ends |
| `ProbeHandoff.HangIsReachable` | main/issue_29_bringup_probe.cpp:575-588 | without that hypothesis there is a schedule in which Completed and Cleanup arrive merged and the endless join never returns |
| `ProbeHandoff.PassMeansCleanHandshake` | main/issue_29_bringup_probe.cpp:636-642 | a reported pass means that the workload ran and every wait of both tasks got the bit it waited for |
| `TouchInput.ClampToDisplay` | main/fermentation_ui_lvgl_renderer.cpp:52-57 | a value left of or above the display gives 0, one beyond it the last pixel, any other is truncated to its pixel |
| `TouchInput.LvglTouch.ReadTouchFailClosed` | main/fermentation_ui_lvgl_renderer.cpp:136-186 | one sample publishes contact, release stamp, point and edge, or clears the contact |
| `TouchInput.LvglTouch.SetTouchCalibration` | main/fermentation_ui_lvgl_renderer.cpp:203-232 | a new model discards everything published under the old one; a lock timeout changes nothing |
| `TouchInput.LvglTouch.PollTouch` | main/fermentation_ui_lvgl_renderer.cpp:234-256 | a poll returns the published state and consumes the edge; without the lock it is silent and changes nothing |
| `TouchHistory.PollIsCurrent` | main/fermentation_ui_lvgl_renderer.cpp:136-256 | every polled point lies inside 320x240, and every point and edge was sampled under the model still installed |
| `TouchHistory.EdgesAreSeparated` | main/fermentation_ui_lvgl_renderer.cpp:136-256 | between two delivered edges the contact was inactive at least once |
| `TouchHistory.ActiveComesFromSample` | main/fermentation_ui_lvgl_renderer.cpp:153-186 | a published contact belongs to the latest sample event and its model |
| `TouchHistory.EdgeComesFromSample` | main/fermentation_ui_lvgl_renderer.cpp:153-186 | a pending edge was raised by a contact sample in an inactive state |
| `TouchHistory.UnbrokenExactlyWithoutEdge` | main/fermentation_ui_lvgl_renderer.cpp:234-256 | two polls with contact saw one unbroken contact exactly if no poll behind the first reported a fresh edge |
| `TouchHistory.LiftBetweenPollsIsUnseen` | main/fermentation_ui_press_dispatcher.cpp:200-241 | in every running hold of either kind, lifting and touching again between two polls goes unseen: before the hold time the next step leaves the hold as it was, from then on it runs the reset exactly if that is available |
| `TouchHistory.HoldUnbrokenExactly` | main/fermentation_ui_press_dispatcher.cpp:200-241 | the hold behind a reset was one unbroken contact exactly if none of its UI steps after the first reported a fresh edge |
| `TouchHistory.ResetAfterLift` | main/fermentation_ui_press_dispatcher.cpp:200-241 | a run from an initial state in which the finger leaves the slot during the hold and the reset fires all the same |
| `ResetGates.UiMemoryGate.AllowStep` | main/fermentation_ui_memory_gate.hpp:16-30 | the gate's decision and its whole next state, with size and counter wrap-around |
| `ResetGates.PausedExactlyWhileLow` | main/fermentation_ui_memory_gate.hpp:16-30 | over every history of measurements the gate is paused exactly if one fell below the minimum and none since reached the resume mark |
| `ResetGates.HysteresisNeedsMargin` | main/fermentation_ui_memory_gate.hpp:13-14 | that law holds exactly if the resume mark does not wrap below the minimum |
| `ResetGates.UiResetHoldContactGate.Skip` | main/fermentation_ui_memory_gate.hpp:51-54 | a skipped step demands a release after its time |
| `ResetGates.UiResetHoldContactGate.Observe` | main/fermentation_ui_memory_gate.hpp:56-70 | only a release and later a contact with strictly newer stamps open the gate again |
| `ResetGates.FactoryResetFlow.UpdateHold` | lib/fermentation_app/src/factory_reset_flow.cpp:55-73 | a tick starts, keeps, resets or completes the hold |
| `ResetGates.FactoryResetFlow.Begin` | lib/fermentation_app/src/factory_reset_flow.cpp:5-15 | a reset begins only when configured and idle |
| `ResetGates.FactoryResetFlow.Acknowledge` | lib/fermentation_app/src/factory_reset_flow.cpp:26-43 | warning, confirmation and hold follow each other in this order |
| `ResetPipeline.UpdateProductUi` | main/app_main.cpp:444-574 | one loop step on the four owners, with the commands of other tasks taking effect before and behind its tick, is the specified step: same ticks, same reset decision, same new state |
| `ResetPipeline.ProcessTouch` | main/fermentation_ui_press_dispatcher.cpp:173-245 | release tick, or hold tick and then dispatch, in this order, with the hold tick true only on the hold slot behind an open gate |
| `ResetPipeline.Perform` | lib/fermentation_app/src/fermentation_application.cpp:2948-2980 | the commands that reach the flow, with the lost lease of a PIN-protected reset |
| `ResetPipeline.DeliverTick` | lib/fermentation_app/src/fermentation_application.cpp:3006-3062 | a tick cancels a reset without lease or updates the hold; a completed hold runs the reset exactly if it is still available |
| `ResetPipeline.TicksOfAStep` | main/app_main.cpp:466-535 | a step delivers exactly one tick if it is skipped or sees the hold stage, else none; a true tick needs an unskipped step, an answered poll, an open contact gate and a contact on the hold slot |
| `ResetPipeline.StepKeepsTimer` | main/fermentation_ui_press_dispatcher.cpp:200-241 | a step that leaves the hold timer running delivered a true tick, and a timer starts only with one |
| `ResetPipeline.TimerMeansTrueTicks` | main/fermentation_ui_press_dispatcher.cpp:168-241 | in every run a running timer was started by a true tick, and every UI step since then delivered a true tick |
| `ResetPipeline.ResetNeedsUninterruptedHold` | main/app_main.cpp:466-535 | the reset fires only after true ticks in every UI step over at least the configured hold time, with contact on the hold slot and no skip in each |
| `ResetPipeline.HoldTimeIsPositive` | lib/fermentation_app/src/factory_reset_flow.cpp:55-73 | no run reaches the hold stage with a hold time of zero |
| `TouchHistory.GateMoves` | main/fermentation_ui_memory_gate.hpp:49-76 | every event leaves the contact gate alone, closes it in a skipped step, or moves it one phase on a newer stamp |
| `TouchHistory.NoTrueTickBeforeFreshContact` | main/fermentation_ui_press_dispatcher.hpp:194-211 | in every run whose samples and skipped steps are stamped by one clock that never runs back: after a step skipped at time t no true tick is delivered until a calibrated no-contact sample stamped s1 > t and a calibrated contact sample stamped s2 > s1 |
| `HitTest.DrawRows` | main/fermentation_ui_renderer.cpp:676-779 | the fills appended are those of the visible rows, one each and no others, all on the screen |
| `HitTest.RowHittableExactlyWhenDrawn` | main/fermentation_ui_renderer.cpp:1813-1965 | unless the pager lies behind the program list, a point hits row r exactly if it lies in the touch zone of row r and row r is drawn |
| `HitTest.RowsAgreeExactly` | main/fermentation_ui_renderer.cpp:906-934 | touch and drawing agree, and every drawn row shows an entry that exists, exactly if the pager does not lie behind a program list with entries |
| `HitTest.ShrunkenListDrawsStrayRows` | main/fermentation_ui_renderer.cpp:908-911 | a list that shrank from five to three entries under a pager at the fifth draws three rows that no touch hits |
| `HitTest.FeedbackCoversTarget` | main/fermentation_ui_renderer.cpp:1672-1761 | every content-cell or bottom-slot target found at a point has a feedback rectangle that contains the point and stays on the screen |
| `HitTest.BottomSlotIsItsColumn` | main/fermentation_ui_renderer.cpp:1813-1965 | a bottom slot is hit only inside its own visible 80 px column |
| `RenderGate.MinuteKeyExact` | main/fermentation_ui_renderer.cpp:1800-1802 | two times with the same truncated minute give the same clock text exactly if they are on the same side of zero (or no text is shown) |
| `RenderGate.NegativeMinuteShares` | main/fermentation_ui_renderer.cpp:1800-1802 | the seconds -1 and 0 share a minute in the key, but only the second has a clock text |
| `RenderGate.SameMinuteSameText` | lib/device_platform/src/local_time.cpp:34-67 | for times from 0 on, the local clock text depends on the UTC minute and the zone rule only |
| `RenderGate.RefreshTracker.Publish` | lib/fermentation_app/src/fermentation_ui_models.cpp:154-166 | the revision moves exactly when the snapshot differs from the last published one |
| `RenderGate.RevisionIdentifiesSnapshot` | lib/fermentation_app/src/fermentation_ui_models.cpp:154-166 | below the counter limit two publications carry the same revision exactly if the snapshot did not change between them |
| `RenderGate.UiRenderGate.RenderRequired` | main/fermentation_ui_press_dispatcher.hpp:150-170 | the copy is refreshed, the key rebuilt, and a redraw asked for exactly if it differs from the rendered key |
| `RenderGate.UiRenderGate.BeginStep` | main/fermentation_ui_press_dispatcher.hpp:126-131 | new revisions are adopted in the first step in which the source answers; on the network page no copy is held but locale and zone stay; the keys are untouched |
| `RenderGate.PresentationCache.Update` | lib/fermentation_app/src/fermentation_ui_presentation_cache.hpp:27-53 | eviction, fill decision and adoption of the cache object compute the specified refresh |
| `RenderGate.RefreshIsCurrent` | lib/fermentation_app/src/fermentation_ui_presentation_cache.hpp:27-60 | after a refresh there is no copy on the network page, else the requested revisions if the source answered, else the old copy |
| `RenderGate.RefreshOnce` | lib/fermentation_app/src/fermentation_ui_presentation_cache.hpp:120-132 | once the requested revisions are adopted, further refreshes for them ignore the source |
| `RenderGate.UiRenderGate.MarkRendered` | main/fermentation_ui_press_dispatcher.hpp:172-175 | the pending key becomes the rendered one |
| `RenderGate.RenderStep` | main/app_main.cpp:546-572 | the render part of a loop step on the gate object and the display |
| `RenderGate.CacheStaysOk` | lib/fermentation_app/src/fermentation_ui_presentation_cache.hpp:27-60 | over every run a copy with adopted revisions is the catalog of its own revision, and the kept locale is one of those in use |
| `RenderGate.ShownIsRendered` | main/fermentation_ui_press_dispatcher.hpp:172-175 | the display shows the screen of the step whose key is remembered |
| `RenderGate.SameKeySameScreen` | main/fermentation_ui_renderer.cpp:1777-1811 | under the revision contract two equal keys mean equal screens exactly if the drawn zone id and the drawn part of the catalog agree; the latter agrees if both copies belong to the adopted revision |
| `RenderGate.NoRedrawIsExact` | main/fermentation_ui_press_dispatcher.hpp:150-170 | whenever no redraw is asked for, the shown screen equals the screen of the current inputs exactly if zone id and program part are drawn the same; with current copies that leaves the zone id |
| `RenderGate.MatchingReadsAreCurrent` | lib/fermentation_app/src/fermentation_ui_presentation_cache.hpp:27-53 | if no catalog is committed between a snapshot and the read behind it, every copy with adopted revisions belongs to them |
| `RenderGate.NewRevisionIsDrawn` | main/fermentation_ui_press_dispatcher.hpp:150-170 | a step that sees a catalog revision other than the drawn one and gets an answer is redrawn, so a stale copy lasts until the commit reaches the snapshot |
| `RenderGate.FailedDrawStaysPending` | main/fermentation_ui_press_dispatcher.hpp:172-175 | failed draws change neither display nor remembered key, and the redraw stays required while the inputs stay |
| `RenderGate.LateZoneIsNotDrawn` | main/fermentation_ui_renderer.cpp:837 | in every state of the gate, a zone id that arrives one step after its revision was drawn stays undrawn on the clock page |
| `RenderGate.ZoneGapIsReal` | main/fermentation_ui_renderer.cpp:837 | a run from the empty gate, under the revision contract, that ends with the old zone id on the display and no redraw |
| `RenderGate.CatalogGapIsReal` | main/fermentation_ui_renderer.cpp:1790 | a run from the empty gate, under the contract, in which a second catalog copied under unknown revisions is not drawn |
| `RenderGate.StaleCopyIsReal` | lib/fermentation_app/src/fermentation_ui_presentation_cache.hpp:41-52 | a run from the empty gate, under the contract, in which a catalog committed between snapshot and read is not drawn |
| `RenderGate.LateAnswerIsNotDrawn` | main/fermentation_ui_renderer.cpp:1777-1811 | whatever a late answer brings under unchanged locale, zone rule and catalog revision is not drawn |
| `FlashRestore.RestoreBringsBack` | scripts/issue_90_slice7_product_runner.py:705-770 | a successful restore leaves the captured table, and the captured state store if bootloader and application end at or below it |
| `FlashRestore.AfterFiveWrites` | scripts/issue_90_slice7_product_runner.py:705-770 | after the five writes the release reads back if the bootloader ends below the table, and the state store if nothing reaches into it |
| `FlashRestore.StateStoreSafeExactly` | scripts/issue_90_slice7_product_runner.py:705-770 | every successful restore of a release keeps every state store exactly if bootloader and application end at or below 0x300000, or the release can never be read back |
| `FlashRestore.RestoredCanReadBack` | scripts/issue_90_slice7_product_runner.py:705-770 | a restore succeeds only if the artifacts fit and agree where the bootloader overlaps the others |
| `FlashRestore.LosesState` | scripts/issue_90_slice7_product_runner.py:319-343 | for every other release there are a captured state store and a restore that reports success and loses it |
| `RestoreRunner.ManifestIsConsistent` | scripts/issue_90_slice7_product_runner.py:552-696 | every manifest left by any sequence of phases passes the loader's cross-field checks and still holds what prepare captured |
| `RestoreRunner.LoaderAcceptsOwnManifest` | scripts/issue_90_slice7_product_runner.py:552-696 | so the loader rejects such a manifest exactly if a captured or frozen file, or the frozen build report, changed |
| `RestoreRunner.RequiredExactlyUntilComplete` | scripts/issue_90_slice7_product_runner.py:577-645 | restore-required is false exactly when the restore state is COMPLETE |
| `RestoreRunner.PendingBootComesFromRestore` | scripts/issue_90_slice7_product_runner.py:1601-1631 | a pending normal boot follows a successful restore; any campaign or restore begun since was killed before it could note its end |
| `RestoreRunner.CompleteComesFromVerifiedRestore` | scripts/issue_90_slice7_product_runner.py:1574-1598 | COMPLETE is reached only by a boot with the frozen identity after a successful restore, and no campaign or restore began since that restore exactly if none was killed since |
| `RestoreRunner.KilledRestoreCompletes` | scripts/issue_90_slice7_product_runner.py:1608-1622 | from every board that can be prepared with a release that can be restored: a second restore that dies in its first write leaves a torn state store, and the boot check after it still reaches COMPLETE |
| `RestoreRunner.TornManifestIsFinal` | scripts/issue_90_slice7_product_runner.py:773-782 | a manifest torn by a host that dies inside its write ends the cycle: every later phase is refused |
| `RestoreRunner.QuietRunKeepsRestoredFlash` | scripts/issue_90_slice7_product_runner.py:1574-1598 | with only refused phases and boot checks since the restore, the flash is still what the restore left |
| `RestoreRunner.RestoreBringsBackCapture` | scripts/issue_90_slice7_product_runner.py:705-770 | after prepare and any phases, foreign writes and failed restores, a successful restore brings back the captured regions under the stated bound |
| `RestoreRunner.RebaselineBringsBackCapture` | scripts/issue_90_slice7_product_runner.py:1437-1487 | a successful rebaseline brings both regions back without any bound |
| `RestoreRunner.ProductRunner.WriteFlash` | scripts/issue_90_slice7_product_runner.py:284-297 | a write touches only its own sectors, and holds the data if it completes |
| `RestoreRunner.ProductRunner.ReadbackMatches` | scripts/issue_90_slice7_product_runner.py:268-281 | the hash matches exactly if the read succeeds and the region holds the expected bytes |
| `RestoreRunner.ProductRunner.WriteAndVerify` | scripts/issue_90_slice7_product_runner.py:284-297 | success exactly if the file is intact and fits, the write completes and the read succeeds; then its bytes are in place |
| `RestoreRunner.ProductRunner.WriteLayout` | scripts/issue_90_slice7_product_runner.py:1437-1460 | the writes that restore and rebaseline share, in order; with fitting artifacts they fail only if a write or read does |
| `RestoreRunner.ProductRunner.RestoreProductionLayout` | scripts/issue_90_slice7_product_runner.py:705-770 | success means the five writes in order and three matching reads; with fitting artifacts it fails only if some write or read does |
| `RestoreRunner.ProductRunner.WriteRebaseline` | scripts/issue_90_slice7_product_runner.py:1437-1487 | success means the five writes and four matching readbacks; with artifacts that end below the state store it fails only if some write or read does |
| `RestoreRunner.ProductRunner.RunRestore` | scripts/issue_90_slice7_product_runner.py:1601-1631 | a restore is refused exactly if unconfirmed, not loadable or not required; otherwise it succeeds with a pending boot, fails with a retry required, dies and leaves the manifest as it was, or dies writing it and leaves it torn |
| `RestoreRunner.ProductRunner.RebaselineProductionWrite` | scripts/issue_90_slice7_product_runner.py:1381-1524 | a rebaseline succeeds only with all four regions read back, writes nothing unless admitted, and never changes the manifest |
| `RestoreRunner.ProductRunner.PreparePreHarnessBackup` | scripts/issue_90_slice7_product_runner.py:414-531 | prepare writes capture, frozen release, report and manifest exactly when all its conditions hold; stopped part-way it leaves only files, or a torn manifest, and never touches existing files |
| `RestoreRunner.ProductRunner.RunPhysicalCampaign` | scripts/issue_90_slice7_product_runner.py:1252-1329 | a campaign is refused exactly if not allowed or not loadable; otherwise it leaves a required restore, or dies and leaves the manifest as it was or torn, whatever it did to the flash |
| `RestoreRunner.ProductRunner.VerifyRestoredBoot` | scripts/issue_90_slice7_product_runner.py:1574-1598 | a restore is completed exactly by a matching identity in the pending state, unless the host dies in the manifest write |
| `Graphs.Ancestors` | scripts/analyze_issue_192_handoff_stack.py:136-147 | the worklist computes exactly the functions from which the target can be reached |
| `Graphs.TransitiveIncludes` | scripts/check_architecture_boundaries.py:744-753 | the worklist computes exactly the files reached by at least one include |
| `StackPaths.Deepest` | scripts/analyze_issue_192_handoff_stack.py:178-199 | on any graph the sum of a genuine simple call path; without reachable cycles the maximum over all call paths, attained by the returned path; if repetitions cost stack, cycles leave no maximum to find |
| `StackPaths.LongestPath` | scripts/analyze_issue_192_handoff_stack.py:134-175 | none exactly if the target is unreachable; without cycles on the way the maximum over all walks to the target, attained by the returned path; otherwise still a simple path whose sum is the depth or one more, and, if repetitions cost stack, no maximum exists |
| `StackPaths.DeadEndWins` | scripts/analyze_issue_192_handoff_stack.py:160-170 | on a cyclic graph the -1 sentinel can win: the reported path does not reach the target |
| `StackPaths.NoMaximumOnCycle` | scripts/analyze_issue_192_handoff_stack.py:134-135 | if a walk to the target repeats a node at a cost, the walks to the target have no largest sum at all |
| `StackPaths.LongestExactlyIfAcyclic` | scripts/analyze_issue_192_handoff_stack.py:134-175 | if every repetition on a walk costs stack, a search that is exact without cycles is exact only then: with a cycle on the way no depth at all is a maximum |
| `StackPaths.DeepestExactlyIfAcyclic` | scripts/analyze_issue_192_handoff_stack.py:178-199 | the same fact about the graph for the deepest callee path |
| `StackPaths.AnalyseChain` | scripts/analyze_issue_192_handoff_stack.py:240-252 | without reachable cycles the chain depth belongs to one simple walk through both functions and bounds every such walk |
| `StackPaths.ChainIsGenuine` | scripts/analyze_issue_192_handoff_stack.py:244-252 | the joined path is a simple walk and each shared frame counts once |
| `StackPaths.ChainIsMaximal` | scripts/analyze_issue_192_handoff_stack.py:244-252 | no walk through both functions is deeper than the sum of the three maxima |
| `SourceMasker.MaskSource` | scripts/check_architecture_boundaries.py:260-319 | the loop computes the masked text of the state machine |
| `SourceMasker.ScanCharacter` | scripts/check_architecture_boundaries.py:270-317 | the mode switch of the loop body is one step of that machine |
| `SourceMasker.MaskIsTokenwise` | scripts/check_architecture_boundaries.py:260-319 | for every cut of a text into code, comment and literal tokens, code stays, comments keep only their line breaks, literals become spaces |
| `SourceMasker.EveryTextTokenizes` | scripts/check_architecture_boundaries.py:260-319 | every text has such a cut, with open comments and literals at the end only |
| `SourceMasker.OnlyBlanks` | scripts/check_architecture_boundaries.py:260-319 | a character is kept or becomes a space |
| `SourceMasker.NoMarksRemain` | scripts/check_architecture_boundaries.py:260-319 | the masked text holds no quote and no comment opener |
| `SourceMasker.MaskIsIdempotent` | scripts/check_architecture_boundaries.py:260-319 | masking twice is masking once, on every input |
| `SourceMasker.BreaksSurviveExactly` | scripts/check_architecture_boundaries.py:260-261 | line breaks are preserved exactly if no literal token holds one |
| `SourceMasker.OpenLiteralLosesBreak` | scripts/check_architecture_boundaries.py:304-306 | a quote left open at a line end loses the line break, against the doc comment |
| `BraceBlocks.FindBlocks` | scripts/check_architecture_boundaries.py:547-553 | the blocks are exactly the brace pairs with balanced text between, each once, in closing order, on every text |
| `BraceBlocks.BlocksNest` | scripts/check_architecture_boundaries.py:547-553 | any two such pairs are equal, disjoint or strictly nested, also in unbalanced text |
| `BraceBlocks.ContainingBlocks` | scripts/check_architecture_boundaries.py:556-563 | exactly the enclosing blocks, each strictly inside the next, innermost first |
| `WebSocket.Connection.Read` | docs/audits/PR206_H_RAM_1/cdp.py:27-33 | exactly the next n bytes of the stream for every division into socket reads, or end of file with nothing left |
| `WebSocket.Connection.Recv` | docs/audits/PR206_H_RAM_1/cdp.py:34-45 | one call does to the stream what the frame grammar says, for every division into socket reads |
| `WebSocket.Connection.ReadAll` | docs/audits/PR206_H_RAM_1/cdp.py:61-71 | the reader thread gets exactly the messages of the stream |
| `WebSocket.Connection.Send` | docs/audits/PR206_H_RAM_1/cdp.py:20-26 | one masked final text frame in the shortest form, or nothing if no length form holds it |
| `WebSocket.FrameRoundTrip` | docs/audits/PR206_H_RAM_1/cdp.py:36-42 | every frame in every length form that fits is read back exactly |
| `WebSocket.FrameWasSent` | docs/audits/PR206_H_RAM_1/cdp.py:36-42 | whatever frame is read, the stream began with its encoding |
| `WebSocket.CarriedIsReceived` | docs/audits/PR206_H_RAM_1/cdp.py:34-45 | frames that carry a message, with control frames between, are received as that message |
| `WebSocket.ReceivedWasCarried` | docs/audits/PR206_H_RAM_1/cdp.py:34-45 | a received message was carried by the frames the stream starts with |
| `WebSocket.EveryMessageArrives` | docs/audits/PR206_H_RAM_1/cdp.py:34-45 | every list of messages under every fragmentation with interleaved control frames comes back exactly |
| `WebSocket.OnlySentMessagesArrive` | docs/audits/PR206_H_RAM_1/cdp.py:34-45 | nothing else comes back: the stream is the frames of the returned messages and a rest that carries none |
| `WebSocket.BrokenStreamYieldsPrefix` | docs/audits/PR206_H_RAM_1/cdp.py:27-33 | a stream that breaks off anywhere yields a prefix of the messages, none cut short |
| `WebSocket.CloseEnds` | docs/audits/PR206_H_RAM_1/cdp.py:43 | a close frame ends the session |
| `WebSocket.SentIsRead` | docs/audits/PR206_H_RAM_1/cdp.py:20-26 | a server reads back the sent bytes for every mask, and no length form that fits is shorter |
| `CaptureSession.WaitForOwnerGeometryConfirmation` | main/issue_31_touch_calibration_harness.cpp:254-319 | the loop stops at the first completed session: five no-contact samples end an error-free session with at least 15 contacts and no earlier gap |
| `CaptureSession.CaptureContact` | main/issue_31_touch_calibration_harness.cpp:425-486 | the capture loop stops at the same sample, with the statistics of exactly that session |
| `CaptureSession.OneCompletion` | main/issue_31_touch_calibration_harness.cpp:254-486 | the stopping sample is determined by the trace alone, so the loops cannot disagree |
| `CaptureSession.SessionStart` | main/issue_31_touch_calibration_harness.cpp:254-319 | the session begins behind the last error or five-sample gap |
| `CaptureSession.ContactStats.Observe` | main/issue_31_touch_calibration_harness.cpp:105-116 | a contact extends minimum, maximum, first and last exactly, with the 32-bit counter's wrap |
| `CaptureSession.ReleaseStep` | main/issue_31_touch_calibration_harness.cpp:283-308 | a no-contact sample completes, ends or continues the session |
| `LineAssembler.Harness.Take` | main/issue_90_slice7_harness.cpp:334-345 | one byte keeps the buffer the start of the current line and the events those of the bytes so far |
| `LineAssembler.Harness.Poll` | main/issue_90_slice7_harness.cpp:325-347 | a poll takes at most 64 bytes and keeps that |
| `LineAssembler.Harness.ProcessLine` | main/issue_90_slice7_harness.cpp:349-356 | the current line is processed, or refused as too long |
| `LineAssembler.Harness.Serve` | main/issue_30_sensor_commissioning_harness.cpp:59-81 | for every split into polls the events are those of the whole stream cut into lines |
| `LineAssembler.LinesRebuildStream` | main/issue_90_slice7_harness.cpp:325-347 | lines and tail, joined by line feeds, are the stream without its carriage returns |
| `LineAssembler.CutIsUnique` | main/issue_90_slice7_harness.cpp:325-347 | and there is no other way to cut it |
| `LineAssembler.LengthLimit` | main/issue_90_slice7_harness.cpp:341-343 | 159 characters are processed, longer lines are refused |
| `NvsChunks.BlobDataChunks` | scripts/check_issue90_partitions.py:66-75 | the chunks conserve the bytes, only the last may be smaller than 4000, and each fits a page of 126 entries |
| `NvsChunks.NvsBlobEntries` | scripts/check_issue90_partitions.py:83-86 | the count is 1 + ceil(n/4000) + ceil(n/32), or 2 for the empty blob, and minimal over all cuts into chunks of at most 4000 bytes |
| `NvsChunks.NoCutIsCheaper` | scripts/check_issue90_partitions.py:66-86 | no cut that fits the pages needs fewer entries |
| `NvsChunks.EntriesAreMonotone` | scripts/check_issue90_partitions.py:83-86 | a larger blob never needs fewer entries |
| `NvsChunks.CapacityModel` | scripts/check_issue90_partitions.py:95-150 | the bound is the least number of pages with enough entries for two full copies of all slots |
| `NvsChunks.FirmwareSlotsFit` | scripts/check_issue90_partitions.py:45-53 | for the records of this firmware two full copies can be placed on the 76 pages of the bound, every chunk within one page |
| `NvsChunks.BoundMayNotSuffice` | scripts/check_issue90_partitions.py:119-121 | in general entries do not decide: two blobs of 2016 bytes have a bound of three pages, but two copies need four |
| `NvsChunks.ItemsOfChunks` | scripts/check_issue90_partitions.py:66-86 | the items to be placed are those of the chunk loop, plus the index entry |
| `NvsChunks.LargerSlotsNeedMore` | scripts/check_issue90_partitions.py:95-150 | larger blobs or more slots never lower the bound |
| `NvsChunks.PlannedStateStore` | scripts/check_issue90_partitions.py:45-63 | with the records of this firmware the plan needs 144 pages and fits the partition |
| `NvsChunks.ReadPartitions` | scripts/check_issue90_partitions.py:151-174 | the reader accepts a table exactly if all rows are uniquely named, fit and do not overlap; otherwise it names the first bad row, or the overlap |
| `NvsChunks.CheckOverlap` | scripts/check_issue90_partitions.py:170-173 | comparing neighbours in address order finds every overlap |
| `NvsChunks.NeighboursDecide` | scripts/check_issue90_partitions.py:170-173 | in address order neighbours apart means all pairs apart, and conversely |

## Left out

- ResetPipeline.UpdateProductUi: drawing is in `RenderGate.RenderStep`; the lease extension for activity in the service area is not modelled, a lease reading is an input.
- ResetPipeline.DeliverTick: says whether the reset is run, not its result; the outcomes shown afterwards and the ending of network and HTTP are not modelled.
- ProbeHandoff.PassMeansCleanHandshake: the resource measurements, the fault probe and the stack figures enter as one free outcome.
- ProbeHandoff.EveryRunIsBounded: a task blocked in an endless wait takes no steps; real durations are not modelled, a bounded wait may expire at any moment while no bit is pending.
- TouchInput.ClampToDisplay: works on real numbers; NaN, infinities and floating-point rounding of the calibration are not modelled.
- TouchHistory.NoTrueTickBeforeFreshContact: the one assumption on time is that the monotonic clock does not run back; a skipped step counts as happening at its clock reading, which no touch access separates from its effect.
- RenderGate.NoRedrawIsExact: the locale fingerprint is assumed free of collisions among the locales in use, trusted times are assumed not negative, and a catalog's own revision is assumed to name one catalog.
- RenderGate.SameKeySameScreen: what a page draws of the catalog is an arbitrary function of page, snapshot, workspace and catalog; the other parts of a screen are its inputs, not pixels.
- RenderGate.RenderStep: takes a successful draw as showing the complete screen; the drawing commands and LVGL are not modelled.
- RenderGate.SameMinuteSameText: calendar facts (year of a day, last Sunday of a month, representable days) are parameters, so the calendar library may be any.
- HitTest.RowHittableExactlyWhenDrawn: the view's counts are those of its page, and a field list stands on no list page and no edit page, as the workspace builds them; the pager's index is free. The workspace itself is not part of this model.
- RestoreRunner.ProductRunner.ReadbackMatches: a read that succeeds is taken to return the flash contents, and files do not change between the loader's check and their use.
- RestoreRunner.ManifestIsConsistent: fields that prepare writes as constants and no phase changes (protocol version, plan, layout and safety flags) are dropped, and the loader's checks of them with them.
- StackPaths.LongestPath: nothing is stated about how close the result is on cyclic graphs, beyond the simple path it belongs to; on cycles that cost nothing a maximum may exist.
- StackPaths.AnalyseChain: parsing of stack usage files and disassembly, the direct-callee figure and the budget comparison are left out; a function without a frame entry counts zero, where the chain code would fail.
- StackPaths.Deepest: the children of a node are visited in any order, Python's recursion limit is not modelled, and nothing is stated about the recorded set of functions on cycles.
- WebSocket.Connection.Recv: messages are bytes; UTF-8 decoding, the socket's timeout and the HTTP upgrade are left out, and a mask bit set by the server is ignored as in the source.
- WebSocket.Connection.ReadAll: JSON decoding and the dispatch to waiting calls are left out.
- CaptureSession.CaptureContact: logging, the idle baseline and the endless wait behind a finite trace are left out; none means that the loop is still waiting.
- LineAssembler.Harness.ProcessLine: the commands behind a complete line are left out.
- NvsChunks.ReadPartitions: CSV parsing, short rows, number syntax and the comparison with the expected layout are left out.
- Everything else under `lib/` (workspace, persistence, run control, HTTP) and `dispatchWorkspacePress` branch by branch: one abstract command stands for a dispatched press.
- LVGL widgets, SPI, GPIO, UART, NVS and network drivers, `esptool`, git and build subprocesses: foreign calls without visible semantics.
- `classify_product_recovery`, marker parsing, regex-based checks, generators and selftests: mostly text plumbing and tables.
- `main/esp_idf_authentication_kdf.cpp`, enum names, text keys, colours and log formats: only easy members.
