# mkvgo: a verified model of its timing, box surgery and protocols

mkvgo repackages media without decoding it. What can go wrong is arithmetic on time, bytes written where they should not
be, and a few small protocols. This project models those parts in Dafny and proves what the program owes its users. Run
`dafny verify dfyconfig.toml` in this directory to check all of it.

The model follows the source's form. An object whose methods update its fields is a class (`GrowingHlsPlan`, `File`,
`NalReader`, `SubsampleBuilder`, the splitters, `Movie`, `CryptOrder`, `Windows`), a slice changed in place is an array, a
loop is a loop; each such method is proved equal to a specification function, or against the property itself, and the laws
are lemmas about the specification. Errors are `Result` values, so malformed input is part of every claim.

## What is proved, component by component

- **Growing HLS plan** (`GrowingPlan`, `GrowingSafety`, `GrowingStops`, `GrowingLead`, `GrowingHls`). A cursor folds whole
  clusters of a file that is still being written into segments. Any schedule of refreshes ends where one scan at the last
  size does; reading a cluster without the lock and publishing it at once equals folding it in block by block; the listed
  entries only ever gain more at their end, and a window published on its own frames keeps its timing whatever is read
  later. A refresh that fails or is cancelled takes nothing back either; whether it leaves a trace in a half-read cluster
  has an exact condition. The composition shift settled on the opening frames is the one of the full pass.
- **Grid windows** (`GridWindow`, `GridFinality`). Laced audio is numbered on a grid of slots, window by window, and a
  window that runs past the next one's opening gives the excess back by rescaling. Decode times strictly increase and last
  a tick at least always; the durations tile the window exactly if and only if its first frame fits. Among
  settled windows the final ones are known exactly: `FinalIff` says which keep their frames and their end under every
  continuation, `FinalInOrderIff` under every one in order. The two fallbacks, taken when the video has gone a whole window
  past an audio track, settle some that do not, each with an input, and some that do.
- **Moov swap** (`MoovLayout`, `MoovSwap`). The file is what a reader sees, what is durable, and the overwrites not yet
  synced; a crash keeps any subset of these, and anything at all behind the durable bytes while the length is unsynced.
  Every operation may fail. At every crash point of the protocol a forward walk finds the original movie header before the
  last four-byte flip and the original or the new one from then on, never a stray one, and every original byte but the
  types of moovs is where it was.
- **Edit lists** (`EditLists`, `EditShift`). A shift moves a track's delay and its duration by exactly its ticks and can be
  undone, under conditions that are exact.
- **Bounded reduction** (`Rational`). `avReduce` is optimal for every input the program gives it, with no uint64 overflow.
- **Common Encryption** (`CencIv`, `CencCipher`, `Subsamples`, `CencSlices`, `CencFit`, `CencVp9`, `CencAv1`; sections 10.1
  and 10.4 of ISO/IEC 23001-7). No counter block is used twice across a ladder's variants, tracks and samples; both schemes
  are undone by a decryptor given the same layout; every splitter describes each byte of a sample once. AES is an arbitrary
  function on 16-byte blocks, and a bijection where it must be undone.
- **Escaped bits and reference picture sets** (`NalReading`, `RefPicSets`; sections 7.4.1 and 9.1 of ITU-T H.264, 7.4.8 of
  ITU-T H.265). The reader delivers the bits of the unescaped payload; the parser accepts exactly what the syntax allows,
  and every accepted list is in order and far inside int32.
- **Fragments** (`FragTiming`, `Fragment`, `FragParse`, `FragRoundTrip`; section 8.8 of ISO/IEC 14496-12). Decode times are
  rebuilt from presentation times by order statistics; the reader gives back everything the writer wrote.
- **Forensic variants** (`Forensic`, `ForensicNeutral`). Cutting a disposable sample out of a written segment in place
  gives, byte for byte, the segment the writer makes without it, and a player sees the same times for every kept sample.
- **Encryption slots** (`CryptSlots`, `CryptRuns`). A semaphore that hands slots to the oldest request, in every
  interleaving of acquire, cancellation and release.
- **Read windows** (`TrackWindows`). A cache of several windows that returns exactly the source's bytes.

`Arith`, `Bytes`, `Seqs` and `Boxes` hold arithmetic, big-endian integers, sequence facts and the box framing.

## Where the code says something else than its comments

- Settled windows (mp4/growinghls.go:669-672): "timed for good" holds of a settled window exactly under the condition of
  `GridFinality.FinalIff`. The fallback at lines 680-683 never meets it; the one at line 699 meets it when the next
  window's frames met so far already leave the grid, and, for frames in order, when no later timecode is left to that
  window. `FirstFallbackIsNotFinal` and `SecondFallbackIsNotFinal` show a window that is timed anew after each.
- Cancelled refreshes (mp4/growinghls.go:452-478): before head and lead are resolved, a scan stopped inside a cluster has
  folded the blocks it read in, and the next scan folds them in again: audio frames are then met twice.
  `GrowingStops.RefoldIff` says exactly when the plan comes to the same, `GrowingStops.ResolvedIsHarmless` that it always
  does afterwards.
- The counter-room rule (mp4/cenc.go:111-119): keystream reuse is excluded without it, because the counter is incremented
  as one 128-bit integer. `CencIv.CounterRoom` states exactly what the rule does buy: a reader that increments the low
  half alone meets the same blocks.
- Dropping a sample (mp4/forensic.go:121-128): the total duration stays the same only when the merged duration fits its
  32-bit field (`ForensicNeutral.TotalTimeIff`).
- Shifting edit lists (mp4/editshift.go:314-389): a track duration that would fall below 0 is set to 0, so the opposite
  shift does not restore it (`EditShift.ShiftAndBack`).
- Composition shifts (mp4/fragment.go:318-337): the stored presentation times come back exactly under the condition of
  `FragTiming.PrefixPresentsIff`, which distinct times meet and equal ones may (`EqualTimesMayFit`) or may not
  (`EqualTimesClamp`); `FragTiming.PrefixPresentsNear` bounds the lateness for all.
- Saturating milliseconds (mp4/sampletable.go:217-229): a result past the int64 range saturates, except in the sliver
  `FragParse.TicksToMsIff` describes, where it wraps to the other sign.

## Model

| member | source | states |
|---|---|---|
| GridWindow.NumAdvances | mp4/gridwindow.go:17-41 | a frame's slot number is at least one past that of the frame before it, however late or early its block is stamped, so numbers never repeat or step back |
| GridWindow.GridFrames | mp4/gridwindow.go:17-41 | the loop's numbers, the index past the last frame and the first frame held later than its own slot are those the recursive definition gives, for an opening of -1 too |
| GridWindow.FirstLateIsFirst | mp4/gridwindow.go:17-41 | the late frame reported is the first one numbered past its own slot, and there is none when none is reported |
| GridWindow.GridColdEnd | mp4/gridwindow.go:44-47 | where the numbering ends when the window opens on its own first slot |
| GridWindow.NoJitterIsConsecutive | mp4/gridwindow.go:51-68 | "no jitter" holds exactly when the frames' own slots, laces counted, are consecutive from the first one |
| GridWindow.GridJitter | mp4/gridwindow.go:51-68 | the scan over laces decides that condition |
| GridWindow.GridOpen | mp4/gridwindow.go:73-79 | a window opens on its first frame's slot, held back to where the window before it ends only when its frames jitter |
| GridWindow.GridTrackEnd | mp4/gridwindow.go:82-89 | the slot past a track's last frame, counted from the last block's slot and the frames that share its timecode |
| GridWindow.FitsEarlier | mp4/gridwindow.go:106-111 | when a later frame leaves a tick for every slot up to the end, so does every earlier one |
| GridWindow.AnchorFits | mp4/gridwindow.go:106-111 | the backward search from the late frame ends on a frame that fits if and only if the first frame fits, and then on the last such frame |
| GridWindow.RescaleSpreads | mp4/gridwindow.go:112-116 | rescaled times strictly increase, whatever the rounding, when the frame rescaled from fits |
| GridWindow.RescaleLands | mp4/gridwindow.go:112-116 | rescaling fixes the frame it starts from and sends the natural end exactly to the next opening |
| GridWindow.WindowTiles | mp4/gridwindow.go:95-122 | decode times strictly increase and durations are at least 1 always; the durations sum to exactly (end - first) * gridTS if and only if the first frame fits |
| GridWindow.ExcessGivenBackLate | mp4/gridwindow.go:95-122 | no frame is moved later than its natural time and frames ahead of the one rescaled from are not moved at all |
| GridWindow.ProductsFitInt64 | mp4/gridwindow.go:95-122 | under a bound b on slots with b*b*gridTS inside int64, no product the timing forms overflows |
| GridWindow.GridTime | mp4/gridwindow.go:95-122 | the in-place timing writes those decode times and durations to the window's samples and touches no other sample |
| GridWindow.GridTimeWindows | mp4/gridwindow.go:126-168 | the pass from the last window to the first times each window up to where the next one with a frame opens; samples no window holds keep what they had |
| GridWindow.WindowsAbut | mp4/gridwindow.go:126-168 | when a window's first frame fits, its last frame ends exactly where the first frame of the next window decodes |
| GridFinality.FromWindowAppend | mp4/growinghls.go:662-712 | frames and bounds appended later leave what is held from a window on unchanged but for more frames at its end |
| GridFinality.SettledStays | mp4/growinghls.go:673-704 | a window decided by frames stays so, with the same frames and the same end, whatever frames and bounds follow |
| GridFinality.SettledIsFinal | mp4/growinghls.go:669-704 | settled means final: once a window is decided by frames, the full pass gives it the same frames, decode times and durations after any further frames and bounds |
| GridFinality.WindowStays | mp4/growinghls.go:662-667 | a window with a frame met past it keeps exactly its frames |
| GridFinality.FinalIff | mp4/growinghls.go:669-704 | a settled window keeps its frames and its end under every continuation if and only if a frame is met past it and either that frame is on or past the window's own numbering, one is met past the next window too, or a frame of the next window met so far already leaves the grid |
| GridFinality.FinalInOrderIff | mp4/growinghls.go:669-704 | when the frames to come are in order, the one further case in which a settled window is final is a next window whose last frame leaves no later timecode to it |
| GridFinality.EndShows | mp4/gridwindow.go:95-122 | a window with room for its first frame that ends elsewhere has other durations |
| GridFinality.FirstFallbackIsNotFinal | mp4/growinghls.go:680-683 | the fallback for a silent track at work on an input: the settled window's duration changes when the track sounds again |
| GridFinality.SecondFallbackIsNotFinal | mp4/growinghls.go:696-701 | the fallback for a next window not yet whole at work on an input: the settled window's durations change with one more frame |
| GrowingPlan.ScanTwice | mp4/growinghls.go:344-408 | a scan at one size and then at a larger one leaves the same state, and reports the same, as the second alone |
| GrowingPlan.SchedulesConfluent | mp4/growinghls.go:344-408 | any schedule of refreshes at growing sizes ends in the state one scan at the last size gives: same bounds, offsets, grid windows and published count |
| GrowingPlan.CutsByKeys | mp4/growinghls.go:419-447 | a cluster's keyframes cut segments the same way however audio blocks interleave with them |
| GrowingPlan.GridByAudio | mp4/growinghls.go:419-447 | a cluster's audio reaches the grid the same way however video blocks interleave with it |
| GrowingPlan.BatchIsPerBlock | mp4/growinghls.go:419-447 | once head and lead are resolved, collecting a cluster without the lock and publishing it at once equals folding it in block by block |
| GrowingStops.RefoldIff | mp4/growinghls.go:452-478 | a scan that fails or is cancelled inside a cluster, before head and lead are resolved, leaves blocks folded in that the next scan folds in again; the plan comes to the same after that cluster if and only if those blocks hold no audio, and no video or video that leaves a first time and a lead which come to the same twice |
| GrowingStops.LeadRefoldIff | mp4/growinghls.go:523-533 | when the lead comes to the same twice, read off the frames: it was settled, or the next frame settles it where the first one folded in again does |
| GrowingStops.StopsConfluent | mp4/growinghls.go:344-408 | schedules stay confluent through scans that fail or are cancelled anywhere, as long as each folded in by halves only such blocks |
| GrowingStops.ResolvedIsHarmless | mp4/growinghls.go:419-447 | once head and lead are resolved, stopping anywhere leaves no trace |
| GrowingStops.AfterOk | mp4/growinghls.go:344-478 | every scan, to its end or stopped anywhere, keeps the plan's invariant and takes nothing back |
| GrowingStops.StopsTakeNothingBack | mp4/growinghls.go:989-1018 | no listed entry changes or is withdrawn, whatever scans fail or are cancelled on the way |
| GrowingLead.LeadCollects | mp4/growinghls.go:523-533 | the lead holds exactly the frames up to the second keyframe or the cap, and is settled by the first frame past them |
| GrowingLead.LeadIsShift | mp4/growinghls.go:539-554 | the shift measured over the lead is the one the full pass measures over all frames |
| GrowingLead.PlanShift | mp4/growinghls.go:344-554 | after any schedule of refreshes, the lead's shift is that of all video frames in the clusters read |
| GrowingSafety.InitOk | mp4/growinghls.go:183-291 | a new plan satisfies the invariant every scan keeps |
| GrowingSafety.RecordOk | mp4/growinghls.go:620-633 | a keyframe keeps bounds opening on 0, growing by at least segMs each, with one offset per bound, and only ever appends |
| GrowingSafety.PublishOk | mp4/growinghls.go:639-658 | publishing settled windows only moves forward, and every window passed over was settled by the track's own frames or its track is marked |
| GrowingSafety.ScanOk | mp4/growinghls.go:344-408 | every scan keeps the plan's invariant and takes back nothing: bounds, offsets, published count, head and lead only extend |
| GrowingSafety.ScheduleOk | mp4/growinghls.go:344-478 | the same over any schedule of scans |
| GrowingSafety.FinalizeOk | mp4/growinghls.go:740-809 | closing the plan publishes what is left and takes back nothing |
| GrowingSafety.EntriesOnlyGrow | mp4/growinghls.go:989-1018 | along any schedule of refreshes and the closing call, the entries a playlist listed are a prefix of those it lists later: none changes or is withdrawn |
| GrowingSafety.PublishedTimingFinal | mp4/growinghls.go:639-712 | over any later schedule, a window published for a grid-timed track on its own frames keeps the frames, decode times and durations the full pass gives it now |
| GrowingSafety.InitSegmentStable | mp4/growinghls.go:523-612 | once resolved, the composition lead and the head (first times and strides) never change |
| GrowingHls.GrowingHlsPlan.ExtendHead | mp4/growinghls.go:560-589 | folds a block into the first times and the lace probes |
| GrowingHls.GrowingHlsPlan.ResolveHead | mp4/growinghls.go:594-612 | every probe yields its stride, every other track its declared one, exactly once |
| GrowingHls.GrowingHlsPlan.ScanClusterLocked | mp4/growinghls.go:452-478 | the loop over a cluster's blocks leaves the state of the per-block fold |
| GrowingHls.GrowingHlsPlan.ScanCluster | mp4/growinghls.go:419-447 | both paths, per block before the head resolves and batched after, refine the one specification |
| GrowingHls.GrowingHlsPlan.GridWindowEnd | mp4/growinghls.go:662-667 | the index past a window's frames |
| GrowingHls.GrowingHlsPlan.GridSettled | mp4/growinghls.go:673-704 | decides Settled, both fallbacks included, over every grid-timed track |
| GrowingHls.GrowingHlsPlan.DropGridWindow | mp4/growinghls.go:707-712 | drops exactly the published window's frames of every track |
| GrowingHls.GrowingHlsPlan.UpdateSegCount | mp4/growinghls.go:639-658 | publishes one window after another for as long as the next is settled |
| GrowingHls.GrowingHlsPlan.Finalize | mp4/growinghls.go:720-809 | closes the plan as its specification does |
| GrowingHls.GrowingHlsPlan.FirstClusterOffset | mp4/growinghls.go:1025-1046 | finds the first cluster, waits for more data, or refuses an element of unknown size, as the recursive walk does |
| GrowingHls.GrowingHlsPlan.Scan | mp4/growinghls.go:344-408 | the resumable loop over fields leaves the state, and reports the outcome, of the specified scan |
| GrowingHls.GrowingHlsPlan.ScanStopped | mp4/growinghls.go:344-515 | a scan whose read fails or whose context ends leaves the specified half-way state, and even so takes nothing back |
| GrowingHls.GrowingHlsPlan.Refresh | mp4/growinghls.go:296-307 | one look at the file; the invariant is kept, nothing is taken back, and the count returned is that of newly published segments |
| GrowingHls.GrowingHlsPlan.Complete | mp4/growinghls.go:318-339 | one last look and then the plan is closed whatever that look met |
| MoovLayout.ScanTopLevelLayout | mp4/editshift.go:131-182 | a file is accepted exactly when its walk stays on box boundaries, its last box states its length and a moov is met; the layout names the first moov, the strays in order and each mdat |
| MoovLayout.RawsJoin | mp4/editshift.go:131-182 | the boxes of an accepted file, joined, are the file |
| MoovLayout.LayoutNames | mp4/editshift.go:131-182 | a layout's offsets are exactly where the file's moovs stand, first one apart |
| MoovLayout.FirstIsLive | mp4/editshift.go:131-182 | a forward walk's first moov is the one the layout names live |
| MoovLayout.WalkFinds | mp4/editshift.go:131-182 | whatever bytes follow the boxes, a forward box walk meets the first moov among them where it starts |
| MoovLayout.PutRetires | mp4/editshift.go:648-656 | four bytes written at a box's type turn it into a free box and change no other byte |
| MoovLayout.LiveShows | mp4/editshift.go:594-643 | with any set of strays retired, a forward walk still meets the live moov |
| MoovLayout.TailShows | mp4/editshift.go:594-643 | with every moov retired, a forward walk meets what stands behind the original boxes |
| MoovSwap.File.Append | mp4/editshift.go:594-643 | a write at the end of the file, which may fail leaving anything behind the durable bytes |
| MoovSwap.File.Flip | mp4/editshift.go:648-656 | a four-byte overwrite, unsynced until a barrier, which may fail and may have landed |
| MoovSwap.File.Sync | mp4/editshift.go:594-643 | a barrier: on success what is read is durable |
| MoovSwap.AppliedIs | mp4/editshift.go:594-656 | any subset of the unsynced overwrites persisted gives the original boxes with just those retired |
| MoovSwap.ImageShape | mp4/editshift.go:594-656 | every crash image is the original boxes, some retired, followed by the tail or, while the length is unsynced, by anything |
| MoovSwap.RetiredIntact | mp4/editshift.go:645-656 | in such an image every original byte outside the retired types is unchanged |
| MoovSwap.OldShows | mp4/editshift.go:594-643 | while the live moov is neither retired nor pending, every crash image shows the original moov |
| MoovSwap.EitherShows | mp4/editshift.go:594-643 | with only the live moov's overwrite pending, every crash image shows the original moov or the new one, never a stray |
| MoovSwap.NewShows | mp4/editshift.go:594-643 | once that overwrite is durable every crash image shows the new moov |
| MoovSwap.AppendBlobs | mp4/editshift.go:594-643 | at every crash point of the append, and after a failure of it, the original moov is the one found |
| MoovSwap.RetireMoov | mp4/editshift.go:648-656 | records exactly one pending overwrite, that of the moov named |
| MoovSwap.RetireStrays | mp4/editshift.go:594-643 | at every crash point while strays are retired the original moov is the one found; on success all strays are durably retired |
| MoovSwap.RetireLive | mp4/editshift.go:594-643 | at every crash point of the last step the original or the new moov is found; on success the new one, durably |
| MoovSwap.AppendAndRetire | mp4/editshift.go:594-643 | the whole protocol, over every operation that may fail and every crash image of every state it passes through: original moov up to the last overwrite, original or new after it, new on success; a file that changed since the scan is refused untouched |
| MoovSwap.NewIsLast | mp4/editshift.go:589-643 | where the appended blobs end with the one new moov, the moov found is that one, byte for byte, at the end of the file |
| MoovSwap.BlobsShow | mp4/editshift.go:589-591 | what stands behind the boxes shows its moov when that is the last appended box |
| EditLists.RoundTicksIff | mp4/editshift.go:572-578 | int64 rounding, every operation wrapping, is the exact rounding if and only if the product leaves room for half a tick |
| EditLists.RoundTicksOdd | mp4/editshift.go:572-578 | within that range opposite shifts are opposite tick counts |
| EditLists.RoundTicksNearest | mp4/editshift.go:572-578 | within that range a tick count is the result if and only if it is within half a tick of the time, ties away from zero |
| EditLists.TrakElstEntries | mp4/editshift.go:393-443 | the loop reads a track's edit list as specified: none without one, an error for a header cut short or entries its payload cannot hold |
| EditLists.ElstRoundTrip | mp4/editshift.go:393-469 | an edit list always reads back as a list; it reads back the same if and only if the version chosen can hold it (no negative length, no media time below -2^31 in version 0) |
| EditLists.WidenKeeps | mp4/editshift.go:558-568 | widening a header to 64-bit times keeps every field's value and every other byte |
| EditLists.PatchedReads | mp4/editshift.go:488-524 | a patched track header reads back with the duration given, in the version that holds it |
| EditLists.PatchedKeeps | mp4/editshift.go:506-524 | patching changes the duration only, in place or in a widened header |
| EditShift.SplitDelay | mp4/editshift.go:332-340 | splits an edit list into the empty edits ahead of the media and the rest |
| EditShift.Reassemble | mp4/editshift.go:370-388 | rebuilds the track's boxes in their order, the new edit list behind the header, any old one dropped |
| EditShift.RewriteTrakEditShift | mp4/editshift.go:314-389 | refines the specified shift of a track by roundTicks(ns), errors included |
| EditShift.RewrittenHas | mp4/editshift.go:370-388 | the rewritten track has the new header, exactly the new edit list, and every other box as it was |
| EditShift.ShiftRefusedIff | mp4/editshift.go:341-346 | a shift is refused if and only if it takes away more delay than there is |
| EditShift.ShiftExact | mp4/editshift.go:314-389 | a shift moves the leading delay and the track duration by exactly its ticks (the duration never below 0), keeps the media's edits with the pauses behind them and every other box |
| EditShift.ShiftAndBack | mp4/editshift.go:314-389 | a shift and its opposite restore the delay and the media's edits; the duration is restored if and only if the first shift did not take it below 0 |
| Rational.Gcd | mkv/model.go:545-553 | the result is the greatest common divisor in the divisibility sense, 1 for two zeros |
| Rational.ReducedCoprime | mkv/model.go:560-563 | dividing by it leaves coprime parts of the same ratio |
| Rational.NearerOfTwo | mkv/model.go:575-588 | between the last convergent and the last semiconvergent that fits no fraction within the bound lies strictly, so the nearer of the two is a best approximation (the Farey-neighbour argument) |
| Rational.StepWithin | mkv/model.go:570-592 | an expansion step keeps every intermediate within the input's own parts, twice the denominator at most |
| Rational.LastStep | mkv/model.go:576-583 | the step taken at the bound is the largest that keeps both parts within it |
| Rational.NearerPart | mkv/model.go:575-588 | the part chosen at the bound is the reduction, in wrap-checked uint64 arithmetic |
| Rational.Approximate | mkv/model.go:564-597 | the continued-fraction loop ends with a reduction of its input, no uint64 product overflowing |
| Rational.AvReduce | mkv/model.go:560-597 | for den in 1..2^63-1: both parts within max, lowest terms, no fraction within the bound strictly closer, and the exact ratio whenever its reduced form fits; a zero denominator gives 1/1 or 0/1 |
| CencIv.AddUint64BE | mp4/cenc.go:390-397 | byte-wise carry addition is addition modulo 256^n on the big-endian integer, other bytes untouched |
| CencIv.CencSampleIV | mp4/cenc.go:416-420 | a sample's IV is the base with its offset and domain added to the high 8 bytes, modulo 2^64 |
| CencIv.CencForVariant | mp4/cenc.go:438-446 | variant 0 keeps the IV, variant i adds i*2^48 |
| CencIv.ValidateIV | mp4/cenc.go:111-119 | accepts exactly the IV lengths of each scheme and, for 16 bytes under 'cenc', only those leaving the counter 2^32 blocks |
| CencIv.PreflightDomains | mp4/cenc.go:168-177 | refuses exactly when two tracks of a presentation would share an IV domain |
| CencIv.AddedInjective | mp4/cenc.go:427-456 | two places whose sums agree modulo 2^64 are the same (variant, track, source offset) |
| CencIv.AcceptedIsSeparated | mp4/cenc.go:151-179 | what the option and track checks accept meets what keeps samples apart |
| CencIv.CounterValue | mp4/cenc.go:416-470 | the j-th counter block of a sample as one 128-bit number |
| CencIv.NoSharedKeystream | mp4/cenc.go:390-470 | no two samples with different (variant, track, source offset) ever use a common counter block, nor one sample the same block twice |
| CencIv.CounterRoom | mp4/cenc.go:111-119 | up to 2^32 blocks keep the high half of the counter if and only if the low half leaves that room: what the room rule buys |
| CencIv.OneVariantTooMany | mp4/cenc.go:427-432 | the limit of 256 variants is exact: variant 256 of the video collides with an audio track of variant 0 |
| CencCipher.CencCTREncrypt | mp4/cenc.go:478-492 | in place, byte i of the sample meets the keystream byte of its rank among protected bytes; clear bytes stay |
| CencCipher.CtrTwice | mp4/cenc.go:478-492 | encrypting twice under the same layout gives the sample back, for any block function |
| CencCipher.CbcsPatternEncrypt | mp4/cenc.go:503-535 | in place, the region becomes the specified pattern ciphertext and nothing outside it changes |
| CencCipher.CbcRoundTrip | mp4/cenc.go:503-535 | a pattern decryptor undoes it for any block bijection, any pattern and any chain |
| CencCipher.CbcSkips | mp4/cenc.go:503-535 | blocks in skip runs and the trailing partial block never change |
| CencCipher.CbcsEncryptVideoSubsamples | mp4/cenc.go:539-548 | in place, each protected region is enciphered on its own, chain reset, clear bytes untouched |
| CencCipher.CbcsVideoRoundTrip | mp4/cenc.go:539-548 | the decryptor walking the same subsample list gives the sample back |
| CencCipher.CbcsEncryptWholeSample | mp4/cenc.go:554-556 | in place, every full block on one chain, trailing bytes clear |
| Subsamples.SubsampleAt | mp4/cenc.go:478-492 | byte by byte, what subsample k of a list protects and how many protected bytes come before |
| CencSlices.SubsampleBuilder.Add | mp4/cenc_slice.go:210-219 | the entries so far plus the clear bytes held describe the bytes seen, protected runs whole blocks under 'cenc' |
| CencSlices.SubsampleBuilder.Done | mp4/cenc_slice.go:229-234 | the entries describe exactly the bytes seen, each in its field width |
| CencSlices.LayoutOfFramed | mp4/cenc_slice.go:105-127 | a sample framing NAL units is laid out as they are, in order, parameter sets learned on the way |
| CencSlices.LaidOutIsFramed | mp4/cenc_slice.go:105-127 | a sample that has a layout is exactly some framed NAL units, every byte described |
| CencSlices.H26xSplitter.Split | mp4/cenc_slice.go:105-127 | refused exactly when a NAL unit cannot be framed or read; otherwise the entries say of each byte what the layout does, sum to the sample, fit their fields and protect whole blocks under 'cenc' |
| CencFit.FindBest | mp4/cenc.go:658-666 | the first of the entries that protect least among those the next one's clear field can take |
| CencFit.FitSaiz | mp4/cenc.go:655-674 | terminates with the best-first folding of the list, or an error exactly when that gets stuck |
| CencFit.FoldRegions | mp4/cenc.go:670-671 | a fold removes exactly the folded entry's protected region and moves no other |
| CencFit.FittedKeeps | mp4/cenc.go:655-674 | the sum is kept, protected bytes only turn clear, surviving regions stay where they were, fields and whole blocks hold, and the entry's size is one byte |
| CencFit.StuckIsLarge | mp4/cenc.go:655-674 | a list nothing can be folded in describes 64 KiB for every two entries |
| CencFit.SmallSamplesFit | mp4/cenc.go:655-674 | so a sample of under 64 KiB for every two entries allowed is never refused |
| CencVp9.IndexFound | mp4/cenc_vp9.go:94-126 | a superframe index is recognised exactly when the sample ends with one, its marker at both ends |
| CencVp9.SplitSuperframe | mp4/cenc_vp9.go:94-126 | refused exactly when the sizes do not reach to the index; otherwise the frames and the index length |
| CencVp9.SuperframeRoundTrip | mp4/cenc_vp9.go:94-126 | frames packed as a superframe split back into themselves |
| CencVp9.FramesTile | mp4/cenc_vp9.go:94-126 | the frames found are consecutive, in bounds and reach exactly to the index |
| CencVp9.ClampSubsample | mp4/cenc_vp9.go:228-239 | clear and protected sum to the region, clear fits 16 bits, protected is whole blocks wherever the field has room |
| CencVp9.LayoutPartitions | mp4/cenc_vp9.go:29-52 | one entry per frame, split in two, and the index clear: together exactly the sample |
| CencVp9.Vp9Splitter.Split | mp4/cenc_vp9.go:29-52 | refused exactly when the sample is empty, misframed or a header unreadable; otherwise those entries; either way the width carried on is that of the frames laid out before |
| CencAv1.LebRoundTrip | mp4/cenc_av1.go:87-100 | every value reads back from any of its encodings within 8 groups, whatever follows |
| CencAv1.ReadLEB128 | mp4/cenc_av1.go:87-100 | the loop decodes that encoding, with its two error cases |
| CencAv1.LongRunShows | mp4/cenc_av1.go:126-244 | a refusal for length means more than 65535 clear bytes in a row |
| CencAv1.Av1Splitter.Split | mp4/cenc_av1.go:126-244 | refused exactly when an OBU cannot be read or a clear run between tile data passes 65535 bytes; otherwise the entries say of each byte what the layout does, sum to the sample, and protect whole blocks |
| NalReading.CleanOfEscape | mp4/cenc_slice.go:248-269 | removing emulation-prevention bytes undoes an encoder's escaping, for every payload |
| NalReading.CodeUnique | mp4/cenc_slice.go:299-308 | at most one Exp-Golomb codeword starts at a place |
| NalReading.Decodes | mp4/cenc_slice.go:299-308 | behind z zeros and a one stands the codeword of z leading zeros and no other |
| NalReading.CodeFromIs | mp4/cenc_slice.go:283-308 | what a bounded read must deliver is fixed by the codeword that stands there |
| NalReading.NalReader.Bit | mp4/cenc_slice.go:248-269 | the next bit of the unescaped payload, an error past its end |
| NalReading.NalReader.U | mp4/cenc_slice.go:271-277 | the next n bits as an integer, an error when fewer are left |
| NalReading.NalReader.Skip | mp4/cenc_slice.go:292-296 | n bits further, or an error when fewer are left |
| NalReading.NalReader.Ue | mp4/cenc_slice.go:299-308 | decodes every codeword of up to 31 leading zeros, and fails if and only if none stands next |
| NalReading.NalReader.UeMax | mp4/cenc_slice.go:283-290 | the same within a range, a larger value being an error |
| NalReading.NalReader.Se | mp4/cenc_slice.go:310-316 | the signed code, each value from its own codeword |
| NalReading.NalReader.HeaderLen | mp4/cenc_slice.go:319-324 | the shortest escaped prefix holding every payload byte read from; never past the payload |
| RefPicSets.PredictedOrdered | mp4/cenc_slice.go:834-861 | a set predicted from an ordered one is ordered, each side strictly monotone on its side of 0, and reaches at most delta further |
| RefPicSets.PredictedMembers | mp4/cenc_slice.go:834-861 | it holds exactly the kept candidates that fall on each side |
| RefPicSets.Predict | mp4/cenc_slice.go:834-861 | the six appending loops compute the filtered candidate list, flags included |
| RefPicSets.ReadSteps | mp4/cenc_slice.go:867-876 | reads the steps and flags of one side as the bits hold them |
| RefPicSets.ParseSTRPS | mp4/cenc_slice.go:803-878 | accepted exactly when the syntax allows a set at the reader's place, and then that set, the reader behind it |
| RefPicSets.SetAccepted | mp4/cenc_slice.go:803-878 | every set the syntax allows against accepted earlier ones is ordered, has a flag per picture, at most 32 pictures and bounded reach |
| RefPicSets.ParseSets | mp4/cenc_slice.go:725-735 | the loop reads exactly the sets the bits hold, each against those before it |
| RefPicSets.SetsAccepted | mp4/cenc_slice.go:725-735 | every set of a list of up to 64 is accepted and all its values fit int32, over the longest chain of predictions |
| FragTiming.KthSmallest | mp4/fragment.go:318-337 | the k-th smallest of a list is at most the k-th smallest of any prefix |
| FragTiming.BumpedIsLeast | mp4/fragment.go:499-505 | the least strictly increasing times not before the sorted ones |
| FragTiming.BumpedNear | mp4/fragment.go:499-505 | sorted times move by at most a tick for each time before them |
| FragTiming.StrictlyIncreasing | mp4/fragment.go:499-505 | the in-place pass leaves those times |
| FragTiming.CompositionPrefixLen | mp4/fragment.go:291-302 | the prefix ends at the second keyframe or the cap |
| FragTiming.CompositionShift | mp4/fragment.go:318-337 | the shift is the most the prefix's sorted times run ahead of its stored ones, at least 0 |
| FragTiming.FillFragTimingTS | mp4/fragment.go:443-495 | in place, every sample gets its rebased decode time, duration and offset; offsetMs, hasCTS, total and shift are as those times say |
| FragTiming.TimesTelescope | mp4/fragment.go:443-495 | decode times strictly increase and durations telescope to their differences |
| FragTiming.PrefixPresentsIff | mp4/fragment.go:318-337 | every sample of the measured prefix presents exactly when it is stored if and only if the decode times run no further ahead of the stored ones there than the sorted times of the prefix do |
| FragTiming.PrefixPresentsExactly | mp4/fragment.go:318-337 | distinct presentation times meet that condition: base + dts + cts - shift is the presentation time of every prefix sample |
| FragTiming.PrefixPresentsNear | mp4/fragment.go:318-337 | with any presentation times a prefix sample presents at most one tick late for each sample before it |
| FragTiming.EqualTimesClamp | mp4/fragment.go:318-337 | an input that fails it: of two equal presentation times the second presents a tick late |
| FragTiming.EqualTimesMayFit | mp4/fragment.go:318-337 | an input with equal presentation times that meets it |
| FragTiming.CtsStoredIff | mp4/fragment.go:443-495 | the 32-bit field keeps a composition offset exactly when it is below 2^31 |
| FragTiming.InOrderNeedsNoOffsets | mp4/fragment.go:443-495 | a decode order that is the presentation order needs no shift and no offset |
| Fragment.Assemble | mp4/fragment.go:184-208 | one pass with running offsets gives the fragment defined traf by traf |
| Fragment.BuildMoof | mp4/fragment.go:184-208 | two passes give the fragment whose offsets count from its own length |
| Fragment.PassesAgree | mp4/fragment.go:184-208 | the fragment's length does not depend on the offsets in it |
| Fragment.SizesTile | mp4/cenc.go:328-363 | saiz's one-byte sizes tile senc's body: sample n's information stands where those before it end |
| Fragment.SaioPointsAtAux | mp4/cenc.go:371-385 | in the finished fragment each encrypted track's saio offset is where its auxiliary information begins |
| Fragment.TrafStands | mp4/fragment.go:184-251 | traf k stands where its running offset says |
| FragParse.AppendTrunSamples | mp4/fragparse.go:390-474 | the loop over a trun's entries appends the samples the recursive reading gives: fields the run leaves out from the defaults, the first sample's flags overridden, a run cut short refused |
| FragParse.TicksToMsIff | mp4/sampletable.go:207-229 | for every int64 tick count the conversion is exact and saturates past the int64 range, except exactly where the whole seconds reach the last that fit and the remainder leaves the range: there it wraps |
| FragParse.PlaceTrafSamples | mp4/fragparse.go:361-375 | the truns of a traf placed one after another |
| FragParse.TrunsFitData | mp4/fragparse.go:347-358 | refuses exactly a trun that lists no per-sample field and declares more samples than the data holds |
| FragParse.ReadTrack | mp4/fragparse.go:252-332 | a traf read into its track: anchor, decode base, sample cap and the second placement when the chained anchor misses the data |
| FragParse.Movie.ParseTrafSamples | mp4/fragparse.go:252-332 | the movie's tracks and sample count after a traf, an unknown track changing nothing |
| FragParse.Movie.ParseMoofSamples | mp4/fragparse.go:142-161 | every traf in turn, each chained to where the one before ended |
| FragRoundTrip.EntryReads | mp4/fragparse.go:390-474 | a written sample entry reads back with its fields |
| FragRoundTrip.RunReads | mp4/fragparse.go:390-474 | a written run reads back sample by sample, cursor and clock where they belong |
| FragRoundTrip.TrafReads | mp4/fragparse.go:252-332 | a written traf reads back into its track |
| FragRoundTrip.WrittenReadsBack | mp4/fragment.go:184-208 | parsing what buildMoof wrote gives every sample of every segment its size, sync flag, decode time, composition offset and duration, placed behind the moof and mdat header |
| FragRoundTrip.OffsetsSlice | mp4/fragparse.go:142-161 | those offsets and sizes slice exactly the sample's bytes out of the concatenated mdat |
| Forensic.ParseForensicSegment | mp4/forensic.go:173-295 | the geometry of a segment: one moof of one traf of one full run whose sizes tile the one mdat, nothing otherwise |
| Forensic.DisposableIff | mp4/forensic.go:322-347 | a sample is disposable exactly when it is length-prefixed NAL units, none a referenced slice, with a slice among them |
| Forensic.H264AllDisposable | mp4/forensic.go:322-347 | the NAL walk decides that condition |
| Forensic.PickDisposable | mp4/forensic.go:302-316 | the first sample past the first that is no sync sample and disposable, or none when there is none |
| Forensic.PutUint32 | mp4/forensic.go:353-397 | four big-endian bytes in place, the rest of the array unchanged |
| Forensic.RebuildWithout | mp4/forensic.go:353-397 | the patched moof, cut, and the data without the sample, for any sample whose entry lies in the moof |
| Forensic.NestedIff | mp4/forensic.go:173-295 | whatever segment reads, each box starts in the one around it; they nest exactly when the traf ends in the moof and the trun in the traf |
| Forensic.DropNonRefSample | mp4/forensic.go:140-150 | for every segment: unchanged exactly when it has no such shape or no droppable sample, without its first one where that sample's entry lies in the moof, and an index out of range exactly where it does not or the run's header is cut off by the segment's end |
| ForensicNeutral.GeometryReads | mp4/forensic.go:173-295 | the editor reads every single-track clear segment the writer makes, field by field |
| ForensicNeutral.MoofRewritten | mp4/forensic.go:353-397 | the moof patched and cut in place is the moof the writer makes of the run without the sample |
| ForensicNeutral.CutIsRewrite | mp4/forensic.go:353-397 | the in-place surgery on a written segment gives, byte for byte, the writer's segment of the remaining samples |
| ForensicNeutral.RebuiltReads | mp4/forensic.go:353-397 | read again, the entries are those without the cut one, only its predecessor's duration grown (modulo 2^32) |
| ForensicNeutral.TotalTimeIff | mp4/forensic.go:353-397 | the total duration is unchanged if and only if the two durations' sum fits 32 bits |
| ForensicNeutral.SampleKept | mp4/forensic.go:353-397 | every kept sample keeps size, sync flag, decode time and composition time, and all but one its duration |
| ForensicNeutral.PlayerReads | mp4/forensic.go:353-397 | a player reading the rebuilt segment gets every kept sample at its old times with its old bytes |
| CryptSlots.RootLeast | mp4/cryptslots.go:28-41 | the root of the waiters' heap started first |
| CryptSlots.Push | mp4/cryptslots.go:28-55 | adds a waiter and keeps the heap |
| CryptSlots.Pop | mp4/cryptslots.go:28-41 | removes a waiter that started no later than any other and keeps the heap |
| CryptSlots.CryptOrder.Enter | mp4/cryptslots.go:46-55 | takes a free slot or joins the heap as a waiter not yet handed one |
| CryptSlots.CryptOrder.HandOff | mp4/cryptslots.go:80-89 | hands the slot to the live waiter that started first, or back to the pool when there is none |
| CryptSlots.CryptOrder.GiveUp | mp4/cryptslots.go:59-68 | passes on a slot handed in the meantime, else marks the waiter gone |
| CryptSlots.CryptOrder.Release | mp4/cryptslots.go:73-77 | hands the slot on in the same way |
| CryptRuns.StepOk | mp4/cryptslots.go:46-89 | every step (take, join, return, context end, release) conserves the slots and keeps the books |
| CryptRuns.SlotsSafe | mp4/cryptslots.go:46-89 | in every state of every interleaving: free + held = n, no slot is free while a caller waits, and a caller that got an error holds none |
| CryptRuns.NotOvertaken | mp4/cryptslots.go:80-89 | each hand-off goes to a caller that started no later than any that still waits, and takes no slot from a holder |
| CryptRuns.OldestFirst | mp4/cryptslots.go:46-89 | over a run, while a caller waits every slot handed over goes to callers that started no later |
| TrackWindows.Refilled | mp4/demux.go:413-437 | refilling a window from a byte none holds, up to the next window, keeps every window a copy of the source and no byte in two |
| TrackWindows.Windows.Holding | mp4/demux.go:456-463 | a window holding the byte, or none when none does |
| TrackWindows.Windows.Oldest | mp4/demux.go:445-453 | the window that ends first |
| TrackWindows.Windows.Reach | mp4/demux.go:413-418 | as much as a window takes, short of the declared end and of the next window, and no less |
| TrackWindows.Windows.Refill | mp4/demux.go:429-437 | the oldest window refilled, or emptied when the source does not give the bytes; the mirror is kept either way |
| TrackWindows.Windows.Read | mp4/demux.go:397-440 | terminates; returns exactly the source's bytes of the sample whatever the windows held and whichever reads fail, succeeds for every in-bounds sample within the size limit unless one of its own reads failed, refuses those outside |
| Boxes.IterBoxes | mp4/parse.go:149-172 | the loop over a buffer's boxes reads the list the recursive walk gives, malformed lengths refused |
| Boxes.IterOfConcat | mp4/parse.go:149-172 | boxes laid out one after another read back as those boxes |

## Left out

- `httpfs`, `mkvhttp`, the `matroska` facade, the command line and the wasm entry points: plumbing and thin dispatch.
- Playlist, DASH and WebVTT text, codec strings, JSON: string formatting. EXT-X-TARGETDURATION is recomputed from the
  current maximum on every look, so the claim about playlists is about their entries.
- Codec header syntax (SPS, PPS and slice header bodies, the VP9 uncompressed header, the AV1 sequence and frame
  headers): arbitrary functions from what is known and the bytes to a header length, or an error.
- AES, SHA-256 and compression: AES is an arbitrary block function; key management and signalling boxes are not
  modelled.
- Widths: int64 arithmetic is on integers, but for the two conversions that can leave the range (`EditLists.RoundTicksIff`,
  `FragParse.TicksToMsIff`). `GridWindow.ProductsFitInt64`, `Rational.StepWithin` and `RefPicSets.SetsAccepted` prove that
  the products and values concerned stay inside their types; elsewhere times and offsets are assumed to fit, or the lemma
  says so in its `requires`.
- EditLists.RoundTicksNearest: asks that the product of a shift and a timescale leave room for half a tick in 64 bits,
  which the source does not check; `EditLists.RoundTicksIff` says that the result is exact just then.
- FragTiming.FillFragTimingTS: the branches for audio (windows on the grid, which are `GridWindow`; one window without
  bounds; block spans shared among their frames) are not part of it, since they never reorder.
- GridFinality.SettledIsFinal: speaks of windows decided by frames, because of the other settled ones
  `GridFinality.FinalIff` shows that they are not final.
- GrowingPlan.ScanTwice: scans that run to their end; `GrowingStops.RefoldIff` and `GrowingStops.StopsConfluent` speak of
  those that fail or are cancelled.
- GrowingPlan.SchedulesConfluent: assumes that no cluster starts past the Segment's declared end, as a file that grows
  by appending keeps it, and that each scan runs to its end, as `GrowingStops.StopsConfluent` does not.
- GrowingStops.LeadRefoldIff: for frames stored apart that present at different times.
- GrowingHls.GrowingHlsPlan.ExtendHead: building a track's sample entry from its first frame, which can fail, is left out.
- GrowingHls.GrowingHlsPlan.Finalize: the durations the closing peek reads, and a peek that fails, are left out; so they
  are in GrowingSafety.FinalizeOk.
- GrowingSafety.FinalizeOk: without the closing peek, as `GrowingHls.GrowingHlsPlan.Finalize`.
- GrowingHls.GrowingHlsPlan.Scan: runs to its end; a failed read or a cancelled context is
  `GrowingHls.GrowingHlsPlan.ScanStopped`. The same holds of ScanCluster, ScanClusterLocked, Refresh and Complete.
- Concurrency of the growing plan: one locked section is one step; lock fairness and the reading of Matroska elements are
  left out, and a cluster is its list of blocks. The grid index of a timecode and the stride of a track are parameters.
- CencIv.NoSharedKeystream: asks only for what keeps samples apart (distinct track domains, at most 256 variants,
  offsets below 2^48), which every accepted presentation meets by `CencIv.AcceptedIsSeparated`.
- CencFit.FitSaiz: the list is a value, not a slice shared with its caller; each fold replaces it.
- Forensic.ParseForensicSegment: a box whose 64-bit size carries its end past 2^63 is refused, where the source's sum
  wraps.
- ForensicNeutral.CutIsRewrite: for a single clear track whose moof and mdat sizes fit 32 bits, the shape of a video
  rendition's segment.
- FragRoundTrip.WrittenReadsBack: auxiliary boxes of encrypted tracks are passed over by the reader, as in the source;
  where they point is `Fragment.SaioPointsAtAux`.
- `readFragmentSamples` and `mdatEnd`: the walk over a file's top-level boxes that finds each fragment.
- Retiming whole files (`RetimeTracks`, `shiftsByTrak`, the movie header): the loop over a moov's tracks and `mvhd`'s
  patching repeat, per track, what `EditShift` proves.
- MoovSwap.AppendAndRetire: the filesystem is no more than "sync is a barrier and a four-byte overwrite is atomic"; a
  failed truncation leaves the appended bytes, and the claim covers that.
- CryptSlots.Push: `container/heap` is modelled as its algorithm on the waiters' list; channel wake-up is the step in
  which a caller that was handed a slot returns.
- TrackWindows.Windows.Read: the source does not change; any of its reads may fail.
