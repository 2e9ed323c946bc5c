# Motorcycle gear indicator: a Dafny model

The firmware infers the gear of a motorcycle from engine speed and road speed,
learns the gear ratios while riding, talks to the engine control unit over a
K-line, updates itself over the air and reports to an iOS app over BLE. This
project models that logic and proves what it guarantees.

`dafny verify dfyconfig.toml` verifies the whole project.

| files | part of the system |
|---|---|
| `Bands`, `RatioPeaks`, `RatioPeakLemmas`, `BootMarker`, `Learn` | histogram of ratios, peak detection, gear bands (`learn.rs`) |
| `Gear`, `GearLemmas` | the debounced estimator and its classifier (`gear.rs`) |
| `LearnStore` | the learned histogram against flash (`learn_store.rs`) |
| `OtaManifest`, `Ota`, `OtaWorker` | update manifest, streaming install, worker thread (`ota_manifest.rs`, `ota.rs`) |
| `KdsProto`, `KLine`, `Kds` | K-line framing, the line itself, the driver (`kds_proto.rs`, `kds.rs`) |
| `Utf8`, `Text`, `Json`, `BleProto`, `App`, `AppJson` | text, JSON bodies, BLE wire formats and the app's end of them (`ble_proto.rs`, `W230Protocol.swift`) |
| `Basics` | integer widths, options, little-endian layouts |

How it is modelled. Ratios, speeds and rpm are `real`; integers have their
widths (`U8`, `U16`, `U32`), with saturation and wrap-around written out. Objects
that the program updates are classes; each method equates the new state with a
function of the old one, and the lemmas are about those functions. What the
outside world does is a parameter: flash calls and flash reads succeed or fail,
the network delivers any chunks, the ECU answers with any frame, silence or
noise, WiFi comes up or not. SHA-256 and the app-descriptor reader are arbitrary
functions of the bytes. A failed flash write of the histogram leaves the stored
blob as it was.

Where the code and its own comments differ, the model follows the code:

- `learn.rs:28-30` says that windows of 10 % cannot straddle two gears. Two do,
  gears 4/5 and 5/6 (`FactoryStraddle`); order and uniqueness come from the
  nearest-band rule (`DerivedOrder`).
- `learn.rs:118-121` says that the boot marker can never form a peak or affect
  calibration. The first half is false: next to samples in bin 1 it can
  (`MarkerCanFormPeak`); `MarkerInvisibleIff` says for which histograms it
  changes no peak. The second half is true of every histogram
  (`FactoryCalibrationIgnoresMarker`).
- `ota.rs:17-20` says that the descriptor is checked before the first byte is
  committed. That holds exactly unless a first read of fewer than 288 bytes is
  written (`Stream`, `DownloadAndWrite`); any genuine image can arrive either way
  (`ReadsDecide`). At most 287 bytes come before the check, so the first 4 KiB of
  `docs/ota.md:30` are never committed unchecked.
- `ble_proto.rs:266-267` says that every builder trims to the attribute limit.
  `ota_status_json` trims notes only and does not return when the rest is too
  long, for example when the error quotes a long project name from a manifest
  (`OtaStatusReturnsIff`, `LongProjectNameNeverReturns`).
- `gear.rs:1-6` ranks a gear register below the neutral switch. A neutral read
  from the register is dropped by the next sample whenever the switch is off
  (`RegisterNeutralNeverHolds`); the W230 has no such register.
- `ota.rs:473-475` speaks of exactly one owner of the WiFi peripheral. There is
  never more than one, and none at all after the driver could be created but not
  wrapped (`StrandedIff`).

## Model

| member | source | states |
|---|---|---|
| Learn.RatioHistogram.AddSample | firmware/core/src/learn.rs:85-116 | The outcome names the first gate that closes; an accepted sample of ratio r raises by one exactly the bin from 20 + i up to 21 + i that holds r, and the count; a refused one changes nothing; the count stays the sum of the bins |
| Learn.SteadyRideLearned | firmware/core/src/learn.rs:85-204 | Fifteen samples whose ratios share a bin are learned as exactly one peak, at most half a unit from each; fewer as none |
| Learn.RatioHistogram.DebugMark | firmware/core/src/learn.rs:122-129 | Bumps bin 0 and the count below five marks, else changes nothing; keeps the count equal to the sum of the bins |
| Learn.RatioHistogram.Clear | firmware/core/src/learn.rs:76-79 | All bins and the count are zero |
| Learn.RatioHistogram.ToBlob | firmware/core/src/learn.rs:132-139 | The blob is the little-endian layout of count and bins |
| Learn.RatioHistogram.FromBlob | firmware/core/src/learn.rs:142-152 | A histogram exactly for 604 bytes, with the bins and count those bytes encode |
| Learn.BlobDecodes | firmware/core/src/learn.rs:131-152 | Decoding an encoded histogram gives it back |
| Learn.BlobEncodes | firmware/core/src/learn.rs:131-152 | Encoding what any 604-byte blob decodes to gives the blob back |
| Learn.BlobLayout | firmware/core/src/learn.rs:131-139 | Byte for byte: the count in four bytes, then two bytes a bin, low byte first |
| Learn.RatioHistogram.Peaks | firmware/core/src/learn.rs:168-204 | The candidate loop, stable sort and greedy loop compute `PeaksOf` of the bins |
| RatioPeakLemmas.CandidatesIncrease | firmware/core/src/learn.rs:178-190 | Candidate ratios rise strictly with their bins, so no two candidates coincide |
| RatioPeakLemmas.CandidateByCounts | firmware/core/src/learn.rs:168-182 | Which bins are candidates, in terms of the raw counts of five bins |
| RatioPeakLemmas.PeakIsMean | firmware/core/src/learn.rs:182-189 | A peak has the mass of its three bins and, as ratio, the mean of their samples taken at the bin centres |
| RatioPeakLemmas.NoAdjacentCandidates | firmware/core/src/learn.rs:178-181 | Neighbouring bins are never both candidates |
| RatioPeakLemmas.CandidateMassBound | firmware/core/src/learn.rs:178-190 | The candidate masses sum to at most twice the samples in the histogram |
| RatioPeakLemmas.SortSpec | firmware/core/src/learn.rs:193 | The sort is the one descending order that keeps equal masses in their order |
| RatioPeakLemmas.PeaksSpec | firmware/core/src/learn.rs:192-203 | Accepted peaks are candidates of mass 15 or more, mass-descending, pairwise more than 6 % apart; each rejected candidate lies within 6 % of an accepted peak of at least its mass |
| RatioPeakLemmas.FarIff | firmware/core/src/learn.rs:196-199 | Two peaks count as two gears exactly when the smaller ratio is more than 6 % below the larger |
| RatioPeakLemmas.StrongestFirst | firmware/core/src/learn.rs:192-203 | The first peak is the heaviest candidate, the lowest ratio among equals |
| RatioPeakLemmas.PeakExists | firmware/core/src/learn.rs:169-191 | Any bin with 15 samples, or any smoothed value of 29, yields a peak |
| RatioPeakLemmas.SingleBin | firmware/core/src/learn.rs:168-204 | With one non-empty bin the peaks are exactly its centre from 15 samples on, and none below |
| RatioPeakLemmas.PeakInOwnBin | firmware/core/src/learn.rs:181-190 | A candidate's interpolated ratio never leaves the candidate's own bin |
| BootMarker.MarkerInvisibleIff | firmware/core/src/learn.rs:118-129 | No marker count changes the peaks if and only if a condition on bins 1 to 4 holds; empty bins 1 and 2 meet it |
| BootMarker.LowPeakKept | firmware/core/src/learn.rs:192-203 | Below ratio 23 peaks and candidates are the same: what the marker forms there is always accepted |
| BootMarker.HighPeaks | firmware/core/src/learn.rs:192-203 | From ratio 23 on the peaks are those selected from the candidates up there alone, so a peak the marker forms suppresses none |
| BootMarker.CalibrationIgnoresMarker | firmware/core/src/learn.rs:118-254 | The derived bands do not depend on the marker over any reference out of its reach, nor over any reference at all where it changes no peak |
| BootMarker.FactoryCalibrationIgnoresMarker | firmware/core/src/learn.rs:118-121 | Over the factory bands the marker never affects calibration, whatever the histogram |
| BootMarker.MarkerCanFormPeak | firmware/core/src/learn.rs:118-129 | Ten samples in bin 1 and five marks form a peak that is not there without the marks |
| Bands.NearestSpec | firmware/core/src/learn.rs:223-228 | The anchoring slot is the first band of least relative error and no other index |
| Bands.NearestAntitone | firmware/core/src/learn.rs:223-228 | Over decreasing bands the nearest index never rises with the ratio |
| Bands.FactoryBandsFromGearing | firmware/core/src/gear.rs:32-38 | The factory bands are what primary drive, gears, final drive and tire rollout give, to 0.2 % |
| Bands.StraddleIff | firmware/core/src/learn.rs:28-30 | Two bands share a ratio within 10 % of both exactly when they are at most a factor 11/9 apart |
| Bands.FactoryStraddle | firmware/core/src/gear.rs:38 | Of neighbouring factory bands exactly the last two pairs do |
| Learn.Anchor | firmware/core/src/learn.rs:219-247 | The anchoring loop puts each slot's heaviest anchored peak into it and counts the anchored slots |
| RatioPeakLemmas.AnchorsIff | firmware/core/src/learn.rs:219-236 | A peak anchors to a slot exactly when it lies within 10 % of it, no farther from it than from any other, and nearer than to those before |
| Learn.RatioHistogram.DeriveBands | firmware/core/src/learn.rs:210-254 | Returns `Derived` of the bins: the refined bands and their count, or nothing below two anchored slots |
| RatioPeakLemmas.DerivedOrder | firmware/core/src/learn.rs:210-254 | For every histogram and decreasing positive reference the bands are positive, strictly decreasing, each within 10 % of its own reference |
| RatioPeakLemmas.DerivedSlots | firmware/core/src/learn.rs:210-254 | A slot without anchored peak is exactly the reference, any other its heaviest anchored peak; the count is that of the anchored slots; nothing is returned exactly below two |
| RatioPeakLemmas.LearnedBandSupported | firmware/core/src/learn.rs:181-190 | Every band that differs from its reference lies inside a bin that is a smoothed local maximum with 15 samples in its neighbourhood |
| Gear.GearEstimator.SetBands | firmware/core/src/gear.rs:91-94 | Replaces the table and nothing else |
| Gear.GearEstimator.ClearBands | firmware/core/src/gear.rs:96-98 | Drops the table and nothing else |
| Gear.GearEstimator.Classify | firmware/core/src/gear.rs:187-220 | Returns `Classification` of table and readings |
| Gear.BestBand | firmware/core/src/gear.rs:195-202 | The search loop finds the first band of least relative error |
| Gear.GearEstimator.Update | firmware/core/src/gear.rs:106-183 | The new fields are `Step` of the old ones and the sample; the result is the shown gear |
| GearLemmas.EstimatorRefinesHistory | firmware/core/src/gear.rs:106-183 | After any history of samples and table changes without register readings the shown gear is a counter-free function of that history, and the standstill counter is below 8 |
| GearLemmas.NeutralFollowsSwitch | firmware/core/src/gear.rs:107-125 | After any such history N shows exactly while the switch is on, and the first sample after release shows the dash |
| GearLemmas.RegisterNeutralNeverHolds | firmware/core/src/gear.rs:120-149 | With the switch off, N shows on no two samples in a row, register or not |
| GearLemmas.ConvergesToGear | firmware/core/src/gear.rs:158-181 | From any state, two samples of a gear of which the second is confident, or three in a row, show it |
| GearLemmas.SamplesShowGear | firmware/core/src/gear.rs:157-181 | From any state two samples within 5 % of a band show its gear, as do three within 14 % |
| GearLemmas.FewerSamplesHold | firmware/core/src/gear.rs:157-181 | Coming from something else, one sample, or two of which the second is beyond 5 %, leave what is shown, but for an N that is dropped |
| GearLemmas.RegisterShows | firmware/core/src/gear.rs:144-152 | Two register readings of a gear on the move show it, whatever the ratio says |
| GearLemmas.StandstillForgets | firmware/core/src/gear.rs:127-141 | From any state, eight standstill samples show the dash |
| GearLemmas.ClassifiedIff | firmware/core/src/gear.rs:187-219 | A sample is gear k exactly when it has 600 rpm and 3 km/h, band k is the nearest, and the ratio is within 14 % of it or the sample is a launch above 1.14 times the 1st-gear band, up to 12 km/h and from 1100 rpm |
| GearLemmas.ConfidentIff | firmware/core/src/gear.rs:203-219 | A classification is confident exactly within 5 % of the band of the gear it names; a launch never is |
| GearLemmas.NoGearWithoutReadings | firmware/core/src/gear.rs:187-194 | Without bands, rpm or speed, below 600 rpm or 3 km/h, no gear is named |
| GearLemmas.ClassifierMonotone | firmware/core/src/gear.rs:187-220 | Of two classified samples the one with the higher ratio never has the higher gear number |
| GearLemmas.LearnedClassifierMonotone | firmware/core/src/learn.rs:223-241 | The same for the bands learned from any histogram over the factory set |
| GearLemmas.FirmwareTablesCalibrated | firmware/esp32/src/main.rs:650-659 | With factory and learned tables installed and wiped in any order, the table in force is positive and decreasing |
| Gear.TimeAlignRpm | firmware/core/src/gear.rs:228-236 | The corrected rpm stays within 10 % of the reading |
| Gear.TimeAlignSpec | firmware/core/src/gear.rs:222-236 | Stale history or no lead leaves the reading alone; otherwise it moves along the trend by what the trend says, at most a tenth |
| Gear.TimeAlignExact | firmware/core/src/gear.rs:228-236 | On a steady acceleration within that clamp the correction is exact |
| LearnStore.RatioLearner.constructor | firmware/esp32/src/learn_store.rs:145-154 | A new learner holds what flash held, or starts empty, plus the boot marker |
| LearnStore.RatioLearner.Load | firmware/esp32/src/learn_store.rs:173-192 | Loads a readable blob of the right length, else keeps the empty histogram; marks the boot |
| LearnStore.RatioLearner.Save | firmware/esp32/src/learn_store.rs:205-218 | Writes only when dirty; clears the flag exactly when the write succeeded |
| LearnStore.RatioLearner.Clear | firmware/esp32/src/learn_store.rs:261-266 | Empties the histogram and saves it, staying dirty when the write fails |
| LearnStore.RatioLearner.AddSample | firmware/esp32/src/learn_store.rs:279-285 | Accepted samples, and only those, change the histogram and set the flag |
| LearnStore.SampleCounts | firmware/esp32/src/learn_store.rs:279-285 | A sample that passes every gate raises its bin, the count and the flag; any other changes nothing |
| LearnStore.ClearWipes | firmware/esp32/src/learn_store.rs:261-266 | A completed wipe leaves nothing but a boot mark for the next boot; a failed one leaves the stored blob until the next completed save |
| LearnStore.FirstRideLearned | firmware/esp32/src/learn_store.rs:145-192 | From an erased flash, boot mark included, a ride in one gear is learned as exactly that gear from 15 samples on |
| LearnStore.FlashAgreement | firmware/esp32/src/learn_store.rs:156-219 | Over any run from empty flash, with failures, wipes and power cuts, a clear flag means that flash holds the histogram; the count is the sum of the bins and never near saturation |
| LearnStore.SaveSurvivesPowerCut | firmware/esp32/src/learn_store.rs:173-218 | After a completed save a reboot finds every bin and the count, plus at most one mark |
| LearnStore.StoredEvidenceGrows | firmware/esp32/src/learn_store.rs:197-219 | Without wipes and failed boot reads no stored bin ever decreases |
| LearnStore.FailedReadThenSaveForgets | firmware/esp32/src/learn_store.rs:186-210 | After one failed boot read the next save replaces the stored histogram by the boot mark alone |
| OtaManifest.Parse | firmware/core/src/ota_manifest.rs:67-91 | Accepts exactly the decoded manifests that meet every requirement, unchanged |
| OtaManifest.AcceptableIff | firmware/core/src/ota_manifest.rs:67-91 | The requirements are the six checks, one by one |
| OtaManifest.FirstFailureReported | firmware/core/src/ota_manifest.rs:70-89 | A refused manifest reports its first failing requirement |
| OtaManifest.Sha256Bytes | firmware/core/src/ota_manifest.rs:94-102 | For 64 hex digits the loop computes `Digest`; for any other text it pairs up the first 64 bytes, whatever is no digit or missing counting as zero |
| OtaManifest.HexDigitSpec | firmware/core/src/ota_manifest.rs:94-102 | The value of each hex digit in either case, and 0 for anything else |
| OtaManifest.DigestRoundTrip | firmware/core/src/ota_manifest.rs:94-102 | Printing the digest gives the hex text back in lower case |
| OtaManifest.ParsePrinted | firmware/core/src/ota_manifest.rs:119-130 | A printed version parses back, under any number of leading v, a suffix, and white space around it |
| OtaManifest.ParsedVersionShape | firmware/core/src/ota_manifest.rs:119-130 | Exactly the texts parse whose core is three plain 32-bit numbers between two dots, to those numbers |
| OtaManifest.LessIff | firmware/core/src/ota_manifest.rs:132-147 | The derived order of version triples is that of the numbers (major * 2^32 + minor) * 2^32 + patch |
| OtaManifest.InstallIff | firmware/core/src/ota_manifest.rs:132-147 | Versions compared as numbers of 32 bits a part: too old exactly when below a given minimum, else install exactly when strictly newer, else up to date; the way back never installs |
| Ota.SlotWriter.constructor | firmware/esp32/src/ota.rs:77-96 | Opens the handle on an empty slot |
| Ota.SlotWriter.Write | firmware/esp32/src/ota.rs:98-105 | Appends the chunk to the slot exactly when the write succeeds |
| Ota.SlotWriter.FinishAndActivate | firmware/esp32/src/ota.rs:108-128 | Ends the handle once; switches the boot slot, to exactly the bytes written, only after a successful end |
| Ota.SlotWriter.Drop | firmware/esp32/src/ota.rs:119-128 | Aborts an open handle and leaves an ended one alone |
| Ota.NoMisuse | firmware/esp32/src/ota.rs:77-128 | In a log without misuse as many handles are closed as opened, but for one still open, writes go to an open handle, and the boot slot is switched directly after a successful end only |
| Ota.ChunkingIndependent | firmware/esp32/src/ota.rs:685-729 | The condition under which `DownloadAndWrite` activates depends on the stream, not on how it is cut into reads |
| OtaWorker.Worker.Stream | firmware/esp32/src/ota.rs:685-729 | Succeeds exactly for an unbroken stream that is the promised image, written completely; otherwise the slot holds a prefix not yet refuted; bytes are written before the descriptor is checked exactly when the first read is shorter than 288 bytes and is written, and then at most 287; progress rises within 0..100 and ends at 100 |
| Ota.ReadsDecide | firmware/esp32/src/ota.rs:685-707 | Every genuine image installs whatever its first read, and meets the condition for early writes exactly when that read is shorter than 288 bytes |
| OtaWorker.Worker.CheckHead | firmware/esp32/src/ota.rs:698-705 | The first 288 bytes are inspected once they are there, in whatever pieces they come |
| OtaWorker.Worker.SetProgress | firmware/esp32/src/ota.rs:708-712 | Publishes the percentage when it changed, never lower than before |
| Ota.PercentSpec | firmware/esp32/src/ota.rs:708-709 | The percentage is the whole number of hundredths reached |
| OtaWorker.Worker.FinalChecks | firmware/esp32/src/ota.rs:718-728 | After the last byte: success exactly for the promised image, else a true reason |
| OtaWorker.Worker.DownloadAndWrite | firmware/esp32/src/ota.rs:635-745 | Activates exactly when nothing fails and the stream is the promised image, and the slot then holds the stream; an error names a true reason; bytes are committed before the descriptor check exactly when the body is reached and a first read of fewer than 288 bytes is written; in every case the handle is closed |
| OtaWorker.Worker.WifiConnect | firmware/esp32/src/ota.rs:372-463 | Result and radio state are `Connect` of the old state |
| OtaWorker.ConnectIff | firmware/esp32/src/ota.rs:372-463 | Exactly when a connect attempt ends connected; driver and radio are then up |
| OtaWorker.DisconnectReturnsModem | firmware/esp32/src/ota.rs:465-486 | Releasing the driver gives the peripheral back, unless stranded |
| OtaWorker.StrandedIff | firmware/esp32/src/ota.rs:344-369 | At most one owner of the peripheral; none, for good, exactly after the driver was created but not wrapped |
| OtaWorker.Worker.DoCheck | firmware/esp32/src/ota.rs:502-570 | Installable exactly when connected, fetched, accepted and decided so; only then a manifest is stored and offered; every check that connects is recorded with its uptime and outcome, an accepted one with size and notes; each failure and each decision has its own state and error |
| OtaWorker.Worker.DoInstall | firmware/esp32/src/ota.rs:595-633 | Reboots exactly when a manifest is stored, the bike stands, WiFi connects and the download activates; otherwise reports a true reason; a failed download forgets the manifest, anything earlier touches neither manifest nor flash |
| OtaWorker.Worker.Handle | firmware/esp32/src/ota.rs:271-308 | Exactly when one request ends in a reboot: a check only if it asked to install and found an update, an install with a stored or newly offered manifest, each with a completed download; no other request touches the flash; the invariant is kept and at most one switch made, last |
| OtaWorker.Worker.Run | firmware/esp32/src/ota.rs:269-311 | Over every request sequence and failure: handles are closed exactly once, every switch follows a successful end, every switched image is genuine for a manifest that passed all requirements and was decided for this version; a reboot needs a request for an install, and without one the flash is untouched |
| OtaWorker.SwitchedImages | firmware/esp32/src/ota.rs:9-34 | Every switched image reports its manifest's version, above the running number and with the minimum met, and has the promised size and hash |
| OtaWorker.VersionsClimb | firmware/esp32/src/ota.rs:9-14 | Over any chain of updates the version numbers strictly climb |
| KdsProto.ChecksumDetects | firmware/core/src/kds_proto.rs:39-41 | Changing one byte changes the checksum |
| KdsProto.BuildRequest | firmware/core/src/kds_proto.rs:47-56 | The request is 0x80 plus the length, 0x11, 0xF2, the payload and the sum of these bytes modulo 256 |
| KdsProto.ParseFrame | firmware/core/src/kds_proto.rs:85-139 | Parsing takes exactly one frame, of at most 260 bytes, off the front and recovers its payload; only five zero bytes are refused |
| KdsProto.ParsedIsFrame | firmware/core/src/kds_proto.rs:85-139 | Whatever parses with a good checksum is a frame in one of the two forms, or one whose checksum never came |
| KdsProto.ParseAllFrames | firmware/core/src/kds_proto.rs:85-139 | Frames sent back to back, in either form, come out in order |
| KdsProto.ParseTruncated | firmware/core/src/kds_proto.rs:85-139 | A frame cut short reports exactly the bytes that came; without only its checksum it is accepted |
| KdsProto.CorruptionFlagged | firmware/core/src/kds_proto.rs:118-126 | One wrong byte other than format and length is always flagged |
| KdsProto.WrongLengthPassesIff | firmware/core/src/kds_proto.rs:102-126 | A wrong format or length byte passes exactly when the frame then claims its own checksum as data, or ends before a byte that is the checksum of what precedes it |
| KdsProto.LongerByOnePasses | firmware/core/src/kds_proto.rs:118-126 | A length one too high always passes, with the checksum as an extra data byte, because a missing checksum is tolerated |
| KdsProto.ShorterPassesIff | firmware/core/src/kds_proto.rs:102-126 | A length too low passes, whatever follows, exactly when the next byte is the checksum of the shorter frame; the payload is then cut there |
| KdsProto.PositiveDataSpec | firmware/core/src/kds_proto.rs:144-154 | With the identifier echoed the data comes back whole; without it exactly when the data does not begin with the identifier |
| KdsProto.NegativeReplyHasNoData | firmware/core/src/kds_proto.rs:144-147 | A negative reply yields no data |
| Kds.ParseResponse | firmware/core/src/kds_proto.rs:85-139 | Reading byte by byte gives what `Parse` says of the bytes readable before a timeout, and consumes exactly that many |
| Kds.Driver.Pace | firmware/esp32/src/kds.rs:64-71 | Afterwards 60 ms have passed since the last recorded activity |
| Kds.Driver.SendRequest | firmware/esp32/src/kds.rs:259-287 | On any line the frame start is recorded at its distance; on a faithful line exactly the echo is taken off and the answer is what remains |
| Kds.Driver.ReadResponse | firmware/esp32/src/kds.rs:291-313 | One framed answer gives its payload and leaves nothing behind |
| Kds.Driver.ReadRegister | firmware/esp32/src/kds.rs:155-174 | On a faithful line the result is the data answered to this very request, nothing for a negative or missing reply, and the line is quiet again; every frame keeps 60 ms distance on any line |
| Kds.RegisterDataSpec | firmware/esp32/src/kds.rs:155-174 | The bytes asked for a register, and what each answer gives: the data behind 0x61 and the echoed register, nothing for silence or another service |
| Kds.Driver.ScanRegisters | firmware/esp32/src/kds.rs:212-224 | All 256 registers in order, each with its own answer |
| Kds.SupportedSpec | firmware/esp32/src/kds.rs:212-224 | The scan finds exactly the registers that answer positively, each once, in rising order, with its data |
| Kds.Driver.DrainRx | firmware/esp32/src/kds.rs:316-319 | Removes exactly what can be read without waiting |
| Kds.DrainedSpec | firmware/esp32/src/kds.rs:316-319 | What is left starts with the first byte that has not arrived yet |
| Kds.Driver.FastInit | firmware/esp32/src/kds.rs:77-102 | After the pulse the late echo is drained too and the line is quiet |
| Kds.Driver.StartCommunication | firmware/esp32/src/kds.rs:75-148 | Connects exactly when both replies acknowledge; the session then starts aligned |
| Kds.AcknowledgedIff | firmware/esp32/src/kds.rs:103-148 | The two opening requests byte for byte, and what acknowledges them |
| Kds.Driver.ReadExact | firmware/esp32/src/kds.rs:329-341 | Takes the next bytes in order, stopping at a timeout |
| Utf8.TruncateUtf8 | firmware/core/src/ble_proto.rs:272-281 | The byte-wise search for a boundary yields `Truncated` |
| Utf8.TruncatedSpec | firmware/core/src/ble_proto.rs:269-281 | A prefix of whole characters that fits, at most 3 bytes below the limit, and no longer one fits |
| Utf8.DecodeEncode | firmware/core/src/ble_proto.rs:226-233 | Any text is recovered from its bytes |
| Utf8.EncodeDecode | firmware/core/src/ble_proto.rs:226-233 | Accepted bytes are exactly the encoding of the text they decode to (RFC 3629) |
| Utf8.ByteRanges | firmware/core/src/ble_proto.rs:226-233 | Lead and continuation bytes lie where RFC 3629 section 3 puts them, and tell the length |
| Utf8.EncodeKeepsOrder | firmware/core/src/ble_proto.rs:226-233 | Byte order of encodings is character order (RFC 3629 section 1) |
| Json.JsonStr | firmware/core/src/ble_proto.rs:283-297 | The escaping loop prints the quoted text |
| Json.ReadQuoted | firmware/core/src/ble_proto.rs:283-297 | A string literal reads back as the text it prints, whatever its characters (RFC 8259 section 7) |
| Json.EscapeBound | firmware/core/src/ble_proto.rs:283-297 | Escaping takes at most six bytes for each byte |
| Json.ParseRendered | firmware/core/src/ble_proto.rs:283-311 | Every printed value parses back to itself (RFC 8259) |
| BleProto.EventRing.Push | firmware/core/src/ble_proto.rs:596-603 | Drops the oldest of 24, appends the shortened text |
| BleProto.EventRing.ToJson | firmware/core/src/ble_proto.rs:614-631 | Prints the ring from the first event on at which the text fits |
| BleProto.RingIsLast | firmware/core/src/ble_proto.rs:596-603 | After any pushes the ring is the last at most 24 events, in order, each cut to 48 bytes |
| BleProto.EventLogBound | firmware/core/src/ble_proto.rs:614-631 | After any pushes the text is at most 512 bytes and carries the newest event |
| BleProto.LogReadsBack | firmware/core/src/ble_proto.rs:613-631 | The app reads back exactly the printed events, timestamps and texts |
| BleProto.OtaStatusJsonSpec | firmware/core/src/ble_proto.rs:487-516 | Where everything but the notes fits, the text is that of the first 64-byte shortening of the notes that fits; the notes are cut to a prefix |
| BleProto.TrimStep | firmware/core/src/ble_proto.rs:503-512 | One shortening takes 64 to 67 bytes off the notes, or all of fewer than 64 |
| BleProto.LittleIsCut | firmware/core/src/ble_proto.rs:502-513 | If notes were cut, a prefix at most 67 bytes longer was already too long |
| BleProto.OtaStatusReturnsIff | firmware/core/src/ble_proto.rs:502-516 | The recursion returns if and only if everything but the notes fits |
| BleProto.LongErrorNeverReturns | firmware/core/src/ble_proto.rs:502-516 | It does not return for an error of 512 bytes |
| BleProto.LongProjectNameNeverReturns | firmware/esp32/src/ota.rs:527-536 | Nor for the error a manifest with a project name of 512 bytes causes |
| AppJson.OtaStatusReadsBack | firmware/core/src/ble_proto.rs:487-516 | Reading each field by its name the app gets the status itself, but for the cut notes |
| AppJson.StatesAgree | firmware/core/src/ble_proto.rs:445-459 | The app knows every state by the word the firmware prints |
| BleProto.CalibrationJsonSpec | firmware/core/src/ble_proto.rs:402-427 | The body carries the longest prefix of the peaks that fits, and fits exactly when the body without peaks does |
| BleProto.CalibrationFits | firmware/core/src/ble_proto.rs:402-427 | With six bands of at most 25 characters it always fits |
| AppJson.CalibrationReadsBack | firmware/core/src/ble_proto.rs:402-427 | Reading each field by its name the app gets factory and learned bands as printed, the number of learned gears, at most 6, the count, and that prefix of the peaks with their masses |
| BleProto.HistPage | firmware/core/src/ble_proto.rs:247-257 | The page is page number, count and 150 bins, zero beyond the histogram |
| BleProto.PageLayout | firmware/core/src/ble_proto.rs:247-257 | Byte for byte: page, count, 150 bins from bin 150 times the page on, low byte first, zero beyond the histogram |
| BleProto.CredentialsRoundTrip | firmware/core/src/ble_proto.rs:216-243 | Encoded credentials decode to themselves, whatever follows |
| BleProto.AcceptedCredentialsCanonical | firmware/core/src/ble_proto.rs:216-243 | An accepted write begins with the encoding of what it decodes to |
| BleProto.RoundNearest | firmware/core/src/ble_proto.rs:128-131 | rpm and speed are sent within half a unit |
| App.Histogram.Merge | ios/Sources/W230/Protocol/W230Protocol.swift:229-240 | The loop copies the page's bins and leaves the others |
| App.MergeSpec | ios/Sources/W230/Protocol/W230Protocol.swift:229-240 | A page of 0 or 1 with a full header sets the count and the bins it carries, low byte first; anything else is ignored |
| App.HistogramRebuilt | ios/Sources/W230/Protocol/W230Protocol.swift:229-240 | Both pages of a snapshot, in any order and with repeats, rebuild all 300 bins and the count, whatever was there before |
| App.CredentialsCross | ios/Sources/W230/Protocol/W230Protocol.swift:282-286 | The app sends exactly what the firmware can store, and the firmware reads back what was sent |
| App.FlagsRoundTrip | ios/Sources/W230/Protocol/W230Protocol.swift:77-81 | Every flag and the three-valued interlock arrive as sent |
| App.LiveRoundTrip | ios/Sources/W230/Protocol/W230Protocol.swift:83-100 | Every field of the live packet arrives, gears 1 to 6 included; a higher gear would show as 6 |
| App.LiveReadings | firmware/core/src/ble_proto.rs:124-137 | Rpm and speed arrive to the nearest unit, clamped to 16 bits, 0 when unknown; the ratio times the speed is the rpm, or the ratio is 0 without both or below 1 km/h |

## Left out

- f32 rounding, infinities and NaN: readings are finite and arithmetic is exact; band tables hold no zero.
- Log output, and the exact wording of error texts other than the one quoted above.
- UART, NVS, WiFi, TLS, HTTP, ESP-IDF and Bluetooth stack calls: only their outcomes appear.
- JSON decoding of the manifest: the model starts from the decoded fields.
- The ride-debug tallies of `learn_store.rs` and their blob: plain counters.
- `decode_rpm`, `decode_speed`, `decode_interlock`, `read_common` and `read_ident`: easy beside `read_register`.
- Device-info, black-box, WiFi-status and settings JSON: fixed formats without trimming.
- BLE commands, UUIDs, display, diagnostics, web page and the main loop, but for the tables and inputs it hands on.
- Clock drift while a byte is read: reading takes no time beyond waiting for the byte.
- LiveRoundTrip: the f32 bit pattern of the ratio is an arbitrary function of the ratio.
- CalibrationReadsBack: which digits a ratio is printed with is arbitrary.
- Run: rollback by the bootloader after a reboot is not part of this model.
- ParseRendered: the reader takes compact text without white space or exponents, which is all the printers emit.
