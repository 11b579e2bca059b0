# SignalSentinel in Dafny

SignalSentinel records and plays scanner radio traffic. This project models its audio path, its two activity
state machines and its small protocols, and proves what each of them promises over every input and every run.

`dafny verify dfyconfig.toml` checks everything.

| files | subject |
|---|---|
| `Gf2`, `Checksum` | division of polynomials over GF(2); the byte-wise loops of crc8 and crc16 |
| `CodedNumber`, `Flac`, `FlacWriter` | coded frame numbers, the FLAC stream with a decoder for it, the writer over a fallible file |
| `Jitter`, `RtpJitter`, `JitterStreams` | the reorder buffer over unbounded timestamps, the real one over wrapping 32-bit timestamps, and how a stream is put back together |
| `ActivityDetector`, `RecorderSpec`, `Recorder` | the IDLE/ACTIVE/HANG detector and the recording manager, as step functions and as objects |
| `RecorderInvariant`, `RecorderWriters`, `RecorderTiming` | what every recorder run keeps: clip fields, the writer protocol, PCM, faults, hang time, debounce, clip order |
| `RecorderOutcomes`, `StatusReading` | what each operation makes of the clip, said outright; what counts as activity and as another frequency |
| `RecordedFiles` | what stands in the file of each kept clip |
| `Text`, `Numerals`, `IndexList`, `IndexPrinter`, `IndexTexts` | index lists such as `0-4,7,9`: parser, printer, state arrays, and exactly which texts are read as what |
| `ActivitySpec`, `ActivityModel`, `ActivityInvariant`, `ActivityRows`, `ActivityTiming` | the activity list of the user interface: windows and their outcomes, rows shown, when sessions start and end |
| `XmlReassembly`, `XmlClient` | XML answers from UDP fragments, the receive loop, retries, pushed answers |
| `ControlQueue`, `StateHub` | the one-slot control queue and the latest-value hub as interleaved steps |
| `Octets`, `Wrappers`, `Least` | bytes and samples, options, least elements |

How things are modelled:

- Objects that the program updates in place are classes; each method is proved equal to a step function, and the
  results are lemmas about those functions over whole runs.
- Time is a number of nanoseconds with 0 as the zero time; clocks are inputs and never 0.
- Files, writers, callbacks and the network answer as they like: a file write may fail after storing part of its
  data, but on a disk that is declared sound none does; whether a writer opens, writes or finishes, and whether the callback succeeds, are inputs (`Io`).
- MD5 is an arbitrary function from bytes to 16 bytes; the proofs are about the bytes fed to it.
- Bytes, samples and timestamps are integers with their 8, 16 or 32 bits written out; the CRC registers are
  bit-vectors. `prefix | bits` in the coded number is a sum, since the two share no bit.

Where the code departs from RFC 9639, the model follows the code: the frame CRC uses x^16+x^12+x^5+1 where section
9.3 has x^16+x^15+x^2+1 (`Crc16Departs`), and the minimum block size in STREAMINFO counts a short last frame, which
section 8.2 leaves out; it conforms exactly when the last block is full (`MinBlockConformsExactly`). Files are
therefore shown to decode with the decoder in `Flac`, which uses the code's polynomial.

Findings worth knowing:

- `rtpTimestampBefore` is right exactly for differences from -2^31 up to but not including 2^31 (`BeforeIsRight`).
- The activity list does not always show its newest 200 rows: a row pushed out by the live one does not come back when
  that is removed. A full list keeps 200 rows exactly when the session was long enough to keep
  (`FullListAfterSession`); over runs 199 are shown exactly when the last session or connection to end was a session
  too short to keep (`RowsShown`), which does happen (`ShowsOneLess`).
- A negative activity setting stands for 0, but the settings are normalized twice, and the second time turns the 0
  into the default; a setting survives exactly when it is not negative (`NormalizedTwice`).
- A range that ends at the largest 64-bit integer is refused even when the limit allows it, because the loop counter
  wraps around (`RefusedOnlyEndless`). A printed list therefore reads back exactly when the three largest integers do
  not stand next to each other in it (`ParsePrinted`, `ReprintStable`).
- A complete XML assembly that holds a fragment numbered outside 1..last prints that fragment too; the document is
  the intended one exactly when all such bodies are empty (`StrayBodies`).
- In `runOnce` a fragment marked as the end decides the attempt: arriving over a gap it fails at once, even if the
  missing fragments are only late (`EndDecides`).

## Model

| member | source | states |
|---|---|---|
| Gf2.RegisterIsRemainder | internal/audio/recording/writer.go:316-344 | The shift register holds r if and only if message followed by r is a multiple of the generator: the remainder of message times x^w exists, is unique, and is what the register computes |
| Checksum.ComputeCrc8 | internal/audio/recording/writer.go:316-329 | The byte-wise crc8 loop returns the remainder of message times x^8 by x^8+x^2+x+1, for every message |
| Checksum.ComputeCrc16 | internal/audio/recording/writer.go:331-344 | The byte-wise crc16 loop returns the remainder of message times x^16 by x^16+x^12+x^5+1 |
| Checksum.Crc8IsRemainder | internal/audio/recording/writer.go:316-329 | A byte is the crc8 of a message exactly when it is its polynomial remainder |
| Checksum.Crc16IsRemainder | internal/audio/recording/writer.go:331-344 | A 16-bit value is the crc16 of a message exactly when it is its polynomial remainder |
| Checksum.Crc8Linear | internal/audio/recording/writer.go:316-329 | crc8 of the exclusive or of two messages is the exclusive or of their crc8s |
| Checksum.Crc16Linear | internal/audio/recording/writer.go:331-344 | crc16 of the exclusive or of two messages is the exclusive or of their crc16s |
| Checksum.Crc8Residue | internal/audio/recording/writer.go:132-133 | A message followed by a byte has crc8 zero exactly when that byte is the message's crc8 |
| Checksum.Crc16Residue | internal/audio/recording/writer.go:143-144 | A message followed by two bytes has crc16 zero exactly when they are its crc16, high byte first |
| Checksum.Crc8DetectsBurst | internal/audio/recording/writer.go:316-329 | Two messages of one length that differ only within 8 consecutive bits have different crc8s, wherever the window lies |
| Checksum.Crc16DetectsBurst | internal/audio/recording/writer.go:331-344 | Two messages of one length that differ only within 16 consecutive bits have different crc16s |
| Checksum.Crc16Departs | internal/audio/recording/writer.go:337 | The byte 1 has checksum 0x1021, where the polynomial of section 9.3 gives 0x8005 |
| CodedNumber.Encode | internal/audio/recording/writer.go:269-314 | A number is encoded if and only if it is below 2^36 |
| CodedNumber.DecodeEncode | internal/audio/recording/writer.go:269-314 | Decoding an encoding followed by any bytes returns the number and exactly the encoding's length |
| CodedNumber.PrefixFree | internal/audio/recording/writer.go:269-314 | An encoding that begins another number's encoding is that encoding |
| CodedNumber.EncodeIsShortest | internal/audio/recording/writer.go:269-314 | Every byte string that reads as a number, overlong forms included, is at least as long as its encoding, and no number from 2^36 on can be read |
| Flac.BlockSizeCode | internal/audio/recording/writer.go:169-185 | A block size has a code exactly when it lies in 1..65536 |
| Flac.SizeRoundTrip | internal/audio/recording/writer.go:169-185 | The block size table of section 9.1.1 maps each code and its extra bytes back to the size |
| Flac.HeadRoundTrip | internal/audio/recording/writer.go:123-132 | The frame header reads back as its number, block size and own length, whatever follows |
| Flac.FrameRoundTrip | internal/audio/recording/writer.go:113-167 | A frame reads back as its number and samples with both checksums valid, whatever follows |
| Flac.CorruptFrameRejected | internal/audio/recording/writer.go:143-144 | A frame changed by one burst of at most 16 bits anywhere is not accepted as a frame of its length |
| Flac.BodyStable | internal/audio/recording/writer.go:103-109 | Frames already written do not depend on samples that come later |
| Flac.SizesAreExtremes | internal/audio/recording/writer.go:150-163 | The running sizes are the least and greatest frame and block sizes of the frames written |
| Flac.SizesBounded | internal/audio/recording/writer.go:230-243 | Those sizes fit the 16- and 24-bit fields, so nothing is truncated |
| Flac.InfoRoundTrip | internal/audio/recording/writer.go:230-261 | STREAMINFO decodes to rate 8000, one channel, 16 bits, the given sizes and digest, and the total modulo 2^36 |
| Flac.FinishedFileDecodes | internal/audio/recording/writer.go:90-261 | Decoding a finished file, marker and metadata header included, gives all samples in order, in frames numbered from 0 of 1024 samples but the last, the digest of the samples' bytes low byte first, true extremes, and the exact total if and only if it is below 2^36 |
| Flac.DigestBytes | internal/audio/recording/writer.go:97-101 | The bytes fed to the digest are the samples in two's complement, low byte first, and no other bytes are |
| Flac.MinBlockConformsExactly | internal/audio/recording/writer.go:157-160 | The stored minimum block size is the size of the last block; with two blocks or more it is the minimum of section 8.2, which leaves the last block out, if and only if the number of samples is a multiple of 1024 |
| FlacWriter.Writer.New | internal/audio/recording/writer.go:47-87 | A writer starts with magic, STREAMINFO header and placeholder written, and nothing accepted; on a sound disk there always is one |
| FlacWriter.Writer.WritePCM | internal/audio/recording/writer.go:90-111 | Success leaves exactly the full blocks of everything accepted in the file and the rest pending; a closed writer refuses; a number overflow needs more than 2^36 full blocks; on a sound disk nothing else fails |
| FlacWriter.Writer.WriteFrame | internal/audio/recording/writer.go:113-167 | Success appends the frame and updates total, number and sizes; a refusal happens only for sizes or numbers without a code and changes nothing |
| FlacWriter.Writer.Finalize | internal/audio/recording/writer.go:188-215 | The final path changes only in a successful last step, and then holds the finished file, a function of the accepted samples; on a sound disk it succeeds unless there are more than 2^36 frames |
| FlacWriter.Writer.PatchStreamInfo | internal/audio/recording/writer.go:230-267 | Patching replaces the 34 bytes at offset 8 and leaves every other byte as it was |
| FlacWriter.Writer.Abort | internal/audio/recording/writer.go:218-228 | Aborting closes the writer and leaves the final path alone |
| FlacWriter.RecordClip | internal/audio/recording/writer.go:90-215 | For any series of writes and Finalize the file depends only on the concatenated samples, and decoding it gives them back; on a sound disk there is a file for up to 2^36 frames |
| Jitter.RunIsSound | internal/audio/monitor/manager.go:430-489 | Over every run frames come out in order over disjoint stretches, and each accepted frame is handed out, pending or stale, exactly one of these, with its own samples |
| Jitter.ExpectedNeverGoesBack | internal/audio/monitor/manager.go:434-485 | The expected timestamp never goes back and what was handed out stays handed out |
| Jitter.NoneTwice | internal/audio/monitor/manager.go:434-486 | Timestamps come out strictly increasing, so none twice |
| Jitter.PushBounded | internal/audio/monitor/manager.go:461-486 | After every call at most the maximum is held, and draining leaves at most one frame too many |
| RtpJitter.JitterBuffer.constructor | internal/audio/monitor/manager.go:420-428 | A buffer starts empty and not ready, with the default capacity for a non-positive one |
| RtpJitter.JitterBuffer.Push | internal/audio/monitor/manager.go:430-489 | Push drops empty and late frames, keeps the first of equal timestamps, drains, and evicts the key that sorting puts first when over capacity; capacity holds afterwards |
| RtpJitter.JitterBuffer.EvictEarliest | internal/audio/monitor/manager.go:461-486 | The overflow loop removes exactly one frame |
| RtpJitter.BeforeIsRight | internal/audio/monitor/manager.go:491-495 | The wrapping comparison agrees with the order of the unwrapped timestamps exactly for differences in -2^31..2^31-1 |
| RtpJitter.HalfRangeOrders | internal/audio/monitor/manager.go:466 | On timestamps of one half range the comparison used for sorting is a strict total order |
| RtpJitter.PushSim | internal/audio/monitor/manager.go:430-489 | While all live timestamps lie within 2^31, one call on the wrapping buffer gives the same frames and keeps the same frames as the unbounded one |
| RtpJitter.RunSim | internal/audio/monitor/manager.go:430-489 | Over whole runs, across wrap-around, the wrapping buffer hands out what the unbounded one does and holds the same frames |
| JitterStreams.PushExactly | internal/audio/monitor/manager.go:430-489 | A call takes every frame that holds samples and does not lie behind, hands out the unbroken run then there from the expected timestamp on, and over capacity lets the earliest frame go, unheard if the run is past it; anything else it drops without a trace |
| JitterStreams.StreamReassembled | internal/audio/monitor/manager.go:430-489 | Packets of a stream in any order, with repeats, the first one first and never more than the capacity waiting: at every moment exactly the part without a gap has come out, in order, and the packets beyond wait |
| JitterStreams.InOrderPlays | internal/audio/monitor/manager.go:446-458 | A stream that arrives in order comes out packet by packet, each in its own call, and the end of the packet is expected next |
| JitterStreams.WrappedStreamReassembled | internal/audio/monitor/manager.go:430-495 | The wrapping buffer puts a stream together in the same way while live timestamps keep to a half range |
| JitterStreams.WrappedInOrderPlays | internal/audio/monitor/manager.go:430-495 | On the wrapping buffer, across any number of wrap-arounds, a stream in order comes out packet by packet, each in its own call |
| ActivityDetector.Detector.Evaluate | internal/activity/detector.go:45-77 | One observation moves the detector as the step function says; the zero time is replaced by the clock |
| ActivityDetector.WatchTells | internal/activity/detector.go:45-77 | Over any samples the machine is active while the last one was, hangs from the first inactive one on, and is idle once an inactive one comes the hang time or more after that |
| ActivityDetector.ObservationTells | internal/activity/detector.go:45-77 | An observation reports the phase it leads to, whether activity begins, and whether the hang time is over |
| Recorder.Manager.constructor | internal/audio/recording/manager.go:81-103 | A manager starts idle with the defaults filled in |
| Recorder.Manager.UpdateTelemetry | internal/audio/recording/manager.go:105-162 | State, error and calls to writers are those of the step function, whose runs the lemmas below describe |
| Recorder.Manager.HandleAutoStart | internal/audio/recording/manager.go:164-201 | Automatic start as in the step function, debounce and failing opens included |
| Recorder.Manager.StartManual | internal/audio/recording/manager.go:231-262 | Manual start as in the step function |
| Recorder.Manager.StopManual | internal/audio/recording/manager.go:264-278 | Manual stop as in the step function |
| Recorder.Manager.PushPCM | internal/audio/recording/manager.go:280-306 | PCM goes to the open writer and is counted, loud samples too; a failing write aborts and faults |
| Recorder.Manager.Tick | internal/audio/recording/manager.go:308-330 | A tick as in the step function |
| Recorder.Manager.Close | internal/audio/recording/manager.go:332-342 | Closing as in the step function |
| Recorder.Manager.UpdateOutputDir | internal/audio/recording/manager.go:344-353 | A blank directory is refused, otherwise the trimmed one is used from then on |
| Recorder.Manager.UpdateAutoPolicy | internal/audio/recording/manager.go:355-371 | New policy values apply from then on; an open clip keeps its detector |
| Recorder.Manager.Begin | internal/audio/recording/manager.go:386-412 | Opening a clip, or one of the two errors with nothing changed |
| Recorder.Manager.Finalize | internal/audio/recording/manager.go:414-452 | Ending a clip: suppressed, failed with a sticky fault, or finished and reported |
| Recorder.Manager.AbortWriter | internal/audio/recording/manager.go:454-472 | The open writer is aborted once and all clip fields are reset |
| Recorder.Manager.ShouldSuppressAuto | internal/audio/recording/manager.go:474-497 | The decision to suppress is the one of the specification |
| RecorderInvariant.StepConsistent | internal/audio/recording/manager.go:105-278 | After every operation, failing ones included: manual implies an open writer; an open non-manual clip has trigger telemetry and a detector not idle; an open manual one has trigger manual or mixed; no writer means clip fields and counters are reset |
| RecorderInvariant.RunConsistent | internal/audio/recording/manager.go:105-278 | The same over every run from a new manager |
| RecorderInvariant.StepInProtocol | internal/audio/recording/manager.go:280-472 | Every operation continues the conversation with writers as the protocol allows and keeps track of where it stands |
| RecorderInvariant.RunInProtocol | internal/audio/recording/manager.go:280-472 | In every run the calls follow the protocol: a writer is opened, written to, and ended once, a finish is reported when a callback is set, and a fault is followed by an abort and then by nothing |
| RecorderOutcomes.DefaultsFilledIn | internal/audio/recording/manager.go:81-103 | A new manager has hang time 10 s and threshold 700 where none is given, and nothing open |
| RecorderOutcomes.FinalizeEnds | internal/audio/recording/manager.go:414-472 | A clip that ends is kept, from its start to that time as it was opened, and reported if wanted; dropped if automatic and not worth keeping; or, if its finish fails, aborted with a fault |
| RecorderOutcomes.StopEndsClip | internal/audio/recording/manager.go:264-342 | A manual stop and a close end the open clip in that way at their time, and do nothing without one |
| RecorderOutcomes.TickEndsClip | internal/audio/recording/manager.go:308-330 | A tick ends an automatic clip whose hang time is over, and otherwise changes nothing |
| RecorderOutcomes.AvoidEndsClip | internal/audio/recording/manager.go:124-130 | An avoided channel ends an automatic clip and starts the detector anew unless ending failed |
| RecorderOutcomes.FrequencySplitsClip | internal/audio/recording/manager.go:131-146 | Another frequency ends an automatic clip and, if active, begins the next one at that moment with the new status; an inactive update, a failing end and a failing open each leave what they should |
| RecorderOutcomes.TelemetryOnClip | internal/audio/recording/manager.go:149-161 | Any other update feeds the detector and ends an automatic clip after its hang time; a manual clip stays open whatever comes, and activity makes it mixed |
| RecorderOutcomes.TelemetryWithoutClip | internal/audio/recording/manager.go:164-201 | Without a clip inactivity gives up a pending start; activity opens one at once or after the debounce time as it was at the beginning; a failing open leaves all pending |
| RecorderOutcomes.ManualStart | internal/audio/recording/manager.go:231-262 | A manual start opens a clip or takes over the open one |
| RecorderOutcomes.PushWrites | internal/audio/recording/manager.go:280-306 | PCM is written to the open clip and counted; a failing write aborts it with a fault; without a clip nothing happens |
| RecorderOutcomes.CountsLoud | internal/audio/recording/manager.go:299-303 | The samples counted as loud are those whose magnitude reaches the threshold, -32768 read as 32767 |
| RecorderOutcomes.DirectorySet | internal/audio/recording/manager.go:344-353 | A blank directory is refused, any other taken trimmed, and nothing else changes |
| RecorderOutcomes.PolicySet | internal/audio/recording/manager.go:355-371 | A positive hang time and a minimum length are taken; only without an open clip does the detector change |
| RecorderOutcomes.RunConfig | internal/audio/recording/manager.go:344-371 | In every run the configuration in force is the one last given |
| RecorderOutcomes.ManualNotDropped | internal/audio/recording/manager.go:231-472 | In every run, once a clip is manual or mixed its writer is aborted only right after a write or its finish has failed |
| RecorderOutcomes.TriggerTells | internal/audio/recording/manager.go:149-262 | While a manually started clip stays open its trigger is mixed exactly if there was activity |
| StatusReading.ActiveExactly | internal/sds200/telemetry.go:198-220 | A transmission is active exactly when connected, not known to be older than three seconds, not saying data in any case or spacing, not muted, and with open squelch or some signal |
| StatusReading.SplitsExactly | internal/audio/recording/manager.go:216-229 | Two frequencies split a clip exactly when their figures differ, whatever spaces, case and unit they are written with; a blank one never does |
| RecorderWriters.NothingAfterEnding | internal/audio/recording/manager.go:414-472 | After a writer was finished or aborted no call names it again but for one report directly after its finish |
| RecorderWriters.OneWriterAtATime | internal/audio/recording/manager.go:386-472 | Between two openings the first writer has ended |
| RecorderWriters.ClosedMeansEnded | internal/audio/recording/manager.go:386-472 | While no writer is open, every writer ever opened has been finished or aborted |
| RecorderWriters.FaultMeansFailure | internal/audio/recording/manager.go:280-452 | In every run the manager is at fault if and only if a write or a finish has failed |
| RecorderWriters.FaultIsReturned | internal/audio/recording/manager.go:280-452 | The operation in which a write or finish fails returns the fault it leaves behind |
| RecorderWriters.FaultSticks | internal/audio/recording/manager.go:105-342 | In every run, from a fault on: the same fault, an unchanged log, no open writer, and the fault as answer to every telemetry, manual, PCM, tick and close call |
| RecorderWriters.WriterGetsItsPCM | internal/audio/recording/manager.go:280-306 | Each writer takes exactly the PCM pushed while its clip was open, in order |
| RecorderWriters.TotalCountsPCM | internal/audio/recording/manager.go:298 | totalSamples is the length of the open writer's PCM |
| RecorderWriters.LoudCountsPCM | internal/audio/recording/manager.go:299-303 | nonSilentSamples counts the loud samples of the open writer's PCM |
| RecordedFiles.KeptClipHoldsItsPCM | internal/audio/recording/manager.go:280-452 | In every run each kept clip has its writer, which was given exactly the PCM pushed while the clip was open, none of it refused |
| RecordedFiles.ClipFile | internal/audio/recording/writer.go:90-215 | A FLAC writer given what a kept clip's writer was given leaves a file that decodes to exactly the PCM pushed while the clip was open |
| RecorderTiming.ClipEndsExactly | internal/activity/detector.go:45-77 | With nothing else ending it, an automatic clip ends at exactly the first inactive sample or tick that comes hang time or more after the first inactive sample of its quiet period |
| RecorderTiming.ClipLasts | internal/audio/recording/manager.go:105-162 | Until such a moment the same clip stays open and the detector tracks the quiet period |
| RecorderTiming.SameClip | internal/audio/recording/manager.go:105-162 | With non-decreasing times, two active samples less than the hang time apart are in the same clip |
| RecorderTiming.OpenedAutomatic | internal/audio/recording/manager.go:105-201 | A telemetry update that opens a clip leaves it automatic with an active detector of the configured hang time |
| RecorderTiming.DebounceExactly | internal/audio/recording/manager.go:164-262 | A pending start, with ticks, PCM, stops and policy changes between, is decided by exactly the first active sample at least the debounce time after the first one that can open a file, inactive sample, or manual start; the first opens the clip dated and labelled from the beginning, the others leave nothing pending, and a failing open leaves it pending |
| RecorderTiming.ClipsInOrder | internal/audio/recording/manager.go:131-146 | With strictly increasing event times finished clips satisfy start < end <= next start, back-dating and splits included, and their IDs are distinct |
| RecorderTiming.AutomaticClipsLongEnough | internal/audio/recording/manager.go:474-487 | While the configured minimum is never below a bound, no purely automatic clip shorter than that bound is kept |
| RecorderTiming.KeptExactly | internal/audio/recording/manager.go:474-497 | An automatic clip is kept if and only if it is long enough, holds PCM and holds the required number of loud samples, each as far as configured; one that ends before its start has length 0 |
| RecorderTiming.ThresholdExact | internal/audio/recording/manager.go:494-495 | The two-part threshold equals floor(duration * 8000 / 10^9), with no intermediate result from 2^63 on |
| Numerals.AtoiItoa | internal/gui/scope_helpers.go:39-50 | Every 64-bit integer printed and read back is itself |
| Numerals.AtoiExactly | internal/gui/scope_helpers.go:39-50 | A text is read as a number exactly when it is a sign or none, any zeros, and the digits of a 64-bit number |
| IndexList.ParseIndexList | internal/gui/scope_helpers.go:12-60 | The parser returns the sorted set of numbers that the text's items name, or the first complaint about an item |
| IndexList.ParseMeans | internal/gui/scope_helpers.go:12-60 | A text is accepted exactly when all items are blank or lie within 0..max and none is a range up to the largest 64-bit integer, and the result is the strictly ascending union of its items |
| IndexTexts.TextAccepted | internal/gui/scope_helpers.go:12-60 | Every text of numbers and ranges in 0..max, with any spaces around them, any of the separators and any empty parts, is read as the ascending list of the numbers written |
| IndexTexts.TextRefused | internal/gui/scope_helpers.go:22-56 | The first part that is no number or ordered range within 0..max decides the text: it is refused with that part, or with its first number out of range |
| IndexList.RefusedOnlyEndless | internal/gui/scope_helpers.go:42-46 | A text that names only numbers in 0..max is refused if and only if it has a range up to the largest integer, with the wrapped counter as the number complained about |
| IndexList.AddIndex | internal/gui/scope_helpers.go:22-31 | A number in range is added once, another is handed back |
| IndexList.AddRange | internal/gui/scope_helpers.go:42-46 | A range adds each of its numbers once, or stops at the first number out of range; up to the largest 64-bit integer the counter wraps around and the range is refused |
| IndexList.SortedDistinct | internal/gui/scope_helpers.go:58 | Sorting a list without repeats gives the ascending list of its elements |
| IndexPrinter.EncodeIndexList | internal/gui/scope_helpers.go:62-85 | The printer joins the parts of the list's runs of consecutive numbers |
| IndexPrinter.PrintsRuns | internal/gui/scope_helpers.go:62-85 | A list is printed run by run: one number alone, two listed, three or more as a range, where a run goes on as long as the numbers are consecutive |
| IndexPrinter.ParsePrinted | internal/gui/scope_helpers.go:12-85 | Any list over 0..max, in any order and with repeats, printed and parsed gives the list sorted and without repeats, if and only if the three largest 64-bit integers do not stand next to each other in it; otherwise it is refused |
| IndexPrinter.ReprintStable | internal/gui/scope_helpers.go:12-85 | Printing what was parsed and parsing it again changes nothing, if and only if the three largest 64-bit integers are not all in it |
| IndexPrinter.IndexesToState | internal/gui/scope_helpers.go:87-118 | The state array is marked at exactly the listed valid positions |
| IndexPrinter.StateToIndexes | internal/gui/scope_helpers.go:97-129 | The list read off a state array is the specified one |
| IndexPrinter.IndexesMarked | internal/gui/scope_helpers.go:97-129 | That list holds exactly the marked positions, ascending |
| IndexPrinter.IndexesOfState | internal/gui/scope_helpers.go:87-129 | List to state and back gives the valid indexes sorted and without repeats |
| IndexPrinter.StateOfIndexes | internal/gui/scope_helpers.go:87-129 | State to list and back gives the same state if and only if it holds nothing but marks and zeros |
| ActivityModel.UiModel.AppendActivity | internal/gui/model.go:64-115 | A status update moves the activity state as the step function says |
| ActivityModel.UiModel.HandleActiveSample | internal/gui/model.go:117-139 | An active sample as in the step function |
| ActivityModel.UiModel.HandleInactiveSample | internal/gui/model.go:141-164 | An inactive sample as in the step function |
| ActivityModel.UiModel.FinalizeSession | internal/gui/model.go:166-193 | Ending a session as in the step function |
| ActivityModel.UiModel.SuppressPendingStart | internal/gui/model.go:195-230 | A pending start is listed as suppressed with its reason and cleared |
| ActivityModel.UiModel.PromotePendingToSession | internal/gui/model.go:249-262 | A pending start becomes the live session with the top row |
| ActivityModel.UiModel.UpdateSessionRow | internal/gui/model.go:264-272 | Only the session's own row is rewritten |
| ActivityModel.UiModel.RemoveSessionRow | internal/gui/model.go:274-280 | Only the session's own row is removed |
| ActivityInvariant.RunSound | internal/gui/model.go:64-308 | In every run a live session owns row 0 and excludes a pending start, rows and suppressed entries stay within their caps and show the newest ones, and every window, numbered, has exactly one outcome: open now, one finished row of its own, or one suppressed entry of its own, in order |
| ActivityInvariant.MarkSound | internal/gui/model.go:264-272 | Marking a live session rewrites row 0 and no other |
| ActivityRows.FullListAfterSession | internal/gui/model.go:166-193 | A list of 200 rows keeps 200 when its session ends if and only if the session lasted the minimum, else 199 |
| ActivityRows.RowsShown | internal/gui/model.go:264-308 | In every run without a live session: all permanent rows while fewer than 200; then 199 if and only if the last session or connection to end was a session too short to keep, else 200 |
| ActivityRows.ShowsOneLess | internal/gui/model.go:274-280 | A run after which 199 of 200 permanent rows are shown |
| ActivityRows.SettingsInForce | internal/gui/model.go:77 | The settings in force follow from the settings given: normalized on arrival, and once more at the first status update |
| ActivityRows.NormalizedTwice | internal/gui/app.go:63 | Settings normalized at the start survive the second normalization if and only if none was negative; a negative one ends as the default |
| ActivityRows.FinishedRowsLongEnough | internal/gui/model.go:174-185 | In every run from the start no finished row is shorter than the least minimum in force at a status update |
| ActivityTiming.WindowDecidedExactly | internal/gui/model.go:86-164 | A pending window is decided by exactly the first active sample the start debounce or more after its first, inactive sample, or disconnection; it becomes a session, dated and labelled from its samples, if and only if it has two of them and the debounce has passed, else one suppressed entry |
| ActivityTiming.SessionEndsExactly | internal/gui/model.go:86-193 | A quiet session is decided by exactly the first active sample, which resumes it, inactive sample the end debounce or more after the first inactive one, or disconnection; it then has lasted until that first one and is kept or suppressed by its length |
| ActivityTiming.DisconnectionEnds | internal/gui/model.go:99-109 | A session that is not quiet ends at the moment of the disconnection |
| ActivityTiming.LiveRowShows | internal/gui/model.go:117-164 | The row of a live session shows its start, its latest mark and its label |
| ActivityTiming.NothingOpen | internal/gui/model.go:86-110 | With nothing open a disconnection adds its row if the scanner was connected, and an inactive sample nothing |
| ActivityTiming.StillDisconnected | internal/gui/model.go:106-109 | An update that finds the scanner still disconnected adds no row |
| ActivityTiming.OpenMeansConnected | internal/gui/model.go:70-115 | In every run something is open only while connected, and it is known whether the scanner ever was |
| ActivityTiming.SettingsRead | internal/gui/model.go:373-393 | Zero stands for the default of 150, 600 or 300 milliseconds and a negative number for none |
| ActivityTiming.LabelsAreLatest | internal/gui/model.go:357-371 | Merging leaves each label field at the last non-blank value, trimmed |
| ActivityTiming.SessionLabel | internal/gui/model.go:117-124 | As long as a session is live its label merges its active samples in order, whatever inactive ones come between |
| XmlReassembly.Reassembler.Add | internal/sds200/protocol.go:195-205 | Adding keeps the first root, stores the body under its number and notes the end |
| XmlReassembly.Reassembler.Complete | internal/sds200/protocol.go:207-217 | Complete means: the end was seen and every number up to it is stored |
| XmlReassembly.Reassembler.MissingSequences | internal/sds200/protocol.go:219-230 | The missing numbers of the specification |
| XmlReassembly.MissingAreGaps | internal/sds200/protocol.go:219-230 | They are exactly the gaps, ascending |
| XmlReassembly.CompleteMeansNoGap | internal/sds200/protocol.go:207-230 | Once the end was seen, an assembly is complete if and only if nothing is missing |
| XmlReassembly.MissingMeans | internal/sds200/protocol.go:219-230 | Nothing is missing before an end is seen; after it, the numbers up to it that have not come |
| XmlReassembly.FirstRootStays | internal/sds200/protocol.go:196-199 | The first root that is not blank stays |
| XmlReassembly.LastBodyCounts | internal/sds200/protocol.go:200 | Of several fragments with one number the last one counts |
| XmlReassembly.OnlyArrived | internal/sds200/protocol.go:200 | Only numbers that have come are stored |
| XmlReassembly.LastEndCounts | internal/sds200/protocol.go:201-204 | The last end seen says how many fragments there are |
| XmlReassembly.DefaultRoot | internal/sds200/protocol.go:244-247 | Without a root the document gets one named root |
| XmlReassembly.Reassembler.Bytes | internal/sds200/protocol.go:232-256 | All stored bodies in ascending order between the root tags, and nothing before completion; a blank root is replaced by the default one then, and nothing else changes |
| XmlReassembly.CompleteWhenAllArrived | internal/sds200/protocol.go:195-217 | Complete holds exactly when every fragment of the document has come, in any order and with any repeats |
| XmlReassembly.InOrderWhenComplete | internal/sds200/protocol.go:232-256 | A complete assembly prints the bodies 1..n in order, whatever the order in which they came |
| XmlReassembly.AnyOrder | internal/sds200/protocol.go:195-256 | For fragments of one document, in any order and with any repeats, the assembly is complete exactly when all have come, and then gives the document as sent |
| XmlReassembly.StrayBodies | internal/sds200/protocol.go:236-251 | With fragments numbered outside 1..last the document is the intended one if and only if all their bodies are empty |
| XmlClient.RunOnce | internal/sds200/client.go:200-243 | The receive loop returns what the specification of one attempt says |
| XmlClient.AnswersHaveNoGap | internal/sds200/client.go:227-243 | A returned document comes from a complete assembly of fragments received in the same attempt |
| XmlClient.EndDecides | internal/sds200/client.go:227-243 | The first end decides: the document as sent if everything has come, otherwise failure naming exactly the gaps |
| XmlClient.GarbledFails | internal/sds200/client.go:228-231 | A fragment that does not parse fails the attempt at once |
| XmlClient.NoEndTimesOut | internal/sds200/client.go:201-205 | Without an end the attempt times out |
| XmlClient.UnrelatedIgnored | internal/sds200/client.go:206-214 | Datagrams about other commands change nothing |
| XmlClient.RunWithRetry | internal/sds200/client.go:177-187 | Retrying returns the first answer or the last failure |
| XmlClient.RetryMeans | internal/sds200/client.go:177-187 | An answer is that of a single attempt before which all failed; a failure means that all failed |
| XmlClient.PushStore.Handle | internal/sds200/client.go:263-280 | A pushed document is dispatched only from a complete assembly, an end leaves no assembler behind, and other commands are untouched |
| XmlClient.StoreHoldsCycle | internal/sds200/client.go:263-280 | After any arrivals the store holds for each command exactly the fragments since its last end |
| XmlClient.PushedDocument | internal/sds200/client.go:263-280 | However fragments of several commands interleave, a document is dispatched as sent exactly at the arrival that completes it within one cycle of its command |
| ControlQueue.RunSound | cmd/sigsentinel/session.go:260-306 | Over every interleaving the place of each request, the queue, the loop and the answers agree |
| ControlQueue.LeavesOnce | cmd/sigsentinel/session.go:269-275 | A request leaves the queue at most once, executed or superseded but never both |
| ControlQueue.QueueOrder | cmd/sigsentinel/session.go:410-426 | Requests leave in the order they came, and the loop finishes those it takes one at a time in that order |
| ControlQueue.AnsweredOnce | cmd/sigsentinel/session.go:269-306 | A request is answered at most once and only if it asked for it: an executed one with its result, a superseded one with that error, any other not at all |
| ControlQueue.AnsweringNeverBlocks | cmd/sigsentinel/session.go:270-273 | Whoever answers a stale or an executed request finds room in its channel |
| ControlQueue.EnqueueGetsIn | cmd/sigsentinel/session.go:260-281 | An EnqueueControl call with the lock gets its request in without waiting for the loop, and what was queued is superseded and told so |
| ControlQueue.SendGetsIn | cmd/sigsentinel/session.go:283-299 | A request that finds the queue empty enters it at once, also while another is executed |
| ControlQueue.QueuedIsExecuted | cmd/sigsentinel/session.go:410-426 | An idle loop takes the queued request, executes it and answers with its result |
| ControlQueue.AnswerIsRead | cmd/sigsentinel/session.go:300-305 | A caller whose answer is there receives it |
| ControlQueue.AbandonedAtEnd | cmd/sigsentinel/session.go:276-299 | A request is abandoned only because the session has ended |
| ControlQueue.WaitingCanGiveUp | cmd/sigsentinel/session.go:276-299 | Once the session has ended whoever still waits to send can give up |
| StateHub.Channel.PublishLatest | internal/chanutil/publish.go:3-18 | With a receiver acting between its selects, which are the same steps as in the hub, the value always gets in, nothing blocks, and at most the previously buffered value is lost |
| StateHub.RunSound | cmd/sigsentinel/state.go:53-82 | Over every interleaving of publishes, receives, subscriptions and cancellations the hub stays sound |
| StateHub.ReceivedInOrder | cmd/sigsentinel/state.go:62-82 | A subscriber gets states in publication order, none twice, none from before its subscription |
| StateHub.NewestDelivered | cmd/sigsentinel/state.go:53-60 | When no publish is under way the newest state is buffered for each subscriber or was the last one it received |
| StateHub.NoBadSend | cmd/sigsentinel/state.go:73-79 | Nothing is sent on a closed channel, and the last send of PublishLatest always finds room |
| StateHub.CancelledIsClosed | cmd/sigsentinel/state.go:73-79 | A cancelled subscriber is removed and its channel closed |
| StateHub.ClosedForGood | cmd/sigsentinel/state.go:73-79 | A closed channel stays closed and its subscriber gets nothing more |
| StateHub.PublishEnds | cmd/sigsentinel/state.go:53-60 | From every reachable state a publish under way can be brought to its end, whatever the subscribers do or fail to do |
| StateHub.AlwaysOpen | cmd/sigsentinel/state.go:62-71 | With no publish under way a publish or subscription can begin at once, a new subscriber finds the newest state, and a buffered state can be received |

## Left out

- ActivityModel.UiModel.AppendActivity: the pendingStart and session fields are grouped into two records; rows and suppressed entries are data, their text formatting is not modelled.
- Recorder.Manager.Begin: a path is kept as its directory and the values its file name is made from; formatting and sanitizing them is not modelled.
- Recorder.Manager.Finalize: time differences are exact; the saturation of Go durations beyond 292 years is not modelled.
- FlacWriter.Writer.WritePCM: after a failed write nothing is claimed about the file; the recorder aborts such a writer.
- IndexList.ParseIndexList: text is a sequence of characters; invalid UTF-8 is not modelled.
- StateHub.RunSound and ControlQueue.RunSound: goroutines, channels and locks are steps over values, not objects; that a step which can be taken is taken (fairness) is not stated.
- RecorderSpec lower-cases ASCII letters only, where Go's ToLower knows all of Unicode.
- Mutexes of the recorder, monitor and model: their methods are atomic here.
- Sockets, RTSP, FTP, UDP, audio devices, configuration and recordings on disk: input and output.
- Parsing of XML fragments and of XML itself: the models start from parsed fragments.
- u-law decoding and monitor gain: a table, and floating point with rounding as the point.
- The switch over control intents, capability tables, reconnect backoff and settings forms: single branches.
- That pushed answers of two cycles never mix: the code keeps fragments when an end is lost, so it does not promise this.
