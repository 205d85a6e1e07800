# ShowMaster kernel: verified model

A Dafny model of the algorithms and state machines at the heart of the ShowMaster kernel, with proofs of what they
promise over every input and every run:

- **JPEG** (`Jpeg*.dfy`): canonical Huffman construction, the stuffing bit writer, run-length block coding, the
  fixed-point DCT, the loop over the units of a picture. Main results: a decoder given only the bytes of the
  file (ITU-T T.81 annex B and section F.2.2) gives back the size, the tables and exactly the quantised blocks; and
  the integer transform is the DCT over the cosine, so that the inverse transform (`Orthogonal.dfy` has the algebra)
  gives every block of the picture back within a stated error.
- **CRC-32 and ZIP** (`Crc*.dfy`, `Zip*.dfy`): the table-driven checksum is the remainder over GF(2), burst
  detection, a writer and reader that undo each other, and a reader that accepts exactly the containers.
- **Timeline** (`Timeline*.dfy`): items shared between tracks and index; ticks, playback and editing; whole runs. Main
  results: every effect exactly once, independence from which ticks happened, index and tracks in agreement.
- **Playlist** (`Playlist*.dfy`): two procedures that call each other, when they end, the order of a whole run, and
  that over any run exactly the items started are played, recalled or sent.
- **SHA-256** (`Sha256*.dfy`): streaming against FIPS 180-4 sections 5.1.1 and 6.2.2, and what its constants are.
- **OSC 1.0** (`Osc*.dfy`): encoder and parser, exactly which messages survive the round trip, and exactly which
  packets parse.
- **Devices** (`Device*.dfy`): the delayed queue and the power sequencer under a simulated clock, and the driver calls
  they make.
- **Remote control** (`Remote*.dfy`): handshake gate, whitelist and reply routes over all runs.
- **Project archive** (`Project*.dfy`): media references, saving and loading, built on the container and the hash.

Code that works in place is modelled as classes and loops over the same state, proved against functions on values;
what the system promises is then proved of those functions. Callbacks and events become a log of effects. `Words.dfy`
has the arithmetic of words and bits, `Results.dfy` optional values and results.

## Where the code and its documentation part

- `src/platform/jpeg_codec.cpp:168-173` pads the last byte with a 1 and zeros, not with all ones as T.81 section
  F.1.2.3 asks; the model pads as the code does, and decoding needs no more than that fewer than 8 bits are left.
- `src/engines/timeline/timeline_scheduler.cpp:234` expects a later tick to finish a removed item that plays;
  `TimelineEditing.RemovedStaysSilent` proves that none ever does.
- `src/engines/timeline/timeline_scheduler.h:98` says items are sorted by start; after an update they need not be.
  `TimelineEditing.MoveKeepsOrderIff` says exactly when they are, and `TimelineScheduler.Scheduler.ConfigureTracks`
  that reconfiguring restores the order.
- `src/engines/timeline/timeline_scheduler.cpp:218` lets a used id take over the index;
  `TimelineScheduler.Scheduler.InsertItem` says agreement survives exactly when the id is new.
- `src/engines/device/device_engine.cpp:265` says offline devices refuse everything but power-on and query; the code
  refuses power-off, standby and emergency stop only. The model follows the code.
- `src/engines/playlist/playlist_executor.cpp:135-286` does not return when a list loops over items that are all
  skipped, or repeats a skipped one; `PlaylistExecutor.SettlesIff` gives the exact condition, which `Start` requires.
- `src/engines/timeline/timeline_engine.cpp:322` accepts a negative duration. An item can then end, and so can the
  whole timeline, before it starts: playback need not end at the total (`TimelineRuns.BackwardsNeverEnds`), and
  `TimelineRuns.TickEndsIff` says exactly when it does. Only `TimelineRuns.DurationsSuffice` assumes that no duration
  is negative; every other timeline result is for durations of any sign.

## Model

| member | source | states |
|---|---|---|
| JpegHuffman.BuildHuff | src/platform/jpeg_codec.cpp:103-114 | for any distinct values and Kraft-valid length counts the table holds the canonical code of every value, and entries of other values keep what they held |
| JpegHuffman.CodeExact | src/platform/jpeg_codec.cpp:106-113 | each code is exactly its share of the 2^16 code space and fits its length, so no code overflows |
| JpegHuffman.PrefixFree | src/platform/jpeg_codec.cpp:103-114 | no code is a prefix of another |
| JpegHuffman.DecodeIndexCorrect | src/platform/jpeg_codec.cpp:103-114 | reading bits one at a time, a decoder finds a coded value whatever bits follow and stops right after its code |
| JpegHuffman.DecodeValueCorrect | src/platform/jpeg_codec.cpp:103-114 | every value coded with a built table is decoded from its bits, leaving exactly the bits after it |
| JpegBitWriter.BitWriter.PutBits | src/platform/jpeg_codec.cpp:155-166 | the bits put so far grow by exactly the low len bits of the code; between calls fewer than 8 wait in the accumulator, above zeros, and the output is the stuffed whole bytes |
| JpegBitWriter.BitWriter.Flush | src/platform/jpeg_codec.cpp:169-181 | one 1 bit and zeros up to the byte boundary are appended, none when already aligned, and nothing is left waiting |
| JpegBitWriter.BitWriter.Drain | src/platform/jpeg_codec.cpp:159-165 | moving whole bytes out of the accumulator loses no bit |
| JpegBitWriter.MergeLemma | src/platform/jpeg_codec.cpp:157-158 | shifting and or-ing a code into the accumulator appends its bits below those already there |
| JpegBitWriter.DrainLemma | src/platform/jpeg_codec.cpp:160-162 | the byte taken is the first eight pending bits and the shifted accumulator holds the rest |
| JpegBitWriter.FlushLemma | src/platform/jpeg_codec.cpp:169-173 | or-ing in the terminating 1 pads the pending bits to a whole byte with a 1 and zeros |
| JpegBitWriter.UnstuffStuff | src/platform/jpeg_codec.cpp:163-164 | removing stuffed zeros undoes stuffing and stops where the segment ends |
| JpegBitWriter.StuffHasNoMarker | src/platform/jpeg_codec.cpp:163-164 | every 0xFF written is followed by 0x00 |
| JpegBlock.MagnitudeBits | src/platform/jpeg_codec.cpp:232-240 | the loop counts the bits of the magnitude |
| JpegBlock.ExtendEncodeMag | src/platform/jpeg_codec.cpp:244-248 | the magnitude bits and their count give back any nonzero value through EXTEND (T.81 section F.2.2.1) |
| JpegBlock.LevelBitLength | src/platform/jpeg_codec.cpp:220-222 | levels take at most 10 bits and DC differences at most 11, so every symbol asked for exists |
| JpegBlock.DecodeAcCorrect | src/platform/jpeg_codec.cpp:259-276 | from any point of a block and any pending zero run, the decoder rebuilds the rest of the block and stops right after it |
| JpegBlock.DecodeBlockCorrect | src/platform/jpeg_codec.cpp:250-277 | a coded block decodes to its 64 levels, whatever bits follow |
| JpegBlock.EncodeBlock | src/platform/jpeg_codec.cpp:250-277 | writes exactly the bits of the block and makes its DC level the prediction of its component, touching no other |
| JpegBlock.PutAc | src/platform/jpeg_codec.cpp:259-276 | the run-length loop writes the AC bits, with zero runs of 16 split off and an end-of-block mark only after trailing zeros |
| JpegBlock.PutRuns | src/platform/jpeg_codec.cpp:266-269 | runs of sixteen zeros are written until fewer remain |
| JpegTables.DcLumTable | src/platform/jpeg_codec.cpp:60-65 | the luminance DC table is Kraft-valid with distinct values and codes every size up to 11 |
| JpegTables.AcLumTable | src/platform/jpeg_codec.cpp:62-78 | the luminance AC table is Kraft-valid with distinct values and codes every run and size, ZRL and EOB |
| JpegTables.DcChrTable | src/platform/jpeg_codec.cpp:61-65 | the chrominance DC table is Kraft-valid with distinct values and codes every size up to 11 |
| JpegTables.AcChrTable | src/platform/jpeg_codec.cpp:63-91 | the chrominance AC table is Kraft-valid with distinct values and codes every run and size, ZRL and EOB |
| JpegTables.CompleteByCounting | src/platform/jpeg_codec.cpp:67-91 | 162 distinct AC symbols are all of them |
| JpegDct.ZigzagIsPermutation | src/platform/jpeg_codec.cpp:51-56 | the scan visits every coefficient exactly once |
| JpegDct.QuantNearest | src/platform/jpeg_codec.cpp:122-126 | dequantising gives back a value to within half a step |
| JpegDct.RoundNearest | src/platform/jpeg_codec.cpp:116-120 | the scaling shift rounds to nearest, symmetrically |
| JpegDct.SeparableTransform | src/platform/jpeg_codec.cpp:201-217 | rows then columns is the two-dimensional transform |
| JpegDct.HorizRange | src/platform/jpeg_codec.cpp:201-210 | every partial horizontal sum is below 2^24 |
| JpegDct.LevelBound | src/platform/jpeg_codec.cpp:212-224 | for both quantisation tables the sums stay below 2^39, every level is within 341, and the clamp to 1023 changes nothing |
| JpegDct.LevelAccuracy | src/platform/jpeg_codec.cpp:218-222 | dequantised levels reproduce the scaled coefficients to within half a quantiser step |
| JpegDct.FlatBlockIsDcOnly | src/platform/jpeg_codec.cpp:194-229 | a flat block has no AC level |
| JpegDct.DctQuantBlock | src/platform/jpeg_codec.cpp:194-229 | the three passes leave the quantised levels of the samples in scan order |
| JpegCosine.TableIsRounded | src/platform/jpeg_codec.cpp:41-50 | every entry of the integer table is 8192 times the scaled cosine, rounded, for the function that has the cosine laws |
| JpegBasis.RowsOrthonormal | src/platform/jpeg_codec.cpp:41-50 | the transform on rows is orthonormal |
| JpegBasis.ColumnsOrthonormal | src/platform/jpeg_codec.cpp:41-50 | so is its transpose |
| JpegInverse.DctSeparates | src/platform/jpeg_codec.cpp:194-217 | the double sum of T.81 section A.3.3 over the cosine is the transform by rows, then by columns |
| JpegInverse.ErrorEnergy | src/platform/jpeg_codec.cpp:194-217 | the squared error of the samples the inverse transform gives is that of the coefficients (Parseval) |
| JpegAccuracy.CoefficientNear | src/platform/jpeg_codec.cpp:201-217 | the integer sums are within a quarter of 2^28 times the transform over the cosine |
| JpegAccuracy.LevelNear | src/platform/jpeg_codec.cpp:201-222 | each level times its step is within half a step and 0.75 of the coefficient of the transform |
| JpegAccuracy.SamplesComeBack | src/platform/jpeg_codec.cpp:194-229 | the inverse transform of the dequantised levels gives the samples back within the energy of half a step and 0.75 for each coefficient |
| JpegPicture.StepsAreAnnexK | src/platform/jpeg_codec.cpp:25-38 | the quantisation tables are tables K.1 and K.2 of T.81 at quality 85 |
| JpegPicture.ZigzagWalks | src/platform/jpeg_codec.cpp:51-56 | the scan order walks the diagonals up and down, from the first coefficient on |
| JpegPicture.PixelComesBack | src/platform/jpeg_codec.cpp:302-314 | the JFIF inverse gives red, green and blue of every pixel back from the planes to within 1.5 |
| JpegPicture.EdgesGoOn | src/platform/jpeg_codec.cpp:302-324 | beyond the edges the last row and column are repeated |
| JpegPicture.ChromaSampleNear | src/platform/jpeg_codec.cpp:449-464 | a chrominance sample is the average of its four pixels to within a half |
| JpegPicture.LumaComesBack | src/platform/jpeg_codec.cpp:295-474 | from the decoded file, dequantising and the inverse transform over the cosine give each block of luminance back, where the frame places it, to a squared error of at most 7370 |
| JpegPicture.ChromaComesBack | src/platform/jpeg_codec.cpp:295-474 | the same for each block of chrominance, to at most 13215 |
| JpegScan.ScanRoundTrip | src/platform/jpeg_codec.cpp:250-277 | any sequence of blocks of levels within 1023, coded from zero predictions with the four standard tables, decodes to exactly those blocks in order, leaving exactly the bits that followed |
| JpegEncoder.NeutralColour | src/platform/jpeg_codec.cpp:133-144 | equal red, green and blue give that luminance and chrominance 128 |
| JpegEncoder.ColourComesBack | src/platform/jpeg_codec.cpp:139-143 | for every colour the JFIF inverse of the conversion gives red, green and blue back to within 1.5 |
| JpegEncoder.SegmentDecodes | src/platform/jpeg_codec.cpp:423-472 | the segment unstuffs to the scan bits with fewer than 8 padding bits, a 1 and zeros, and decodes to the blocks coded |
| JpegEncoder.FileRoundTrip | src/platform/jpeg_codec.cpp:353-473 | past its header, the file decodes to exactly the blocks of the picture |
| JpegEncoder.NoMarkerInside | src/platform/jpeg_codec.cpp:423-472 | no marker appears between the header and the end-of-image marker |
| JpegEncoder.GreyHasNoChroma | src/platform/jpeg_codec.cpp:133-144 | a picture whose pixels have equal red, green and blue has no chrominance content: every chroma level is zero |
| JpegImage.BuildPlanes | src/platform/jpeg_codec.cpp:302-324 | the three planes hold the converted pixels, the last row and column repeated out to whole units |
| JpegImage.FetchLuma | src/platform/jpeg_codec.cpp:435-443 | the copied block is the luminance of its 64 pixels |
| JpegImage.FetchChroma | src/platform/jpeg_codec.cpp:449-464 | the copied block holds the rounded averages of 2x2 pixels |
| JpegImage.ScanEncoder.PutBlock | src/platform/jpeg_codec.cpp:444-466 | transforming and coding a block appends its levels to the blocks the bit stream stands for |
| JpegImage.PutUnits | src/platform/jpeg_codec.cpp:429-469 | the units are coded row by row, four luminance and two chrominance blocks each |
| JpegImage.Finish | src/platform/jpeg_codec.cpp:471-473 | flushing and ending gives the file of the blocks coded |
| JpegImage.EncodeJpeg | src/platform/jpeg_codec.cpp:295-474 | refused pictures give no bytes; every other one gives a file that decodes, with nothing known but its bytes, to its size, its quantisation tables and exactly its quantised blocks |
| JpegDecoder.ReadHeader | src/platform/jpeg_codec.cpp:353-422 | the marker segments written read back as the two quantisation tables, the four Huffman tables, the frame and the scan, and what follows them is left |
| JpegDecoder.QuantBytesAre | src/platform/jpeg_codec.cpp:362-370 | the quantisation tables in the file are those used, in scan order |
| JpegDecoder.HeaderOrder | src/platform/jpeg_codec.cpp:392-421 | the sampling factors and the size in the frame give exactly the order in which the blocks are coded |
| JpegDecoder.FileDecodes | src/platform/jpeg_codec.cpp:353-473 | a decoder given only the bytes of the file, taking tables, size and component order from its segments, gives the size, the quantisation tables and exactly the quantised blocks of the picture |
| Crc32.BuildTable | src/project/project_zip.cpp:92-100 | entry i of the table is eight division steps from i |
| Crc32.CrcBytes | src/project/project_zip.cpp:91-108 | the table-driven loop computes the bitwise polynomial division |
| Crc32.StepInjective | src/project/project_zip.cpp:96 | a division step loses nothing |
| Crc32.FeedInjective | src/project/project_zip.cpp:102-106 | different registers stay different under the same message |
| Crc32.WindowDetected | src/project/project_zip.cpp:102-106 | different runs of up to 32 bits leave different registers |
| Crc32.BurstDetected | src/project/project_zip.cpp:91-108 | messages differing only within 32 consecutive bits have different checksums |
| Crc32.FourBytesDetected | src/project/project_zip.cpp:91-108 | messages of equal length differing only within four consecutive bytes have different checksums |
| CrcPolynomial.PolyIsGenerator | src/project/project_zip.cpp:96 | the bits of the constant are the exponents 26, 23, 22, 16, 12, 11, 10, 8, 7, 5, 4, 2, 1, 0 of the generator |
| CrcPolynomial.FeedDivides | src/project/project_zip.cpp:102-106 | feeding a message divides it: the dividend is a multiple of the generator plus the register |
| CrcPolynomial.RemainderUnique | src/project/project_zip.cpp:91-108 | a polynomial over GF(2) leaves one remainder by the generator |
| CrcPolynomial.CrcIsRemainder | src/project/project_zip.cpp:91-108 | for all data the checksum is the complement of the remainder of the message, behind 32 ones and times x^32, by the generator of exponents 32, 26, 23, 22, 16, 12, 11, 10, 8, 7, 5, 4, 2, 1, 0 |
| Zip.ZipWrite | src/project/project_zip.cpp:110-203 | the writer gives exactly the container of the entries, or the first reason to refuse them |
| Zip.BuildLocals | src/project/project_zip.cpp:119-153 | the local records follow one another, each at the offset recorded for it, up to the first entry that cannot be written |
| Zip.BuildCentral | src/project/project_zip.cpp:161-184 | the directory lists the entries in order with their offsets |
| Zip.WriteAccepts | src/project/project_zip.cpp:119-189 | entries are accepted exactly when all of them and the whole fit the 32-bit format |
| Zip.ZipRead | src/project/project_zip.cpp:206-321 | the reader gives what the container format says, or the first fault it meets |
| Zip.FindEndRecord | src/project/project_zip.cpp:215-227 | the last end record within reach of the end is found, whatever the data holds |
| Zip.ReadPackage | src/project/project_zip.cpp:206-321 | a container of fitting entries, their data arbitrary, reads back as they were recorded, or fails exactly where a checksum does not match |
| Zip.WriteThenRead | src/project/project_zip.cpp:110-321 | whatever the writer accepts reads back with the same names, data, checksums and order |
| Zip.CorruptionRejected | src/project/project_zip.cpp:303-316 | other data of the same length in place of an entry is refused whenever its checksum differs |
| Zip.BurstRejected | src/project/project_zip.cpp:303-316 | a package with one changed burst of up to 32 bits in an entry is refused |
| Zip.FourBytesRejected | src/project/project_zip.cpp:303-316 | a package with up to four consecutive bytes of an entry changed is refused |
| Zip.ReadSound | src/project/project_zip.cpp:206-321 | every entry of any container that reads has its stated checksum, and there are as many as the end record says |
| ZipLayout.ReadIff | src/project/project_zip.cpp:206-321 | reading any bytes delivers certain entries if and only if the bytes are laid out as a container of them, stated byte by byte from the signatures PK, the little-endian fields and the lengths of names, extra fields and comments |
| ZipLayout.WrittenHolds | src/project/project_zip.cpp:110-203 | what the writer accepts it lays out as the entries with their checksums |
| ZipLayout.LocalFilled | src/project/project_zip.cpp:137-148 | the fields of a local record the reader passes over: version 20, UTF-8 names, the fixed date |
| ZipLayout.CentralFilled | src/project/project_zip.cpp:166-182 | the same of a directory record |
| ZipLayout.EndFilled | src/project/project_zip.cpp:194-201 | the same of the end record: one disk, the count twice, no comment |
| TimelineScheduler.Scheduler.constructor | src/engines/timeline/timeline_scheduler.cpp:86-98 | starts stopped, with eight empty enabled tracks in agreement with an empty index |
| TimelineScheduler.Scheduler.ActivateItem | src/engines/timeline/timeline_scheduler.cpp:421-465 | activating makes the calls of the kind of track, in order, and leaves only media active |
| TimelineScheduler.Scheduler.FinishItem | src/engines/timeline/timeline_scheduler.cpp:467-477 | finishing stops media and reports the end |
| TimelineScheduler.Scheduler.TickItem | src/engines/timeline/timeline_scheduler.cpp:360-399 | one item of an enabled track makes one step of its life |
| TimelineScheduler.Scheduler.PassAll | src/engines/timeline/timeline_scheduler.cpp:357-400 | the double loop visits every item once, track by track |
| TimelineScheduler.Scheduler.Tick | src/engines/timeline/timeline_scheduler.cpp:353-419 | the shared items, the position, the state and every call are those of one tick of the schedule |
| TimelineScheduler.Scheduler.AllEnded | src/engines/timeline/timeline_scheduler.cpp:404-414 | the nested loop decides whether every item of every enabled track is done or cancelled |
| TimelineScheduler.Scheduler.Play | src/engines/timeline/timeline_scheduler.cpp:277-290 | both passes together reset every item and mark scenes already passed; nothing is called, so active items are not stopped |
| TimelineScheduler.Scheduler.Pause | src/engines/timeline/timeline_scheduler.cpp:292-294 | only a playing schedule is paused |
| TimelineScheduler.Scheduler.Resume | src/engines/timeline/timeline_scheduler.cpp:296-298 | only a paused schedule is resumed |
| TimelineScheduler.Scheduler.Stop | src/engines/timeline/timeline_scheduler.cpp:300-319 | preloaded and active items are stopped, active ones reported, and the playhead returns to 0 |
| TimelineScheduler.Scheduler.Seek | src/engines/timeline/timeline_scheduler.cpp:321-350 | an out-of-range position changes nothing; otherwise media is hushed without report, passed scenes are marked and the playhead moves |
| TimelineScheduler.Scheduler.RecalcTotal | src/engines/timeline/timeline_scheduler.cpp:165-174 | the total is the latest end over all tracks |
| TimelineScheduler.Scheduler.LowerBound | src/engines/timeline/timeline_scheduler.cpp:213-216 | bisection finds the place of a start in an ascending track |
| TimelineScheduler.Scheduler.InsertItem | src/engines/timeline/timeline_scheduler.cpp:197-222 | the right code; on success the item in its place with its computed fields, order kept; tracks, index and total agree afterwards if and only if the insertion was refused or the id was new |
| TimelineScheduler.Scheduler.RemoveItem | src/engines/timeline/timeline_scheduler.cpp:224-242 | exactly that item leaves track and index, a playing one marked aborted; agreement and order are kept |
| TimelineScheduler.Scheduler.UpdateItem | src/engines/timeline/timeline_scheduler.cpp:244-256 | exactly that item is changed where it stands, computed fields and total renewed; index and tracks agree afterwards if and only if the change keeps its id and its track |
| TimelineScheduler.Scheduler.ClearItems | src/engines/timeline/timeline_scheduler.cpp:189-195 | every track is emptied and the schedule is stopped at 0 |
| TimelineScheduler.Scheduler.ConfigureTracks | src/engines/timeline/timeline_scheduler.cpp:116-158 | a negative index changes nothing; otherwise the tracks asked for, each with the items that name it, sorted by start; the other items are dropped from the index; tracks that were in order keep their items as they were, and tracks that were not but have distinct starts are put in order |
| TimelineScheduler.Scheduler.Migrate | src/engines/timeline/timeline_scheduler.cpp:139-148 | in whatever order the index is walked, each remaining track receives exactly its items |
| TimelineTracks.WithItemIndexed | src/engines/timeline/timeline_scheduler.cpp:208-218 | indexing an item under a new id keeps index and tracks in agreement |
| TimelineTracks.WithItemClash | src/engines/timeline/timeline_scheduler.cpp:218 | indexing one under a used id breaks the agreement |
| TimelineTracks.WithoutItemIndexed | src/engines/timeline/timeline_scheduler.cpp:228-238 | removing keeps index and tracks in agreement |
| TimelineTracks.ChangeBreaks | src/engines/timeline/timeline_scheduler.cpp:244-256 | changing the id or the track of an item in place breaks the agreement |
| TimelineTracks.AgreementForRuns | src/engines/timeline/timeline_scheduler.cpp:165-242 | agreement gives unique ids and a total that covers every item, on which whole runs rest |
| TimelineConfig.ClimbingUnique | src/engines/timeline/timeline_scheduler.cpp:149-154 | a track in strict order is the only sorted arrangement of its items, so the unstable sort cannot disturb it |
| TimelineConfig.RehomedSorted | src/engines/timeline/timeline_scheduler.cpp:139-155 | items regathered and sorted are as they were where the track was in order, and in order where starts differ |
| TimelineEditing.TotalIsLatestEnd | src/engines/timeline/timeline_scheduler.cpp:165-174 | the total covers every item, and is attained or 0 |
| TimelineEditing.EndAfterRepeats | src/engines/timeline/timeline_scheduler.cpp:160-163 | an item ends its duration, once and once more for every loop, after its start |
| TimelineEditing.MoveKeepsOrderIff | src/engines/timeline/timeline_scheduler.cpp:244-256 | a moved item leaves its track in order if and only if it stays between its neighbours |
| TimelineEditing.MoveBreaksOrder | src/engines/timeline/timeline_scheduler.cpp:244-256 | moving an item past its neighbour leaves the track out of order |
| TimelineEditing.RemovedStaysSilent | src/engines/timeline/timeline_scheduler.cpp:233-238 | after removal no run ever calls anything for the item: one removed while it plays is never stopped nor reported ended |
| TimelineRuns.ApplyItemwise | src/engines/timeline/timeline_scheduler.cpp:292-477 | ticks, pauses, resumes and stops treat each item by itself |
| TimelineRuns.LifeOfRun | src/engines/timeline/timeline_scheduler.cpp:277-477 | after one play, under any ticks (even backwards), pauses, resumes and stops, each item makes exactly the calls of its state, stated outright: media is played at most once before a stop, and stopped and reported ended once for each time it was started; a scene reached after playback began before it is recalled once with its reference, fade and mode, a command sent once by its own name or else its reference, with its parameters and only if that name is not empty, each then reported done; any other kind is only reported skipped |
| TimelineRuns.StandsStill | src/engines/timeline/timeline_scheduler.cpp:292-357 | a schedule that does not play is left alone, without a call, by any ticks and pauses, and once stopped by resumes |
| TimelineRuns.PauseLeavesNoTrace | src/engines/timeline/timeline_scheduler.cpp:292-298 | a pause that is resumed leaves no trace, whatever ticks and pauses come between |
| TimelineRuns.SeekItemwise | src/engines/timeline/timeline_scheduler.cpp:321-350 | a seek hushes media that plays or is preloaded, marks the scenes passed, and leaves every other item as it was |
| TimelineRuns.SettlesIff | src/engines/timeline/timeline_scheduler.cpp:366-399 | a tick at or past the end of an item settles it if and only if it has begun or its start is reached; otherwise its duration is negative |
| TimelineRuns.TickEndsIff | src/engines/timeline/timeline_scheduler.cpp:402-418 | a playing tick ends playback if and only if it is at or past a positive total and no item of an enabled track still waits for a later start |
| TimelineRuns.RunReachesEnd | src/engines/timeline/timeline_scheduler.cpp:353-418 | at or past a positive total, playback ends if and only if no enabled item still waits for a later start, and every other enabled media item has been played once and stopped once, durations of any sign |
| TimelineRuns.DurationsSuffice | src/engines/timeline/timeline_scheduler.cpp:160-163 | where no duration is negative, no item can still wait at or past the total, so playback ends |
| TimelineRuns.BackwardsNeverEnds | src/engines/timeline/timeline_scheduler.cpp:402-418 | with a negative duration, which a load accepts, a tick past the total can leave playback going and the item unplayed: a schedule where it does |
| TimelineTicks.TicksGiveTimes | src/engines/timeline/timeline_scheduler.cpp:277-477 | after playing and any forward ticks each item, of whatever duration, is in the state, and has made the calls, given in closed form by where playback started and the last tick |
| TimelineTicks.GranularityIrrelevant | src/engines/timeline/timeline_scheduler.cpp:353-400 | two series of forward ticks ending at the same position give every item the same calls and the same phase |
| TimelineTicks.ReachedWithinGap | src/engines/timeline/timeline_scheduler.cpp:353-382 | ticks that follow the start of playback and each other by no more than a gap first reach a later position less than that gap after it |
| TimelineTicks.ActivatedAtFirstReach | src/engines/timeline/timeline_scheduler.cpp:374-381 | an item is activated at the first tick at or past its start |
| TimelineTicks.BegunWithinGap | src/engines/timeline/timeline_scheduler.cpp:353-382 | the latency bound: under ticks no more than a gap apart, a media item that begins does so at or after its start and less than the gap late |
| TimelineTicks.PreloadsOfRun | src/engines/timeline/timeline_scheduler.cpp:366-373 | over any forward ticks media is asked to preload at exactly the ticks from its preload time on and before its start, until it accepts |
| TimelineEdits.EditAll | src/engines/timeline/timeline_scheduler.cpp:116-242 | any sequence of insertions under unused ids, removals, clearings and reconfigurations leaves every track strictly sorted by start, the index holding exactly the items on the tracks, and the total their latest end or 0 |
| TimelineEngine.Validate | src/engines/timeline/timeline_engine.cpp:304-344 | the validation loop gives the first fault in list order, and accepts only records with distinct non-empty ids and slots on existing tracks |
| TimelineEngine.Load | src/engines/timeline/timeline_engine.cpp:296-356 | a rejected load changes nothing; an accepted one stops the schedule and leaves exactly the listed items, in order |
| TimelineEngine.ApplyStaged | src/engines/timeline/timeline_engine.cpp:347-349 | once validated, no insertion fails |
| TimelineEngine.UpdateItem | src/engines/timeline/timeline_engine.cpp:254-295 | the right code; a conflict changes nothing; a successful move keeps starts within every track distinct |
| PlaylistExecutor.PlaylistExecutor.Load | src/engines/playlist/playlist_executor.cpp:68-78 | the list becomes its sorted permutation, before the first item |
| PlaylistExecutor.PlaylistExecutor.ExecuteCurrent | src/engines/playlist/playlist_executor.cpp:135-212 | skips to the next playable item, round the loop at most once, and performs it, or ends the list; the mutual recursion ends because the distance to where it settles shrinks |
| PlaylistExecutor.PlaylistExecutor.AdvanceFrom | src/engines/playlist/playlist_executor.cpp:238-286 | ends the current item and executes from the one that follows in this loop mode |
| PlaylistExecutor.PlaylistExecutor.Start | src/engines/playlist/playlist_executor.cpp:80-94 | only a loaded list starts, an empty one with error 5002; it returns wherever execution settles |
| PlaylistExecutor.PlaylistExecutor.Pause | src/engines/playlist/playlist_executor.cpp:96-102 | media stops and a list under way pauses |
| PlaylistExecutor.PlaylistExecutor.Resume | src/engines/playlist/playlist_executor.cpp:104-111 | a paused list performs its current item again |
| PlaylistExecutor.PlaylistExecutor.Go | src/engines/playlist/playlist_executor.cpp:119-124 | a waiting list advances |
| PlaylistExecutor.PlaylistExecutor.Next | src/engines/playlist/playlist_executor.cpp:126-133 | a list under way stops its media and advances |
| PlaylistExecutor.PlaylistExecutor.Tick | src/engines/playlist/playlist_executor.cpp:288-324 | a finished item leads on as its trigger says; the timecode branch cannot be reached |
| PlaylistExecutor.PlaylistExecutor.IsCurrentDone | src/engines/playlist/playlist_executor.cpp:214-236 | whether the current item is over, by its type |
| PlaylistExecutor.ExecuteSkips | src/engines/playlist/playlist_executor.cpp:144-162 | executing from an item to skip is refusing it, ending it and executing from the next |
| PlaylistExecutor.SettlesIff | src/engines/playlist/playlist_executor.cpp:135-286 | the recursion ends if and only if the list does not loop, or loops over some playable item, or repeats a playable one |
| PlaylistExecutor.LoneSegmentNeverSettles | src/engines/playlist/playlist_executor.cpp:144-162 | a list of one segment, looping either way, is skipped over for ever |
| PlaylistExecutor.ApplySteady | src/engines/playlist/playlist_executor.cpp:80-324 | running, waiting or paused always means at a playable item, so every operation but start always returns |
| PlaylistExecutor.SortItems | src/engines/playlist/playlist_executor.cpp:71-74 | the sort gives an ordered permutation |
| PlaylistRuns.StartedInOrder | src/engines/playlist/playlist_executor.cpp:80-324 | without loops, under any starts, ticks, goes and nexts, the items started are a prefix of the playable ones in order, once each, and all of them when the list has ended; every item has then ended once and each skipped one raised one 5003 |
| PlaylistRuns.PlayableBelowIs | src/engines/playlist/playlist_executor.cpp:144-162 | the list of playable positions is ascending and complete |
| PlaylistCalls.RunPerforms | src/engines/playlist/playlist_executor.cpp:135-286 | over any run of any operations in any loop mode the calls made are exactly those due for the items started, in order and once each: media played with its reference and metadata, scenes recalled with their fade, commands sent with their parameters unless unnamed; each comes directly before the start of its item |
| PlaylistCalls.AdvanceStarts | src/engines/playlist/playlist_executor.cpp:238-286 | leaving an item ends it and starts the one that follows: itself when one item loops, else the next playable one, from the first again when the list loops, and none when it is over |
| PlaylistCalls.DelayLasts | src/engines/playlist/playlist_executor.cpp:181-227 | a delay that leads on by itself is ended by a tick exactly when its time has passed since it began |
| PlaylistCalls.TriggerDelayLasts | src/engines/playlist/playlist_executor.cpp:296-318 | an item that leads on after a delay is left exactly when that delay has passed since its content was over |
| PlaylistCalls.GoIsAwaited | src/engines/playlist/playlist_executor.cpp:119-124 | media is left alone until it is over; an item that waits for a go is then held, and a go leaves it |
| PlaylistCalls.ResumesWhereItWas | src/engines/playlist/playlist_executor.cpp:96-111 | a list paused and resumed starts the item it was at once more and no other, and in between no tick, go or next moves it |
| PlaylistCalls.StopsMediaIff | src/engines/playlist/playlist_executor.cpp:96-133 | media is stopped by a pause or a next of a list under way and by a stop, and by nothing else |
| Sha256.PrepareSchedule | src/core/util.cpp:100-109 | the sixty-four words are the message schedule of the block |
| Sha256.RunRounds | src/core/util.cpp:110-121 | the loop runs the sixty-four rounds |
| Sha256.Context.CompressBuffer | src/core/util.cpp:100-124 | the state becomes the compression of the state and the buffered block |
| Sha256.Context.constructor | src/core/util.cpp:91-98 | starts from the initial hash value with nothing fed |
| Sha256.Context.Update | src/core/util.cpp:126-134 | any number of bytes extends what has been fed, whole blocks folded and the rest waiting, for every split into calls |
| Sha256.Context.Final | src/core/util.cpp:136-165 | the hexadecimal digest of everything fed: the block function folded over its padding (FIPS 180-4 section 5.1.1) |
| Sha256.FoldConcat | src/core/util.cpp:126-134 | folding over a concatenation is folding in turn |
| Sha256.OctetAt | src/core/util.cpp:154-155 | the length bytes are the shifted length, one byte at a time |
| Sha256.PaddingInjective | src/core/util.cpp:138-156 | different messages below 2^64 bits are padded differently |
| Sha256.HexInjective | src/core/util.cpp:158-164 | equal hexadecimal digests are equal digests |
| Sha256.Sha256Hex | src/core/util.cpp:169-174 | hashing in memory gives the digest |
| Sha256.Sha256FileHex | src/core/util.cpp:176-190 | hashing a file 64 KiB at a time gives the digest of its content, for every length; an unreadable file gives none |
| Sha256.Sha256Chunks | src/core/util.cpp:126-165 | the digest of chunks fed one after another is that of their concatenation |
| Sha256Values.RoundConstant | src/core/util.cpp:78-87 | the round constants are the first 32 bits of the fractions of the cube roots of the first sixty-four primes |
| Sha256Values.InitialValue | src/core/util.cpp:91-96 | the initial hash value is made of the fractions of the square roots of the first eight |
| Sha256Values.Chooses | src/core/util.cpp:114 | Ch takes the bits of its second word where the first has ones, of the third where it has zeros |
| Sha256Values.Majority | src/core/util.cpp:117 | Maj takes the bit that two of its words agree on |
| Sha256Values.Rotates | src/core/util.cpp:89 | a rotated word has its upper bits moved down and the lowest above them |
| Sha256Values.AbcDigest | src/core/util.cpp:126-165 | the digest of the one-block message abc is the one FIPS 180-2 section B.1 publishes, through schedule, rounds, byte orders and digits |
| OscAdapter.EncodeMessage | src/protocols/osc_adapter.cpp:218-271 | the packet is address, tags and data, each filled up to a multiple of four |
| OscAdapter.ParsePacket | src/protocols/osc_adapter.cpp:133-216 | parses a message or the first element of a bundle, and always ends |
| OscAdapter.ParseArg | src/protocols/osc_adapter.cpp:172-211 | one argument and where the next begins |
| Osc.EncodedAligned | src/protocols/osc_adapter.cpp:218-271 | packets fill whole words |
| Osc.ReadsArg | src/protocols/osc_adapter.cpp:172-268 | the parser reads back what the encoder wrote of an argument, wherever it stands |
| Osc.ParsedIsCarried | src/protocols/osc_adapter.cpp:133-216 | whatever a packet parses to has no zero byte in address, tags or strings, and is never addressed to the bundle name |
| Osc.RoundTripIff | src/protocols/osc_adapter.cpp:133-271 | parsing gives back exactly what was encoded if and only if strings and tags have no zero byte and the address is not #bundle |
| Osc.BundleIsFirst | src/protocols/osc_adapter.cpp:139-146 | a bundle parses as its first element |
| Osc.NestedRoundTrip | src/protocols/osc_adapter.cpp:139-146 | the round trip holds inside any depth of bundles |
| OscLayout.ReadIff | src/protocols/osc_adapter.cpp:172-211 | an argument is read if and only if it stands there complete, stated byte by byte: big-endian numbers, texts up to a zero byte or the end, blobs with their length, each filled up to a whole word |
| OscLayout.RefusedIff | src/protocols/osc_adapter.cpp:172-211 | it is refused exactly when a number, a length or the data of a blob is cut short by the end of the packet |
| OscLayout.ParsesIff | src/protocols/osc_adapter.cpp:147-216 | a packet that is no bundle parses as a message if and only if it is laid out as that message; one that ends before the comma of its type tags has no arguments |
| OscLayout.EncodedStands | src/protocols/osc_adapter.cpp:218-271 | the packet of a message is laid out as that message |
| OscLayout.EncodedLength | src/protocols/osc_adapter.cpp:218-271 | and has nothing else in it |
| DeviceEngine.DeviceEngine.ApplyAt | src/engines/device/device_engine.cpp:249-316 | calls the driver, refuses what an offline device refuses, or carries the action out |
| DeviceEngine.DeviceEngine.PerformAt | src/engines/device/device_engine.cpp:274-315 | the device takes its new state; an emergency stop also ends the sequence and powers every other device off |
| DeviceEngine.DeviceEngine.ExecAction | src/engines/device/device_engine.cpp:147-159 | a delayed action joins the queue, any other is applied at once |
| DeviceEngine.DeviceEngine.BatchAction | src/engines/device/device_engine.cpp:161-175 | the devices of the group are queued in registry order, a gap apart from now |
| DeviceEngine.DeviceEngine.Drain | src/engines/device/device_engine.cpp:186-197 | erasing in place while walking consumes exactly what is due, in queue order, and keeps the rest |
| DeviceEngine.DeviceEngine.RunSequence | src/engines/device/device_engine.cpp:202-231 | one step of the sequencer |
| DeviceEngine.DeviceEngine.UpdateClock | src/engines/device/device_engine.cpp:179-238 | a clock that advances consumes what is due and then steps the sequence |
| DeviceEngine.DeviceEngine.TriggerSequence | src/engines/device/device_engine.cpp:123-135 | a known non-empty sequence starts from its first step |
| DeviceRuns.EmergencyStopsAll | src/engines/device/device_engine.cpp:254-312 | an emergency stop succeeds exactly when the device is online and its driver answers, and then no sequence runs and every device is off |
| DeviceRuns.ConsumingTells | src/engines/device/device_engine.cpp:186-197 | what is due is consumed once each, in order, and on time |
| DeviceRuns.SteppingTells | src/engines/device/device_engine.cpp:199-231 | an update runs at most one step, at its turn, with the delay before it kept |
| DeviceRuns.OpTells | src/engines/device/device_engine.cpp:51-231 | every operation keeps all of what RunTells says, and runs at most one step |
| DeviceRuns.RunTells | src/engines/device/device_engine.cpp:51-231 | over any run of any engine with a sound past, starts, stops, triggers and definitions included: every action ever queued is consumed once and on time, dropped by a stop or waiting; the steps run since the latest trigger are the first of the sequence, in order, with more than their delay between them; it ends early if and only if an abort, a stop or a successful emergency stop came |
| DeviceRuns.FreshIsSound | src/engines/device/device_engine.cpp:51-61 | an engine that has queued and started nothing has a sound past |
| DeviceRuns.TriggerStarts | src/engines/device/device_engine.cpp:123-135 | a trigger starts from the first step with nothing run, whatever went before |
| DeviceRuns.ConsumedOnce | src/engines/device/device_engine.cpp:147-197 | no queued action is consumed twice, and each one is consumed, dropped by a stop, or waits, and only one of these |
| DeviceRuns.OpHalts | src/engines/device/device_engine.cpp:137-312 | after an abort, a stop or an operation that made a successful emergency stop no sequence runs |
| DeviceRuns.StoppedStays | src/engines/device/device_engine.cpp:202-231 | over any run without a trigger, a sequence that is not running stays so and runs no step |
| DeviceRuns.HaltIsFinal | src/engines/device/device_engine.cpp:57-312 | once an abort, a stop or a successful emergency stop has come, wherever in a run, no further step is run until a trigger |
| DeviceRuns.EmergencyStopEnds | src/engines/device/device_engine.cpp:286-312 | a run with a successful emergency stop and no trigger ends with no sequence running |
| DeviceActs.ActionDoes | src/engines/device/device_engine.cpp:249-316 | what one action does, for each kind of action: driver call, fault without an answer, refusal while offline, power and error afterwards, the change reported, and every other device powered off by an emergency stop |
| DeviceActs.PowerIsTold | src/engines/device/device_engine.cpp:249-330 | over any run the reported changes tell the power of every device |
| DeviceActs.UpdateActs | src/engines/device/device_engine.cpp:179-231 | directly after every action consumed and every step run the driver of its device is called with that very action and parameter, where a registered device has one, and no driver is called otherwise |
| DeviceActs.StepsCarriedOut | src/engines/device/device_engine.cpp:199-231 | with a sound past, the steps run carry out the actions of the sequence last triggered |
| RemoteSessions.RemoteSessions.OnLine | src/app/main_headless.cpp:345-397 | a line makes one request and is passed on or refused |
| RemoteSessions.RemoteSessions.OnMessage | src/app/main_headless.cpp:319-330 | a reply with a route is sent back by it, and the route is spent |
| RemoteSessions.RemoteSessions.OnDisconnect | src/app/main_headless.cpp:334-343 | a lost connection leaves neither its handshake nor any of its routes |
| RemoteSessions.RemoteSessions.RememberRoute | src/app/main_headless.cpp:274-283 | a new route is made and the oldest beyond the limit are forgotten |
| Remote.PassedIff | src/app/main_headless.cpp:369-396 | over any run a line becomes a command if and only if it is remote.hello, or an allowed command (transport. or playlist. with more behind it, scene.recall, sys.set_volume, sys.ping) from a connection that said hello since it was last lost; otherwise it is refused |
| Remote.WhitelistIs | src/core/op_dict.cpp:127-136 | the whitelist is exactly the commands so listed |
| Remote.ClientIdIs | src/app/main_headless.cpp:286-290 | every key names exactly one client, the part behind its last colon |
| Remote.GreetedIffSaidHello | src/app/main_headless.cpp:372-380 | the session table says exactly who said hello since last lost |
| Remote.RunTracks | src/app/main_headless.cpp:270-343 | over any run with fresh ids the routes are exactly those of open requests among the last 512 |
| Remote.RoutesBounded | src/app/main_headless.cpp:274-283 | over any run, ids used again included, the route table stays within 512 and its keys within the queue |
| Remote.SentIff | src/app/main_headless.cpp:319-330 | a reply is sent if and only if it answers an open request among the last 512 made, and then to the client that the key of its connection names behind its last colon; never after that connection was lost |
| Remote.SentOnce | src/app/main_headless.cpp:319-330 | each request is answered at most once |
| ProjectFiles.WalkRefs | src/project/project_archive.cpp:53-78 | the recursive walk appends the references of a value |
| ProjectRefs.WalkFinds | src/project/project_archive.cpp:53-78 | the walk finds exactly the texts below the media directory, at whatever depth |
| ProjectFiles.CollectMediaRefs | src/project/project_archive.cpp:119-136 | collects, joins and sorts the references |
| ProjectRefs.CollectedIs | src/project/project_archive.cpp:119-136 | the references are in strict path order, each path once, to exactly the media texts, with the first hash met for the path |
| ProjectRefs.ShaIsGiven | src/project/project_archive.cpp:59-71 | the hash collected for a path is one that some object at any depth gives for it, under packed or else packed_path with sha256, and there is none only if none is given |
| ProjectFiles.VerifyPackRefs | src/project/project_archive.cpp:81-92 | the first fault in path order: 4003 for a missing entry, 4001 for a wrong hash |
| ProjectFiles.PackFiles | src/project/project_archive.cpp:170-198 | files are packed under their hash, the same content once, and recorded |
| ProjectFiles.RecheckPackage | src/project/project_archive.cpp:222-253 | the checks made on the package read back |
| ProjectArchive.RecheckOnlyMedia | src/project/project_archive.cpp:222-253 | container and manifest checks after writing cannot fail; the media check fails exactly when the written entries lack media |
| ProjectFiles.SaveProject | src/project/project_archive.cpp:138-253 | the bytes of a checked package, or the first error |
| ProjectFiles.LoadProject | src/project/project_archive.cpp:296-357 | all of the manifest, or an error |
| ProjectArchive.SaveThenLoad | src/project/project_archive.cpp:138-357 | what was saved loads as the manifest that was written, when parsing undoes printing on that manifest |
| ProjectArchive.PackedAll | src/project/project_archive.cpp:170-198 | after packing, every file has an entry of its name and checksum and a record with the hash and size of what the entry holds, every entry is one of the files, and no two share a name |
| ProjectArchive.PackAcceptsIff | src/project/project_archive.cpp:170-198 | packing succeeds if and only if every file can be read and files that get the same name have the same checksum |
| ProjectArchive.LoadedIsComplete | src/project/project_archive.cpp:81-92 | in a packed project that loads, every media text at any depth names an entry, and where objects give hashes for it the hash of its bytes is one of them |
| ProjectArchive.VerifyIs | src/project/project_archive.cpp:81-92 | verification gives 4003 for a missing entry and 4001 for one of another hash, whichever comes first in path order, and 0 only if there is neither |
| ProjectArchive.NameForIs | src/project/project_archive.cpp:159-181 | a file is packed below media/ under the first sixteen digits of its hash, a low line and its own name |
| ProjectArchive.RecordTells | src/project/project_archive.cpp:194-198 | the record of a packed file points to its entry and gives its hash, its own name and its size |
| ProjectArchive.OtherRecordsKept | src/project/project_archive.cpp:162-198 | packing keeps the record of every name that no packed file gets |
| ProjectArchive.PreparedIs | src/project/project_archive.cpp:144-206 | when a save goes ahead, and that its manifest gets the time of saving and the records while every other member stays as it was |

## Left out

- FFmpeg, audio and graphics back ends, the user interfaces, HTTP and sockets, services and watchdogs: foreign calls.
- Threads and atomics: each public call is one atomic step, and callbacks do not re-enter their engine.
- Callbacks are taken to be set; answers of callbacks (preload accepted, media done, driver answered) are parameters.
- 64-bit and `int` arithmetic outside words is unbounded: in the DCT the ranges are proved small enough, elsewhere
  (times, positions, durations) overflow is not modelled.
- The JPEG header is a function of the picture's size rather than a sequence of pushes, and the writer object is made
  after it.
- The check `eocd + 22 > size` in the ZIP reader cannot be reached and is not modelled; `put16` and `put32` are functions.
- Reading and writing files, backup rotation, renaming and directories when saving a project: the bytes of a package
  stand for its file. The empty-path checks are left out with them.
- JSON text: printing and parsing are parameters that undo each other on the manifest saved, and manifest validation is a parameter. A
  project whose `save_mode` is not a text is refused with 4001, where the original throws.
- Timeline metadata, load and update records are already decoded; generated item ids are part of the record.
- The overload of `configure_tracks` that the constructor uses is modelled in the constructor only.
- Bisection on a track that is out of order gives some place within the track, whichever the library would choose.
- OSC packets of 4 to 7 bytes that begin like a bundle are rejected whether or not the bytes after them, which the
  original compares too, complete its name. Lengths that overflow `int` have the outcome Undefined. Floats are bits.
- Device telemetry, its random drift and polling; adding and removing devices: the registry is given in key order.
- Queue numbers, the clock an action was queued at, and the count of driver calls are model bookkeeping.
- Fading, effects, lighting, MIDI and DMX, sessions, tokens, NDC geometry and pixel tiling: easy or floating point.
- PlaylistExecutor.PlaylistExecutor.Tick: no bound on how long a delay lasts, because the waiting flag outlives
  a delay item that leads on by itself, and start, go and next count from time 0.
- DeviceRuns.RunTells: with a clock that never goes back and without redefining the sequence that runs.
- JpegDecoder.FileDecodes: the decoder is a specification, of baseline files with three components of which the last two
  share their tables; it stops at the quantised blocks.
- Remote.RunTracks: with request ids that are never reused.
- JpegCosine.TableIsRounded: the cosine is any function with the laws in `IsCosine`; that there is one is analysis and
  not proved here.
