# Models of the NRTS utilities

This project models the part of the repository that has the hardest behaviour to get right, and proves what it
keeps and what it does not.

* **wdcat** (`Wdcat*.dfy`) sorts CSS 3.0 wfdisc records, copies their samples into one new waveform file, and
  writes merged index records. Proved: exactly when the comparison is the lexicographic order, and exactly when it is
  a total preorder at all; the output corresponds one to one to the maximal runs of records that continue each other;
  extents tile the new file; nothing is gained or lost; a new record reads back the samples of its run, word by word,
  exactly where all of them have one word size; the end time of a merged record is off by less than m - 1 sample
  intervals; and merging the result again, through any sort, changes nothing exactly under a condition on junctions,
  widths and ties.
* **Steim 1** (`Steim*.dfy`), the compressor and decompressor of libutil: differences gathered into words by a
  table-driven automaton, words into frames with a key word, and back, on hosts of either byte order. Proved: the
  tables, which see one difference at a time, form the words that looking ahead would form; the output is these words,
  cut where it is full, and the same on every host but for one key word in one case; decompressing it gives back the
  samples exactly where the second one differs from the first by what fits two bytes and that case does not arise; and
  exactly when the header names the last sample of its block.
* **The display** (`VerticalRange`, `PixelMap`, `TimeWindow`, `Display`) of crtdqt-isi: the vertical range of a
  window under autoscale, zoom and shift; strips, hit testing, and the maps between samples and pixels with their
  errors; the buffered time window with the view that moves in it; and the objects that hold them.
* **The start/stop protocol** (`Stop*.dfy`, `LateZoom.dfy`) of crtdqt-isi: the GUI, acquisition, draw, interrupt
  and stop threads as interleaved steps over a FIFO event queue and three mutexes. Proved for every interleaving:
  when the stop event is handled every thread has ended; the window list changes only then; no event and no frame of
  data is lost or doubled; no cycle of waits can form; a stop can complete by itself exactly if no call of the ISI
  library waits for the server, cannot be made to hang by any order of the threads exactly if moreover none is about
  to wait with the break flag clear, and, where a call waits with the flag set, can complete exactly if the server
  answers; data blocks are scanned under the mutex that appending takes except in one handler; and a window of an
  empty list is used exactly when a zoom request is handled after its run.
* **The channel table** (`Channel*.dfy`, `Floats.dfy`): insertion by unique keys over lists of objects, deep copy, and
  the text file with rates that pass through a C float. Proved: saving and loading restores a table exactly if and only
  if four conditions hold that can be read off the table.
* **wddel** (`Wddel.dfy`), **wdchk** (`Wdchk*.dfy`), **aps** and **aps-gsras** (`Aps*.dfy`, `Statistics.dfy`) and
  **bswap** (`Bswap.dfy`, `SwapWords.dfy`): two-pass grouping, coverage of a time window and linked lists searched
  in place, an automaton that pairs lines with two-pass statistics, and words reversed in a refilled buffer.

`Sorting`, `Grouping`, `CLib`, `Cssio` and `Wrappers` hold what these share: sorts of a preorder, maximal runs,
C's comparison and division, wfdisc records.

Code that changes state is modelled by methods on classes or arrays, each proved against a function of its inputs or
of the old state; the theorems are lemmas about those functions. Doubles are reals and C integers are unbounded, but
for Steim's 32-bit differences and the float that rates are scanned into. Files are a map from path to bytes, clocks
and window sizes are parameters, and so are the results of the C library's `atoi`, `atof` and sort routine.

## Findings

The properties below fail in the code as it stands. An entry names the lemma with an input that fails and, after
"exactly", the lemma with the condition under which the property holds for all inputs.

* `wdcompare` truncates a difference of times to an integer, so it is not transitive in general
  (`WdcatOrder.CompareIsNotTransitive`). It is a total preorder exactly under `WdcatOrder.CompareIsPreorderIff`, and
  the lexicographic order exactly under `WdcatOrder.CompareIsLexIffSpaced`.
* `continuous` does not compare data types. A run that mixes word sizes yields a record that does not read back its
  samples (`WdcatSamples.MixedWidthsMisread`), even where it claims the right number of bytes
  (`WdcatSamples.EqualSizesMisread`); exactly `WdcatSamples.NewRecordReadsItsRun`.
* Merging wdcat's output again can merge more when junctions are inexact (`WdcatAgain.InexactIndexIsMergedFurther`),
  and can reorder new records that tie (`WdcatAgain.TiedIndexIsReordered`); exactly
  `WdcatAgain.RemergeIsIdentityIff`.
* Steim 1 does not survive the round trip when the second sample needs a four-byte difference
  (`SteimInputs.FarSecondSampleIsLost`), because the decompressor passes over a leading one-difference word without
  counting it; nor, on a host that is not big-endian, when the final flush completes the last frame
  (`SteimInputs.FlatBlockFallsShort`). Exactly `SteimFacts.RoundTripIff`.
* In that second case the key word of the last frame is swapped twice, once when the frame is complete and once after
  the flush, and differs from that of a big-endian host (`SteimInputs.FlatBlockFallsShort`); exactly
  `SteimFacts.KeySwappedIff`.
* Saved differences and the state survive a call of the compressor that fills its output
  (`SteimInputs.JumpLeavesOneBehind`, `SteimInputs.JumpLeavesStatics`); exactly the condition in
  `Steim.Compressor.Csteim1`. A later call writes them in place of its own (`SteimInputs.LeftoverSpoilsNext`).
* The decompressor reports failure for an array of exactly the right size, however well it fills it
  (`SteimInputs.TwoSamplesFail`), and success for one it fills badly (`SteimInputs.FarSecondSampleIsNotMissed`);
  exactly `SteimFacts.ExactArrayIff`.
* The last sample that a full block names in its header may be the one before its last (`SteimInputs.HeaderLags`) or
  one that is not in it (`SteimInputs.HeaderIsAhead`); exactly `SteimEnds.HeaderIsLastIff`.
* Expanding undoes contracting only on even ranges, contracting undoes expanding only on ranges divisible by four
  (`VerticalRange.ExpandAfterContract`, `VerticalRange.ContractAfterExpand`).
* The amplitude under the mouse is rounded by adding a half and truncating. Where a count is a whole number of rows a
  negative amplitude is shown one count too high (`PixelMap.WholeRowsReadBack`); on coarser plots it can come out
  right (`PixelMap.CoarseRowsReadBack`); exactly `PixelMap.ReadBackIsExactIff`.
* A slash in a dfile field can make wddel unlink one file twice (`Wddel.SlashUnlinksTwice`); exactly
  `Wddel.DistinctIffContiguous`.
* The toolbar accepts clicks again before the stop event is handled. A zoom clicked then reaches an empty window
  list (`StopWitness.LateZoomHappens`); exactly `LateZoom.EmptyListUsedIffLateZoom`.
* A Stop clicked while a read waits for a frame may never take effect: the library looks at the break flag between
  frames only, and a server that accepts every reconnect and sends nothing keeps it from looking
  (`StopWitness.StopCanHang`). One clicked just before a read looks at the flag can still go either way
  (`StopWitness.StopCanGoEitherWay`). It is sure to take effect exactly under `StopProgress.StopIsSureIff`; when it can
  is `StopProgress.StopCompletesIff` and, for a call that waits, `StopProgress.BlockedStopCompletesIffAnswered`.
* `OnAutoScale` releases Critical before it scans the blocks, so a block can be appended meanwhile, with and without
  the shift key (`StopWitness.ScalingRacesWithAppend`); exactly `StopSafety.ScanHoldsCriticalIff`.
* A location code `__` comes back as two blanks from a saved table (`ChannelFile.UnderscoresAreLost`), and a rate of
  0.1 Hz as another number (`ChannelRates.TenthIsLost`); exactly `ChannelFile.RestoredExactlyIff`.
* wdchk's percentage is negative for a record that ends before it begins inside the window
  (`WdchkCoverage.InvertedIsNegative`); exactly `WdchkCoverage.PercentIsOverlapIff`.
* A `$PLTIT` line with the wrong number of tokens still opens a pair, and the reading gets an older azimuth
  (`Aps.ShortPltitKeepsAzimuth`); exactly `Aps.AzimuthIsOpeners`. The counts of a reading may be tokens of an earlier
  line; exactly `Aps.CountsAreOwnIff`. Readings with a negative count are in no bucket
  (`Aps.NegativeFixIsInNoBucket`); exactly `Aps.BucketsAccountForAllIff`.
* A GSRAS reading of quality -1 passes every threshold (`ApsGsras.QualityMinusOnePasses`); exactly
  `ApsGsras.ThresholdIsExactIff`.

## Model

| member | source | states |
|---|---|---|
| WdcatOrder.CompareIsLexIffSpaced | bin/cssutil/wdcat.c:26-40 | the sign of the comparison is the lexicographic (station, channel, time) order on an index if and only if same-channel times are equal or at least one second apart |
| WdcatOrder.CompareIsPreorderIff | bin/cssutil/wdcat.c:26-40 | the comparison is a total preorder on an index, so that the sort is defined, if and only if on each channel being less than a second late carries over from record to record |
| WdcatOrder.CompareIsPreorder | bin/cssutil/wdcat.c:26-40 | in particular where same-channel times are equal or a second apart |
| WdcatOrder.HalfSecondIsPreorder | bin/cssutil/wdcat.c:39 | two records half a second apart are a preorder too, though not spaced |
| WdcatOrder.CompareIsNotTransitive | bin/cssutil/wdcat.c:39 | three records closer than a second on which it is not transitive |
| WdcatOrder.SortGroupsChannels | bin/cssutil/wdcat.c:197 | any sort of such an index keeps each channel together and in time order |
| WdcatOrder.SortsAgree | bin/cssutil/wdcat.c:197 | any two sorts of it agree in channel and time at every position |
| WdcatOrder.SortIsDefined | bin/cssutil/wdcat.c:197 | a sort by that comparison exists for every index on which it is a preorder |
| Cssio.WrdSize | lib/cssio/wrdsize.c:14-44 | -1 for an unknown datatype, otherwise 2 to 24 bytes |
| Cssio.WidthsAreNamed | lib/cssio/wrdsize.c:17-44 | a binary datatype has the digit of its name as its width, the three text ones have 12, 15 and 24, and no others are known |
| Wdcat.CopiedIsSamples | bin/cssutil/wdcat.c:49-91 | copying succeeds exactly for a record whose nsamp words from foff lie in its file, and appends just these |
| Wdcat.CopyFailsIff | bin/cssutil/wdcat.c:42-88 | copying fails with 4 exactly without the file or with a negative offset, and with 5 exactly if the file ends before the samples do |
| Wdcat.Copy | bin/cssutil/wdcat.c:42-92 | the loop over words: what is appended, the exit code 4 or 5, and the updated nsamp and endtime |
| Wdcat.AfterIsMerged | bin/cssutil/wdcat.c:215-229 | after any prefix of the sorted records, the records written and the open one are the merged records of the prefix's maximal runs |
| Wdcat.MergeOne | bin/cssutil/wdcat.c:216-228 | one turn of the merge loop, including the null record that makes the first record start a new one |
| Wdcat.MergeTurn | bin/cssutil/wdcat.c:216-228 | the same with the cursor: what is in hand before a record becomes what is in hand after it, or the copy's failure |
| Wdcat.MergeLoop | bin/cssutil/wdcat.c:213-229 | the loop writes one record for each maximal run and the bytes of all records in order; on a failed copy, exactly what was written before it |
| Wdcat.Check | bin/cssutil/wdcat.c:168-195 | exit 2 for an empty index, 3 if some record has the null channel, an unknown datatype or no file, else go on |
| Wdcat.ChecksPassIff | bin/cssutil/wdcat.c:166-195 | main goes on if and only if there are records, and all have a channel, a known datatype and a file; else it stops with 2 or 3 |
| Wdcat.OutsDescribe | bin/cssutil/wdcat.c:220-226 | every new record, of however long a run, has station, channel, time, date, rate, datatype and the rest from the first record of its run, the end time from the last one, and the new file's name |
| Wdcat.Run | bin/cssutil/wdcat.c:166-232 | main: it succeeds exactly if the checks pass and every copy does, and then yields the merged records and bytes |
| WdcatFacts.RecordsMatchRuns | bin/cssutil/wdcat.c:215-229 | output records correspond one to one, in order, to the only division of the sorted records into maximal runs, and samples out equal samples in |
| WdcatFacts.OutsConserve | bin/cssutil/wdcat.c:90 | for any grouping, the merged records claim as many samples as the records merged |
| WdcatFacts.ExtentsTile | bin/cssutil/wdcat.c:223-226 | the extents of the runs tile the new file from offset 0, and each holds its run's bytes |
| WdcatFacts.FollowsIff | bin/cssutil/wdcat.c:94-109 | a record continues another if and only if station, channel and rate agree and the gap is less than one sample either way |
| WdcatFacts.NewRecordHoldsItsBytes | bin/cssutil/wdcat.c:42-92 | the bytes that a new record claims are those copied for its run if and only if the sizes of the run's records add up to the claim |
| WdcatFacts.OneWidthAgrees | bin/cssutil/wdcat.c:94-109 | they do when all records of the run that have samples have the word size of the first |
| WdcatSamples.CopyMovesSamples | bin/cssutil/wdcat.c:42-92 | the words copied for a record are its nsamp samples |
| WdcatSamples.NewRecordReadsItsRun | bin/cssutil/wdcat.c:94-109 | a new record reads back, word by word, the samples of its run in order if and only if every record of the run that has samples has the word size of the first |
| WdcatSamples.MixedWidthsMisread | bin/cssutil/wdcat.c:94-109 | a two-byte record continued by a four-byte one |
| WdcatSamples.EqualSizesMisread | bin/cssutil/wdcat.c:94-109 | three records of different word sizes that are misread although the byte counts agree |
| WdcatSamples.EveryRecordIsReadBack | bin/cssutil/wdcat.c:213-229 | where runs have one word size the samples of every record stand in one piece in a new record of its channel and rate |
| WdcatSamples.EndToEnd | bin/cssutil/wdcat.c:166-232 | from the index as read through any result of qsort to the new index: samples are conserved, and read back exactly where runs have one word size |
| WdcatFacts.DriftBound | bin/cssutil/wdcat.c:104-108 | the end implied by a record merged from m inputs differs from that of its last input by less than m - 1 sample intervals |
| WdcatFacts.ExactHasNoDrift | bin/cssutil/wdcat.c:104-108 | with exact junctions it does not differ |
| WdcatAgain.NewRecordFollowsIff | bin/cssutil/wdcat.c:94-109 | the new record of one run continues that of another if and only if channel and rate agree and the drift of the first run and the gap between them make less than one sample |
| WdcatAgain.NewRecordsSorted | bin/cssutil/wdcat.c:197-229 | the new index comes out sorted |
| WdcatAgain.RemergeIsIdentityIff | bin/cssutil/wdcat.c:166-232 | a second pass gives the same bytes and records for every result of qsort on the new index if and only if the byte counts of every run agree, no new record continues its neighbour, and new records that tie have the same content |
| WdcatAgain.ExactRunsStayApart | bin/cssutil/wdcat.c:104-108 | with exact junctions no new record continues its neighbour |
| WdcatAgain.InexactRemergeMayMerge | bin/cssutil/wdcat.c:94-109 | three records whose merge continues what its parts do not |
| WdcatAgain.InexactIndexIsMergedFurther | bin/cssutil/wdcat.c:166-232 | as an index they do not come back from every sort of their merge |
| WdcatAgain.TiedRatesDiffer | bin/cssutil/wdcat.c:197 | two records of one channel and time with different rates, whose new records tie with different content |
| WdcatAgain.TiedIndexIsReordered | bin/cssutil/wdcat.c:166-232 | as an index they do not come back from every sort either |
| SteimGroups.GroupsKeep | lib/util/steim.c:102-186 | the words formed from any saved differences hold them and all later ones, in order, each difference in a word it fits |
| SteimGroups.GroupsAreGreedy | lib/util/steim.c:119-186 | fed one by one, with any differences saved already, the differences are gathered just as with all of them in hand: each word takes four if they fit one byte each, or else two if they fit two bytes each, or else one |
| SteimGroups.FirstWordIff | lib/util/steim.c:119-136 | the first word holds a lone difference exactly if the second one needs four bytes or there is none |
| SteimWords.SizesAreLeast | lib/util/steim.c:146-154 | one byte is given to exactly the differences that a signed byte reads back, and at most two to those that a signed short does, but for -32768 |
| SteimWords.EncodedReads | lib/util/steim.c:61-76 | the bytes of a word are read back (lines 495-518) as the differences written |
| SteimWords.KeyNext | lib/util/steim.c:76 | adding a code at its place in the key word packs the codes one after the other |
| SteimWords.FramesRead | lib/util/steim.c:478-485 | the codes and words of frames are read back slot by slot |
| SteimBuffer.StoredIsEncoded | lib/util/steim.c:61-76 | shorts and longs written in host order and swapped on a host that is not big-endian come out big-endian on every host |
| SteimBuffer.LaidNext | lib/util/steim.c:76-95 | a word and its code, put into a key word kept in host order, extend what the buffer holds by one slot, and the key word of a frame is big-endian once its last slot is taken |
| SteimBuffer.LaidShows | lib/util/steim.c:211-246 | the buffer is the frames of its slots with zero behind them, but for the byte order of the key word of the current frame |
| Steim.TablesFill | lib/util/steim.c:119-136 | the two tables do what the grouping says, and keep the state in step with what is saved |
| Steim.Compressor.Place | lib/util/steim.c:76-95 | the code is put into the key word, and with the last slot the key word is swapped and another frame is begun, if there is one |
| Steim.Compressor.AddWord | lib/util/steim.c:49-99 | a word with its code goes into the next slot; reports when the output is full |
| Steim.Compressor.Frm | lib/util/steim.c:102-186 | whatever the statics hold, as long as there is as much to flush as the table asks for: the action and the next state of the tables |
| Steim.Compressor.FrmInStep | lib/util/steim.c:102-186 | when the state goes with what is saved: the words that fit are written, the rest is saved, and the statics are clean after a stop exactly where the table leaves nothing |
| Steim.Compressor.Csteim1 | lib/util/steim.c:202-250 | the output holds the first samples, as many as fit, with the key word of the current frame swapped once more if the flush was reached; the count is theirs, and no difference is left saved exactly if the end of the run is tidy |
| SteimImage.ImageIs | lib/util/steim.c:87-246 | that output is header and words in frames on either kind of host, except that, on one that is not big-endian, the bytes of the last key word are in reverse order if the flush completes the last frame |
| SteimDecode.Dsteim1 | lib/util/steim.c:441-531 | the loops over frames, slots and differences add up the differences of all slots, as long as the array is not full |
| SteimSwapped.ReversedCarries | lib/util/steim.c:478-485 | with the bytes of its key word reversed a frame is read as holding fewer differences, by those of its twelfth slot |
| SteimFacts.RoundTripIff | lib/util/steim.c:202-531 | on a host of either byte order, decompressing what was compressed, with room to spare, gives back exactly the samples compressed if and only if there is one or the second, less the first as 32-bit integers, lies above -32768 and at most at 32767, and the host is big-endian or the flush does not complete the last frame |
| SteimFacts.KeySwappedIff | lib/util/steim.c:243-248 | the output is the same on either kind of host if and only if the flush does not complete the last frame |
| SteimFacts.ExactArrayIff | lib/util/steim.c:489-491 | with an array of exactly the right size the call succeeds if and only if there are two samples or more and either the last slot holds samples or that difference is out of those bounds, and else returns -2; the array holds the samples exactly where they survive at all |
| SteimFacts.RoomToSpare | lib/util/steim.c:240-250 | if a slot stays free every sample is compressed, the header has the last one, the host does not matter and nothing is left over |
| SteimEnds.HeaderIsLastIff | lib/util/steim.c:229-248 | the block ends one sample before the one in the header, with it, or one behind it; with it if and only if, at the flush, not three differences were saved with room for one word, and, before it, two were saved and the next needs two bytes or the saved ones just fit before one of four bytes |
| SteimEnds.HeaderReads | lib/util/steim.c:216-248 | on either kind of host the words behind the first key word read as the first sample and the sample taken last |
| SteimInputs.FarSecondSampleIsLost | lib/util/steim.c:513-519 | two samples 40000 apart that do not come back on either kind of host |
| SteimInputs.FarSecondSampleIsNotMissed | lib/util/steim.c:489-491 | for which the call succeeds with an array of two |
| SteimInputs.TwoSamplesFail | lib/util/steim.c:489-491 | two samples one apart, which fill an array of two with status -2 |
| SteimInputs.FlatBlockFallsShort | lib/util/steim.c:243-248 | forty-nine equal samples in one frame, which come back from a big-endian host and not from another |
| SteimInputs.HeaderIsAhead | lib/util/steim.c:229-238 | a block of fifty samples that ends in 0 and whose header says 1 |
| SteimInputs.HeaderLags | lib/util/steim.c:229-238 | a block of fifty-two samples that ends in 1 and whose header says 0 |
| SteimInputs.JumpLeavesOneBehind | lib/util/steim.c:138-142 | fifty-one equal samples and a jump, after which a difference is left saved |
| SteimInputs.JumpLeavesStatics | lib/util/steim.c:138-186 | the last of them leaves one difference of 0 in the state of none |
| SteimInputs.LeftoverSpoilsNext | lib/util/steim.c:138-186 | from such statics, two samples are written as the left-over difference and that of the first, the second stays behind, and the decompressor sees the first sample twice |
| VerticalRange.SamplesAreSpaced | bin/crtdqt-isi/RTDisplay.cpp:631 | the first sample is at the start of its block and the others a sample interval apart |
| VerticalRange.ScanIsVisible | bin/crtdqt-isi/RTDisplay.cpp:623-651 | the scan with its early exit visits exactly the samples in view, for blocks in time order |
| VerticalRange.AutoscaleFits | bin/crtdqt-isi/RTDisplay.cpp:612-660 | the new range holds every scanned sample and its ends are extremes or one off the first sample; with nothing scanned it stays |
| VerticalRange.ReachableRangesAreUsable | bin/crtdqt-isi/MWindow.cpp:12-17 | no run of autoscale, expand, contract and shift from the initial range leaves a width below 2 |
| VerticalRange.ZoomWidths | bin/crtdqt-isi/RTDisplay.cpp:867-881 | expanding halves the width, rounded down to even but at least 2; contracting (lines 945-955) doubles it, rounded down to even first |
| VerticalRange.ZoomsKeepCentre | bin/crtdqt-isi/RTDisplay.cpp:860-961 | both zooms keep the centre, and move that of an odd range half a count toward zero |
| VerticalRange.ShiftOfAny | bin/crtdqt-isi/RTDisplay.cpp:962-1012 | a shift of any usable range makes the width even and moves the centre by a tenth of the width, at least one count |
| VerticalRange.ShiftMovesBothEnds | bin/crtdqt-isi/RTDisplay.cpp:986-1003 | a shift moves both ends of an even range by a tenth of its width, at least one count |
| VerticalRange.ExpandAfterContract | bin/crtdqt-isi/RTDisplay.cpp:860-885 | expanding undoes contracting if and only if the width is even |
| VerticalRange.ContractAfterExpand | bin/crtdqt-isi/RTDisplay.cpp:937-961 | contracting undoes expanding if and only if the width is divisible by 4 |
| VerticalRange.ShiftsCancel | bin/crtdqt-isi/RTDisplay.cpp:983-1007 | a shift and the opposite one cancel if and only if the width is even |
| VerticalRange.ZoomOutAndBack | bin/crtdqt-isi/RTDisplay.cpp:937-961 | any number of contractions of an even width is undone by as many expansions |
| PixelMap.StripsTile | bin/crtdqt-isi/RTDisplay.cpp:149-160 | the strips stack without gaps from the time bar; in an area at least that high they are disjoint, stay inside and leave fewer than nWin rows, and in a lower one every strip is empty |
| PixelMap.PlotRow | bin/crtdqt-isi/RTDisplay.cpp:1071-1079 | a point in a plot area gives its strip's index by dividing its height above the time bar by the strip height |
| PixelMap.InPlotIff | bin/crtdqt-isi/RTDisplay.cpp:151-160 | the points of a plot area in the numbers of the screen, window and strip |
| PixelMap.PlotIsThereIff | bin/crtdqt-isi/RTDisplay.cpp:151-160 | a plot area has two rows fewer than its strip and five columns and the information area fewer than the screen, lies inside its strip, and is there exactly if these numbers are positive |
| PixelMap.RowsStayAndAscend | bin/crtdqt-isi/RTDisplay.cpp:787-790 | every drawn row lies in the plot area and rises with the sample |
| PixelMap.RowsAtEnds | bin/crtdqt-isi/RTDisplay.cpp:787-790 | the ends of the range are drawn on the edges of the plot, and what lies beyond them too |
| PixelMap.ReadBackError | bin/crtdqt-isi/RTDisplay.cpp:1054 | the amplitude read back from a sample's row is within a pixel's worth of counts and a half below, one count above, the clamped sample |
| PixelMap.ReadBackIsExactIff | bin/crtdqt-isi/RTDisplay.cpp:1054 | for every range and height it is exactly the clamped sample if and only if twice what drawing rounded away of a row is at most a row (above 0), less than three rows (at 0), or from one row to below three (below 0) |
| PixelMap.WholeRowsReadBack | bin/crtdqt-isi/RTDisplay.cpp:1054 | where a count is a whole number of rows it is exact from 0 up and one too high below |
| PixelMap.CoarseRowsReadBack | bin/crtdqt-isi/RTDisplay.cpp:1054 | a range of four counts on two rows, where a negative sample is read back exactly |
| PixelMap.ColumnReadBack | bin/crtdqt-isi/RTDisplay.cpp:785 | a time in view is drawn inside the plot area and read back (line 1053) less than a pixel's worth of time early |
| PixelMap.ColumnsAtEnds | bin/crtdqt-isi/RTDisplay.cpp:785 | the ends of the view are drawn on the edges of the plot and read back exactly |
| TimeWindow.TickFacts | bin/crtdqt-isi/RTDisplay.cpp:241-258 | what one tick does to a live, pinned, frozen and lagging view |
| TimeWindow.ClickFacts | bin/crtdqt-isi/Preview.cpp:225-239 | a click keeps the widths and leaves the view inside the buffer |
| TimeWindow.ClickCentres | bin/crtdqt-isi/Preview.cpp:225-239 | away from the ends the view is centred on the clicked time to within a second |
| TimeWindow.ColumnsSpanBuffer | bin/crtdqt-isi/Preview.cpp:225 | the left column of the preview is the start of the buffer, the right one its end, and the time rises strictly in between |
| TimeWindow.ClicksFollowColumns | bin/crtdqt-isi/Preview.cpp:225-239 | a click on the left column shows the start of the buffer, one on the right column its end, with times in whole seconds or a view of two seconds or more, and a column further right never gives an earlier view |
| TimeWindow.RunsStayShaped | bin/crtdqt-isi/RTDisplay.cpp:233-261 | over every run of ticks and clicks from a live view the widths are fixed, t2 stays within tB2, and t1 is behind tB1 at most right after one tick |
| TimeWindow.LiveStaysLive | bin/crtdqt-isi/RTDisplay.cpp:244-248 | a live view follows the clock for ever |
| TimeWindow.PinnedStaysPinned | bin/crtdqt-isi/RTDisplay.cpp:249-256 | a pinned view moves with the left end of the buffer for ever |
| TimeWindow.FrozenInClosedForm | bin/crtdqt-isi/RTDisplay.cpp:249-256 | a frozen view stands still until the buffer reaches it at a tick and is pinned from the next |
| TimeWindow.FrozenGetsPinned | bin/crtdqt-isi/RTDisplay.cpp:249-256 | with an advancing clock this happens within a bound of ticks known beforehand |
| Display.CMWindow.constructor | bin/crtdqt-isi/MWindow.cpp:12-17 | the initial range and no data |
| Display.CMWindow.Add | bin/crtdqt-isi/MWindow.cpp:19-23 | appends the block and counts it |
| Display.CRTDisplay.Run | bin/crtdqt-isi/RTDisplay.cpp:97-126 | the list becomes one new window for each selected channel in table order, with its names and rate, laid out, with the first one active |
| Display.CRTDisplay.AddSelected | bin/crtdqt-isi/RTDisplay.cpp:110-119 | the inner loop appends the windows of one station's selected channels |
| Display.CRTDisplay.SetTime | bin/crtdqt-isi/RTDisplay.cpp:233-261 | the four times change as the time window's tick |
| Display.CRTDisplay.PreviewPress | bin/crtdqt-isi/Preview.cpp:207-241 | a left click changes them as the time window's click, and does nothing while stopped or without an active window |
| Display.CRTDisplay.ApplyAutoscale | bin/crtdqt-isi/RTDisplay.cpp:612-660 | the window's range becomes the autoscaled one, over the view or over all data |
| Display.ScanBlock | bin/crtdqt-isi/RTDisplay.cpp:628-650 | the sample loop with continue and break feeds exactly the scanned samples to the running extremes |
| Display.CRTDisplay.ApplyExpand | bin/crtdqt-isi/RTDisplay.cpp:860-885 | the window's range is expanded and nothing else changes |
| Display.CRTDisplay.ApplyContract | bin/crtdqt-isi/RTDisplay.cpp:937-961 | the window's range is contracted and nothing else changes |
| Display.CRTDisplay.OnShiftUpDown | bin/crtdqt-isi/RTDisplay.cpp:983-1007 | the active window's range is shifted by a tenth of its width, at least one count |
| Display.CRTDisplay.CalculateWindowsSize | bin/crtdqt-isi/RTDisplay.cpp:140-167 | every window gets its strip of the current size; without windows nothing changes |
| Display.CRTDisplay.WindowFromPoint | bin/crtdqt-isi/RTDisplay.cpp:1065-1081 | the search finds the window whose plot area holds the point, which is the quotient of its height, or -1 if there is none |
| StopFacts.HandlersAreWellLocked | bin/crtdqt-isi/RTDisplay.cpp:563-611 | on every path every handler locks only what it does not hold, releases all it takes, scans blocks under Critical except in OnAutoScale, and only the stop handler clears the list, under both display mutexes |
| StopFacts.UserScriptsAreWellLocked | bin/crtdqt-isi/Preview.cpp:207-249 | the same for what mouse, paint and resize events do |
| StopScripts.UpdateDoes | bin/crtdqt-isi/RTDisplay.cpp:174-231 | an Update takes Critical to set the time, to drop old data and to draw, and scans all windows for the last two |
| StopScripts.PreviewDoes | bin/crtdqt-isi/Preview.cpp:48-123 | a preview is drawn under Critical from the active window, and only while bContinue is set |
| StopScripts.AutoScaleDoes | bin/crtdqt-isi/RTDisplay.cpp:563-611 | OnAutoScale takes Screen, takes Critical and releases it, scans, and takes Critical again |
| StopScripts.MagnifyDoes | bin/crtdqt-isi/RTDisplay.cpp:887-935 | expanding and contracting scan under Screen and Critical, taken in this order |
| StopScripts.ShiftDoes | bin/crtdqt-isi/RTDisplay.cpp:962-1015 | so does shifting, for the active window |
| StopScripts.StopDoes | bin/crtdqt-isi/RTDisplay.cpp:127-138 | the stop handler takes the preview's mutex, then Screen and Critical to clear the list, and scans nothing |
| StopScripts.DisplayPressDoes | bin/crtdqt-isi/RTDisplay.cpp:304-351 | a press looks for its window under Critical and paints under both if there is one |
| StopScripts.PreviewPressDoes | bin/crtdqt-isi/Preview.cpp:207-249 | a press in the preview moves the view under Critical and draws the preview, if bContinue is set |
| StopThreads.RequestIsRead | bin/crtdqt-isi/GettingDataThread.cpp:72-95 | a request that is accepted is read from on a connection whose break flag is clear, and one that is not is made again |
| StopThreads.ReadLooksAtFlag | lib/isi/ts.c:441-449 | a read breaks off if the flag is set and else waits for a frame |
| StopThreads.DataIsReadOn | bin/crtdqt-isi/GettingDataThread.cpp:100-153 | data are appended under the mutex, and the same request is read from again |
| StopThreads.BadFrameIsPassedOver | bin/crtdqt-isi/GettingDataThread.cpp:102 | so it is after a frame that cannot be unpacked or a connection that is lost |
| StopThreads.FrameLeadsOn | bin/crtdqt-isi/GettingDataThread.cpp:102-104 | any other frame leads to the same request again, and the last one to a new request |
| StopThreads.ClearedLeadsToJoin | bin/crtdqt-isi/GettingDataThread.cpp:72-160 | with bContinue clear every look at it leads to the joins, where the thread waits for the draw thread and then the interrupt thread |
| StopThreads.HelpersEnd | bin/crtdqt-isi/IsiInterruptThread.cpp:25-35 | the helpers go round while bContinue is set, and then end, the interrupt thread with the break flag set if there is a connection |
| StopThreads.StopThreadDoes | bin/crtdqt-isi/StopAcquisitionThread.cpp:27-37 | the stop thread disables the toolbar, clears bContinue, waits, enables the toolbar and posts the stop event, in this order |
| StopInvariant.AcqKeeps | bin/crtdqt-isi/GettingDataThread.cpp:27-162 | each step of the acquisition thread keeps what holds between the threads and the mutex it takes |
| StopInvariant.OthersKeep | bin/crtdqt-isi/IsiInterruptThread.cpp:25-35 | so does each step of the draw, interrupt and stop threads |
| StopInvariant.StepKeeps | bin/crtdqt-isi/MainFrame.cpp:123-135 | every step of every thread keeps the invariant: each state is in one of six phases with its threads, queue, list, toolbar and locks |
| StopInvariant.EveryRunKeepsInv | bin/crtdqt-isi/MainFrame.cpp:216-237 | so does every run |
| StopSafety.StopIsHandledAfterAllThreadsEnded | bin/crtdqt-isi/StopAcquisitionThread.cpp:27-37 | whenever the stop event is next to be handled all threads have ended, bContinue is clear, the list is intact and no Update waits behind it |
| StopSafety.ListChangesOnlyAtRest | bin/crtdqt-isi/RTDisplay.cpp:97-138 | the list is cleared or rebuilt only with no thread left and no Update queued |
| StopSafety.AppendAndUpdateFindTheList | bin/crtdqt-isi/GettingDataThread.cpp:119-151 | while acquisition lives or an Update waits the list holds exactly the windows selected at Run |
| StopEvents.EventsAreConserved | bin/crtdqt-isi/DrawWaveformThread.cpp:34-43 | in every run each event asked for has been taken up, waits in the queue or is still to be posted, and there are no others: an Update and a DrawPreview for each time the draw thread fires, a stop or a zoom for each click, a DrawPreview for each hit, a Redraw and a SetText for each press and move over the preview that finds bContinue set |
| StopEvents.NothingIsLeftOver | bin/crtdqt-isi/DrawWaveformThread.cpp:34-43 | at rest, with an empty queue, as many of each have been taken up as were asked for |
| StopEvents.FiringPostsBoth | bin/crtdqt-isi/DrawWaveformThread.cpp:36-43 | the two steps after a firing post an Update and then a DrawPreview, and the other steps of the draw thread nothing |
| StopEvents.DataIsAppendedOnce | bin/crtdqt-isi/GettingDataThread.cpp:97-153 | in every run each frame of data is appended once, unless it is still in hand, and nothing else is |
| StopWitness.UpdateIsHandled | bin/crtdqt-isi/DrawWaveformThread.cpp:39-40 | a reachable state in which an Update of the draw thread is taken up with the windows of the run there |
| StopSafety.ClicksAreAcceptedIff | bin/crtdqt-isi/MainFrame.cpp:123-237 | between events Run is accepted exactly at rest, a zoom exactly while windows are there and the toolbar is not disabled, and Stop once while the run goes on |
| StopSafety.HelpersNeverOutliveAcquisition | bin/crtdqt-isi/GettingDataThread.cpp:158-160 | the draw and interrupt threads never outlive the thread whose variable the latter points to |
| StopSafety.HandlersReleaseWhatTheyTake | bin/crtdqt-isi/RTDisplay.cpp:810-838 | between events the GUI holds no mutex, and it never locks one it holds |
| StopSafety.NoThreadWaitsForABlockedOne | bin/crtdqt-isi/RTDisplay.cpp:962-1012 | a blocked thread always waits for one that is not blocked, so no cycle of waits can form in either locking order |
| StopSafety.ScanHoldsCriticalIff | bin/crtdqt-isi/RTDisplay.cpp:563-592 | in every reachable state in which data blocks are about to be scanned, the scan holds Critical if and only if it is not the one in OnAutoScale |
| StopSafety.OnlyAutoScaleRaces | bin/crtdqt-isi/GettingDataThread.cpp:119-151 | so only there are blocks scanned while one is appended |
| StopSafety.AutoScaleLetsAppendIn | bin/crtdqt-isi/RTDisplay.cpp:567-592 | and there an append can begin whenever data wait for the mutex |
| StopProgress.ShutdownIsBounded | bin/crtdqt-isi/StopAcquisitionThread.cpp:32-33 | while the stop thread waits, the helpers can make only a fixed number of steps in all besides those that leave a call waiting for the server |
| StopProgress.UnansweredStopHangs | lib/isi/ts.c:140-153 | as long as the server does not answer the call that is waiting, the stop thread waits, the toolbar stays disabled and there is no stop event, whatever else happens |
| StopProgress.StopCompletesIff | lib/isi/ts.c:441-449 | the stop event can be reached without user and server if and only if no call is waiting for the server |
| StopProgress.StopIsSureIff | lib/isi/ts.c:441-449 | it can still be reached after every run of the threads without user and server if and only if no call is waiting and none is about to look at a break flag that is clear |
| StopProgress.BlockedStopCompletesIffAnswered | lib/isi/ts.c:441-497 | when one is waiting and the break flag is set, the run can go on to the stop event if and only if a frame arrives or a reconnect fails, or the request is answered |
| StopProgress.ReleasedStopIsCertain | bin/crtdqt-isi/GettingDataThread.cpp:95-102 | once no call can wait, every run has only boundedly many helper steps and always a next one, until the threads have ended |
| LateZoom.EmptyListUsedIffLateZoom | bin/crtdqt-isi/MainFrame.cpp:137-168 | in every run a window of an empty list is used if and only if a request for the active window is handled while the toolbar is idle |
| LateZoom.HandlerFate | bin/crtdqt-isi/RTDisplay.cpp:594-610 | a handler is safe on an empty list exactly if it is not a shift and not a zoom without the shift key |
| StopWitness.LateZoomHappens | bin/crtdqt-isi/StopAcquisitionThread.cpp:34-36 | a run in which that happens |
| StopWitness.StopCanHang | lib/isi/ts.c:144-152 | a reachable state with a waiting read, the break flag set and both helpers ended, in which the stop hangs until the server answers |
| StopWitness.StopCanGoEitherWay | lib/isi/ts.c:441-449 | a reachable state, with a read about to look at the flag, from which the stop can complete and can hang |
| StopWitness.ScalingRacesWithAppend | bin/crtdqt-isi/RTDisplay.cpp:567-592 | for one window and for all, a run in which OnAutoScale scans while acquisition appends |
| ChannelTable.InsertKeepsUnique | bin/crtdqt-isi/nrtsinfo.cpp:60-84 | inserting keeps keys unique and stations non-empty |
| ChannelTable.BuiltTablesAreUnique | bin/crtdqt-isi/nrtsinfo.cpp:60-84 | so does any number of insertions |
| ChannelTable.FirstInsertedWins | bin/crtdqt-isi/nrtsinfo.cpp:70-77 | looking up a key after any insertions finds what was there, else the first channel inserted with it |
| ChannelTable.CopyIsExactIff | bin/crtdqt-isi/nrtsinfo.cpp:34-53 | copying channel by channel reproduces a table if and only if its keys are unique and no station is empty |
| ChannelText.LineReads | bin/crtdqt-isi/nrtsinfo.cpp:229 | scanning a printed line (line 312) recovers names, code and selection, and the rate as it was printed and scanned, whatever the locals held |
| ChannelText.RateReads | bin/crtdqt-isi/nrtsinfo.cpp:312 | a rate printed by %f is read back as the float nearest to the nearest millionth |
| ChannelText.NumberHasDigit | bin/crtdqt-isi/nrtsinfo.cpp:229 | a rate is scanned exactly from a digit, or a point and a digit |
| ChannelText.ShortLineKeeps | bin/crtdqt-isi/nrtsinfo.cpp:225-235 | a line with nothing but a station leaves the other locals as the line before left them |
| Floats.ToFloatIsNearest | bin/crtdqt-isi/nrtsinfo.cpp:214 | the conversion to a C float gives a number of 24 bits, and none is nearer |
| ChannelRates.StoredIffNearMillionth | bin/crtdqt-isi/nrtsinfo.cpp:312 | that is the rate itself if and only if it is the float nearest to some whole number of millionths, and what comes back always is |
| ChannelRates.LargeRatesReturn | bin/crtdqt-isi/nrtsinfo.cpp:312 | every float of at least 16 comes back |
| ChannelRates.TenthIsLost | bin/crtdqt-isi/nrtsinfo.cpp:214 | a rate of a tenth does not |
| ChannelFile.LoadReadsEveryLine | bin/crtdqt-isi/nrtsinfo.cpp:227-235 | loading saved lines adds each entry, as far as it survives, in order, and fgets takes one line at a time |
| ChannelFile.GetsTakes | bin/crtdqt-isi/nrtsinfo.cpp:227 | of any text one line is taken up to and with its newline, but at most 125 characters |
| ChannelFile.RestoredExactlyIff | bin/crtdqt-isi/nrtsinfo.cpp:281-319 | saving and loading restores a table with readable lines if and only if its keys are unique, no station is empty, no code is "__" and every rate is the float nearest to some whole number of millionths |
| ChannelFile.UnderscoresAreLost | bin/crtdqt-isi/nrtsinfo.cpp:233 | the code "__" comes back as two blanks |
| ChannelLists.CNRTSSTAINFO.constructor | bin/crtdqt-isi/nrtsstainfo.cpp:15-18 | a station of that name without channels |
| ChannelLists.CNRTSSTAINFO.AddChan | bin/crtdqt-isi/nrtsstainfo.cpp:19-23 | appends the channel |
| ChannelLists.CNRTSSTAINFO.Clear | bin/crtdqt-isi/nrtsstainfo.cpp:29-38 | drains the list |
| ChannelLists.CNRTSSTAINFO.Knows | bin/crtdqt-isi/nrtsinfo.cpp:70-76 | the inner search finds a channel of that name and code exactly if there is one |
| ChannelLists.CNRTSINFO.AddStaChan | bin/crtdqt-isi/nrtsinfo.cpp:60-84 | the station objects change as the table's insertion; only they and new ones are touched |
| ChannelLists.CNRTSINFO.Clear | bin/crtdqt-isi/nrtsinfo.cpp:474-483 | empties the table |
| ChannelLists.CNRTSINFO.CopyFrom | bin/crtdqt-isi/nrtsinfo.cpp:34-53 | the copy holds what inserting the source's channels in order gives, in new objects only, and the source stays |
| ChannelLists.CNRTSINFO.Assign | bin/crtdqt-isi/nrtsinfo.cpp:54-58 | the copy equals the source if and only if the source's keys are unique and no station is empty |
| ChannelLists.CNRTSINFO.LoadConfigFromFile | bin/crtdqt-isi/nrtsinfo.cpp:209-237 | the table becomes what the read loop makes of the text, or empty if the file cannot be opened |
| ChannelLists.CNRTSINFO.SaveConfigToFile | bin/crtdqt-isi/nrtsinfo.cpp:281-319 | the nested loops write one line for each channel in list order |
| ChannelLists.CNRTSINFO.GetSelectedChanNumber | bin/crtdqt-isi/nrtsinfo.cpp:491-511 | the number of selected channels, which is the number of windows Run opens |
| Display.WindowsMatchSelected | bin/crtdqt-isi/RTDisplay.cpp:107-120 | window k shows the k-th selected channel and there are no others |
| Wddel.CompareIsPreorder | bin/cssutil/wddel.c:22-32 | the comparison by directory and file name is a total preorder |
| Wddel.DirectoryFirst | bin/cssutil/wddel.c:22-32 | records are ordered by directory, and those of one directory by file name |
| Wddel.CountGroups | bin/cssutil/wddel.c:43-61 | the first pass ends and counts the maximal runs of one path |
| Wddel.Gather | bin/cssutil/wddel.c:63-102 | the second pass fills exactly the array allocated for that count, with these runs |
| Wddel.Run | bin/cssutil/wddel.c:136-160 | main: one unlink for each run, in order, and which calls fail |
| Wddel.UnlinkGroups | bin/cssutil/wddel.c:148-157 | the unlink loop removes the paths of the groups and reports those that were missing by then |
| Wddel.OnlyMissingFilesFail | bin/cssutil/wddel.c:153-156 | without repeated paths an unlink fails only for a file missing from the start |
| Wddel.DistinctIffContiguous | bin/cssutil/wddel.c:43-61 | the group paths are distinct if and only if records of one path stand together |
| Wddel.EachFileUnlinkedOnce | bin/cssutil/wddel.c:142-157 | on a sorted index with slash-free file names each file named is unlinked exactly once |
| Wddel.SlashUnlinksTwice | bin/cssutil/wddel.c:142-157 | a sorted index with a slash in a file name that unlinks a path twice |
| WdchkCoverage.PercentIsOverlapIff | bin/cssutil/wdchk.c:79-91 | in every branch the percentage is 100 times overlap over window, except exactly for a record inverted inside the window; it is at most 100 |
| WdchkCoverage.InvertedIsNegative | bin/cssutil/wdchk.c:86-91 | a record inverted in the window that is given -50 percent |
| WdchkCoverage.ReportedIffOverlapping | bin/cssutil/wdchk.c:92-98 | a record is reported exactly if it shares more than an instant with the window, with 100 exactly if it covers it |
| WdchkCoverage.ReportedPercentsFit | bin/cssutil/wdchk.c:79-98 | the percentages of pairwise disjoint records add up to at most 100 |
| WdchkCoverage.DisjointFit | bin/cssutil/wdchk.c:79-91 | pairwise disjoint records cover no more of a window than there is |
| Wdchk.Head.Add | bin/cssutil/wdchk.c:103-119 | the new key is linked in at the end of the list (also lines 145-160) |
| Wdchk.LMatch | bin/cssutil/wdchk.c:34-45 | the walk finds a number exactly if it is a key |
| Wdchk.Search | bin/cssutil/wdchk.c:47-61 | the walk finds a name exactly if some key equals it in upper case, and puts just the keys it passed in upper case |
| Wdchk.MetIff | lib/util/case.c:26-38 | a name is met exactly if some key of its length agrees with it in every character, up to the case of letters |
| Wdchk.TouchedMatchesTheSame | bin/cssutil/wdchk.c:51-55 | changing the keys in place changes no later answer |
| Wdchk.Checker.constructor | bin/cssutil/wdchk.c:63-78 | with three lists on separate nodes the check can begin: putting names in upper case twice is the same as once |
| Wdchk.Checker.Selects | bin/cssutil/wdchk.c:72-77 | the short-circuit test selects exactly the records with samples whose date is wanted and whose station and channel agree with a wanted name up to case, and leaves what is wanted unchanged |
| Wdchk.Checker.Check | bin/cssutil/wdchk.c:63-101 | the record loop reports exactly the selected records with a positive percentage and sets Match exactly if there is one |
| Wdchk.PrintedPercentsFit | bin/cssutil/wdchk.c:63-101 | the percentages printed for wanted records disjoint in time add up to at most 100 |
| Wdchk.NoReportIffNoData | bin/cssutil/wdchk.c:237-240 | no data is reported exactly if no wanted record shares more than an instant with the window |
| Aps.Program.ProcessPLTIT | bin/aps/main.c:54-66 | the azimuth changes exactly for a line of seven tokens |
| Aps.Program.ProcessGPGGA | bin/aps/main.c:68-97 | which lines are accepted, and the counts taken from the token array, whichever line left them there |
| Aps.Program.ReadAll | bin/aps/main.c:222-244 | the automaton saves exactly the readings of the accepted lines that close a pair, described without the automaton |
| Aps.OpenIff | bin/aps/main.c:222-244 | a pair is open before a line exactly if some $PLTIT line before it has no $GPGGA line after it |
| Aps.LineSavesIff | bin/aps/main.c:68-97 | a line saves a reading exactly if it closes a pair, has at most ten tokens, fifteen, or M as its unit, and a fix below 3 and fewer than 13 satellites; the reading has the counts of its tokens and the azimuth of its pair |
| Aps.AzimuthIsOpeners | bin/aps/main.c:227-230 | a reading's azimuth is that of the line that opened its pair exactly if that line had seven tokens, else the one before |
| Aps.NoAzimuthYet | bin/aps/main.c:209 | as long as no pair has been opened by a line of seven tokens the azimuth is 0 |
| Aps.ShortPltitKeepsAzimuth | bin/aps/main.c:59-63 | two pairs, the second opened by a short line, whose readings have one azimuth |
| Aps.CountsAreOwnIff | bin/aps/main.c:84-85 | the counts of a reading are settled by the tokens of its own line if and only if there are at least eight |
| Aps.PairsAlternate | bin/aps/main.c:227-240 | opening and closing lines alternate and bound the readings |
| Aps.ReadingsAreBounded | bin/aps/main.c:87-94 | every saved reading has fix below 3 and satellites below 13 |
| Aps.Program.Summaries | bin/aps/main.c:252-253 | the nested loops summarise each of the 39 buckets and all readings |
| Aps.BucketsAccountForAllIff | bin/aps/main.c:121-125 | the bucket counts add up to the overall count if and only if no saved count is negative |
| Aps.NegativeFixIsInNoBucket | bin/aps/main.c:121-125 | a reading of fix -1, counted overall and in no bucket |
| Statistics.ComputeMean | bin/aps/main.c:135-169 | the two passes compute count, mean and sum of squared deviations of the selected values |
| Statistics.MeanMinimises | bin/aps/main.c:157-169 | the deviations cancel, the squares add up to less than about any other number, and to the sum of squares less n times the mean squared |
| ApsGsras.Program.ReadAll | bin/aps-gsras/main.c:178-187 | the readings are those of the $T lines of 22 tokens, in order |
| ApsGsras.LineSavesIff | bin/aps-gsras/main.c:50-64 | a line of 22 tokens that begins with $T saves its third and tenth token as azimuth and quality, and another line nothing |
| ApsGsras.Program.Summaries | bin/aps-gsras/main.c:194-204 | one summary for each of the eleven thresholds |
| ApsGsras.ThresholdsAre | bin/aps-gsras/main.c:194-204 | the thresholds are the multiples of ten from 0 to 100 |
| ApsGsras.SelectionShrinks | bin/aps-gsras/main.c:80-85 | raising the threshold only takes readings away, even with quality -1 |
| ApsGsras.ThresholdIsExactIff | bin/aps-gsras/main.c:80-85 | the selected readings are those of at least the threshold if and only if none has quality -1 |
| ApsGsras.QualityMinusOnePasses | bin/aps-gsras/main.c:80-85 | a reading of quality -1 selected at 100 |
| Bswap.ExchangeHalves | lib/util/swap.c:31-37 | the loop over words exchanges the halves of each in place and touches nothing behind them |
| Bswap.SwapUINT16 | lib/util/swap.c:9-22 | the bytes of every two-byte word are reversed in place |
| Bswap.SwapUINT32 | lib/util/swap.c:24-38 | swapping halves and then neighbours reverses every four-byte word |
| Bswap.SwapUINT64 | lib/util/swap.c:40-54 | and every eight-byte word |
| Bswap.SwapBytes | bin/bswap/main.c:25-71 | the output of the buffered loop is the whole input with every word reversed and a ragged tail untouched |
| Bswap.Run | bin/bswap/main.c:73-107 | four bytes without an argument; any size but 2, 4 and 8 is refused |
| SwapWords.SwappedAt | lib/util/swap.c:9-54 | element by element, the word at a position has its bytes in reverse order, and a ragged tail stays |
| SwapWords.SwappedTwice | lib/util/swap.c:9-54 | swapping twice is the identity |
| SwapWords.ExchangeSwapped | lib/util/swap.c:24-54 | swapping words is swapping their halves and then exchanging the halves |
| SwapWords.ChunksAreHarmlessIff | bin/bswap/main.c:13-36 | swapping chunk by chunk equals swapping the whole stream, for every stream, if and only if a chunk is a whole number of words |

## Left out

- Wdcat.Run: takes smprate other than 0, by which the code divides, and an output path that names no input file, which opening the output would empty.
- Wdcat.MergeLoop: takes smprate other than 0, because the code divides by the rate.
- WdcatSamples.NewRecordReadsItsRun: takes nsamp >= 0 and files long enough to copy; otherwise wdcat stops with exit 5 or copies nothing for the record.
- WdcatAgain.RemergeIsIdentityIff: takes a first pass on an index on which the comparison is a preorder, so that its sort is defined, with nsamp >= 0 and no rate of 0.
- Steim.Compressor.Csteim1: takes statics that are clean, at least one sample and at least one frame; other statics are followed through Steim.Compressor.Frm. The output is a sequence of frames of which the current one is kept apart, out[1] and out[2] are kept as numbers until the end, and the number of bytes used is left out.
- Steim.Compressor.Frm: takes statics in which at least as many differences are saved as the table asks to flush; with fewer the code reads and writes in front of or behind what is saved.
- SteimDecode.Dsteim1: takes data in big-endian order, which is what the compressor writes, and an array that grows; the check of count and last sample is compiled out in the code.
- util_fcsteim1, which feeds the same compressor from a file, and Steim 2.
- Display.CRTDisplay.WindowFromPoint: takes a display whose strips have been laid out, as DrawWaveforms does before every drawing.
- TimeWindow.RunsStayShaped: starts from a live view, because t1, t2, tB1 and tB2 are uninitialised before the first tick; it also takes a clock that does not go back and a displayed length within the buffered one.
- ChannelLists.CNRTSINFO.CopyFrom: takes two distinct tables; a table copied onto itself is cleared first.
- ChannelFile.RestoredExactlyIff: takes names without blanks that fit the ten-byte buffers, and lines that fit the 126-byte one; longer words overrun the buffers in the code. Exponents, inf and nan in scanned rates, and overflow of a C float, are not modelled.
- Aps.Program.ReadAll: takes lines of at least one token, and no $GPGGA line of six or seven, for which the code converts a null pointer. The text fields of a reading, which point into a buffer that is overwritten, are left out.
- StopProgress.StopCompletesIff: one Stop request for each run is assumed, and the stop thread ends with the event it posts.
- Statistics.ComputeMean: the square root, which is of 0/0 for a single reading, and the printed labels, which call the buckets with a count of 0 "all readings".
- RemoveOldData and the cursor rules of QPtrList, on which it depends; likewise a cursor shared by two threads walking one list.
- Painting, widgets, fonts, the time panel, DrawGaps, QSettings, LoadConfigFromServer, and the dialogs with the event loops they nest.
- The ISI library but for how its calls wait and end: a request waits for its acknowledgement (lib/isi/datreq.c:436-493), a read looks at the break flag and then waits for a frame (lib/isi/ts.c:441-497). A break flag set on no connection is ignored (lib/isi/netutil.c:12-16). How long a wait lasts is not modelled.
- IACP, QDP, message queues, disk loops, miniSEED and the other utilities of bin/.
- Option parsing but where a row says otherwise, exit of main on I/O errors, failure of malloc, and reading and writing of wfdisc text.
- ch_reinit and l_reinit of wdchk: a second sta= or chan= argument walks freed nodes, since the head is not reset.
- The nrec field and the copied records of a group in wddel beyond the records themselves, and its sort, which is any sort by the comparison.
- utilGetLine and utilParse, whose results are the lines of aps and aps-gsras; atoi and atof are parameters.
- Overflow of C integers and rounding of doubles, except in Steim's differences.
