# Vectorised regular-expression matching: verified models

A Dafny model of the algorithms that surround the matching engines of this Hyperscan-derived library, and
proofs of what they promise.  `dafny verify dfyconfig.toml` checks everything.

The matching engines themselves do not appear.  Where an algorithm depends on them they are oracles with
stated assumptions, or their results are parameters.

| file | what it models |
|---|---|
| `MatchQueue.dfy` | the priority queue of pending matches, a binary heap in an array |
| `Chimera.dfy`, `ChimeraInvariant.dfy`, `ChimeraScan.dfy` | the hybrid scan that merges Hyperscan hits with iterated PCRE |
| `Crc32c.dfy`, `Crc32cBursts.dfy` | CRC-32C (section 12.1 of RFC 3720, without complements): byte loop, slicing-by-8, word loop; burst detection |
| `StreamLayout.dfy`, `StreamTemplate.dfy` | the regions of a stream, the compressed form, and the copying template in its three modes as a function |
| `StreamCompress.dfy` | measuring, compressing and expanding a stream: the template as it is run |
| `StreamOrder.dfy` | which regions a compressed stream holds, and in which order |
| `StreamExpand.dfy`, `StreamRoundTrip.dfy`, `StreamCuts.dfy` | what expanding restores, and which truncated buffers are refused |
| `StreamCodec.dfy` | a codec that meets the contract assumed of multibit compression |
| `Dedupe.dfy` | report deduplication by two parity logs |
| `LogicalCombination.dfy` | the in-place evaluator of logical combinations and the purely-negative check |
| `StreamHistory.dfy` | the history window of a stream |
| `FpHistogram.dfy`, `FpCollector.dfy` | counting literal triggers in batches, merging collectors, true-trigger credits |
| `FatHeader.dfy`, `FatDatabase.dfy` | serializing a two-architecture database and deserializing it at another address |
| `ScratchSpace.dfy` | size, layout and growth of the scratch space |

How to read the main results:

* **Hybrid scan.**  `Env` is everything a scan depends on: the data, the patterns, PCRE as
  `leftmost(pattern, start)`, the hits Hyperscan delivers, and callbacks that answer from the whole history
  of events.  `Expected` is iterated PCRE for one pattern.  `Scan` promises `ScanResult` for every `Env` that
  meets `Assumptions`: in every run each pattern's reports are a prefix of `Expected`, ends never decrease
  if the hits come in order, nothing follows "stop", nothing of a pattern follows "skip" or a PCRE limit, and
  the user is told of exactly the limits PCRE ran into; a successful run is complete except for patterns the
  user skipped or on which PCRE ran into a limit where their next match was to be found; every other status
  has its reason in the last event, the last call of PCRE or the status of Hyperscan (`StatusMeans`).
  `UndisturbedScan` is the refinement theorem: without skips, stops and errors the reports are exactly
  `Expected`.  `AssumptionsMet` and `UnorderedMet` show that the assumptions can hold, with hits in order
  and out of order.
* **CRC.**  The reference is bit-serial division.  The loops are proved for every linear byte division
  that drops zero low bytes; `DivideByteDivides` shows that the Castagnoli division is one.
* **Stream compression.**  `Template` is the copying template as a function of the mode, `Copier` runs it;
  the three modes are the instantiations.  A compressed stream holds exactly the live regions, in the order
  of the format (`OnlyForm`), and its size is their sum (`SizeIsTotal`).  The expander reads a memory of
  which only the first bytes were given, so a truncated buffer is followed by arbitrary bytes.
* **Where the code falls short of the obvious promise** it is kept as it is and the exact condition is
  proved:
  * live history is restored if and only if the narrowed offset is large enough (`HistoryRestoredIff`);
  * a truncated stream is refused whatever follows it if and only if the cut is before the end of the
    certain regions or is noticed (`CutRefusedIff`); all truncations of a stream are, if and only if
    nothing lies behind its certain regions (`EveryCutRefusedIff`);
  * every database with bytecodes of given lengths is recovered at an address if and only if the offset of
    the second one fits 32 bits there or the second one is empty (`RecoveredIff`);
  * true triggers stay within triggers whatever happens if and only if at most one scan uses the collector
    (`AlwaysCoveredIff`), and for any number of scans while it is reset between scans (`RunKeepsRoom`);
  * smaller ones are `NegativeEndIsSkipped` and the 32-bit sizes in `LayOut`.

## Model

| member | source | states |
|---|---|---|
| MatchQueue.MatchPq.Insert | src/util/pqueue.h:87-100 | the item is added to the contents, the array stays a heap |
| MatchQueue.MatchPq.Sift | src/util/pqueue.h:49-73 | sifting down repairs the heap and keeps the contents |
| MatchQueue.MatchPq.Pop | src/util/pqueue.h:80-85 | exactly the first item is removed, the rest is a heap |
| MatchQueue.MatchPq.Top | src/util/pqueue.h:75-78 | the top is in the queue; no queued match ends before it, none with its end starts before it, and none with both has a lower pattern |
| MatchQueue.FirstIsLeast | chimera/ch_runtime.c:50-70 | in a heap the first item is least in the order end, start, pattern |
| Chimera.ResumeAdvances | chimera/ch_runtime.c:274-289 | the next start lies behind the previous one, also after empty matches and inside UTF-8 code points |
| Chimera.ResumeMeans | chimera/ch_runtime.c:274-289 | the next start is the end of the match; after an empty match one byte on, and for UTF-8 the first byte from there that is no continuation byte |
| Chimera.AssumptionsMet | chimera/ch_runtime.c:471-483 | an example database and input meet every assumption made of PCRE and Hyperscan |
| Chimera.UnorderedMet | chimera/ch_compile.cpp:304-318 | the assumptions order only the hits of fixed-width patterns: an example has a prefiltered one out of order |
| Chimera.SampleExpected | chimera/ch_runtime.c:274-289 | for that example iterated PCRE finds both one-byte matches |
| ChimeraInvariant.GoodIsSafe | chimera/ch_runtime.c:296-524 | the invariant of a scan implies what every run promises about its events |
| ChimeraInvariant.ReportEarliest | chimera/ch_runtime.c:303-333 | reporting the earliest queued match keeps ends in order, if the hits are, and every pattern's reports a prefix of iterated PCRE |
| ChimeraInvariant.HitIsLeftmost | chimera/ch_runtime.c:396-408 | a hit of a fixed-width pattern that passes the `to >= scanStart + minWidth` filter is the leftmost PCRE match from `scanStart` |
| ChimeraInvariant.FirstHitBound | chimera/ch_runtime.c:412-430 | the first match of a pattern confirmed at its first hit ends no earlier than anything reported so far, if all hits come in order |
| ChimeraInvariant.SkipHits | chimera/ch_runtime.c:383-408 | hits dropped early do not break the invariant |
| ChimeraInvariant.Complete | chimera/ch_runtime.c:618-630 | once all hits are seen and nothing is queued, every pattern that was not cut short has all its matches reported |
| ChimeraScan.WorkDrops | chimera/ch_runtime.c:301-363 | each delivery consumes remaining scan range or retires the pattern: the drain terminates for every input and callback |
| ChimeraScan.FirstScanOutcome | chimera/ch_runtime.c:490-524 | what the first PCRE run of a pattern does to the invariant, errors included |
| ChimeraScan.ReportOutcome | chimera/ch_runtime.c:317-333 | each of the three answers of the user leaves the invariant and its consequence |
| ChimeraScan.RescanOutcome | chimera/ch_runtime.c:339-362 | a rescan queues the next expected match, or there is none, or it fails: then it ends the scan with the status that belongs to the failure, or retires the pattern |
| ChimeraScan.LaterExactOutcome | chimera/ch_runtime.c:430-466 | queueing a further hit of a fixed-width pattern keeps the invariant |
| ChimeraScan.Scratch.ResumeAfter | chimera/ch_runtime.c:274-289 | the loop over continuation bytes computes the resume offset |
| ChimeraInvariant.LogLimit | chimera/ch_runtime.c:181-208 | telling the user about a PCRE limit keeps every promise about the events, and the invariant unless he stops the scan |
| ChimeraInvariant.LimitMissed | chimera/ch_runtime.c:181-208 | a pattern on which PCRE runs into a limit owes no further match |
| ChimeraScan.FailedRun | chimera/ch_runtime.c:181-208 | a failed call of PCRE: a limit retires its pattern unless the user's answer ends the scan, any other failure ends it with CH_FAIL_INTERNAL |
| ChimeraScan.Scratch.ScanPcre | chimera/ch_runtime.c:210-293 | queues the leftmost match and moves `scanStart` behind it, or reports the error |
| ChimeraScan.Scratch.Rescan | chimera/ch_runtime.c:339-362 | the branch after a report: none for SINGLEMATCH or beyond the data, else the next match; a status other than success has its reason |
| ChimeraScan.Scratch.PopAndReport | chimera/ch_runtime.c:312-321 | removes the top, delivers it, returns the user's answer |
| ChimeraScan.Scratch.DeliverTop | chimera/ch_runtime.c:301-363 | one round of the drain; `top_to > to` cannot occur |
| ChimeraScan.Scratch.CatchUp | chimera/ch_runtime.c:295-366 | the drain terminates; on success it has delivered the match that the hit of pattern `id` supersedes, or emptied the queue; a failure has a stated reason; the queue never overflows |
| ChimeraScan.Scratch.MultiCallback | chimera/ch_runtime.c:369-469 | one hit of Hyperscan, all branches: the invariant moves to the next hit or the scan is stopped for good reason |
| ChimeraScan.Scratch.InitQueue | chimera/ch_runtime.c:485-524 | the patterns Hyperscan cannot guard have their first match queued |
| ChimeraScan.Scratch.ScanHyperscan | chimera/ch_runtime.c:471-483 | all hits in order, unless a callback asks to stop |
| ChimeraScan.Scratch.Flush | chimera/ch_runtime.c:618-626 | what remains queued is delivered |
| ChimeraScan.Scratch.Run | chimera/ch_runtime.c:571-630 | the result of the events, and the reason of every status |
| ChimeraScan.Scratch.Scan | chimera/ch_runtime.c:526-630 | every scan: safety of its events, completeness on success, the reason of every other status, exactly the limits met told to the user, in-use and length errors, scratch released |
| ChimeraScan.UndisturbedScan | chimera/ch_runtime.c:526-630 | whole-scan refinement: exactly the iterated PCRE matches of every pattern, ends in order if the hits are |
| ChimeraScan.StatusMeans | chimera/ch_runtime.c:571-630 | "terminated" only if the last event was answered so; "internal" only if the last call of PCRE failed with something else than a limit, or the error handler or Hyperscan gave that value; a failure of this kind always ends the scan so |
| ChimeraScan.LimitsDoNotEnd | chimera/ch_runtime.c:181-208 | a limit without a handler, or answered with "go on" or "skip", never ends the scan |
| ChimeraScan.HyperscanFailed | chimera/ch_runtime.c:607-616 | when Hyperscan fails, nothing wrong is reported, and of each pattern hit all matches up to the hit are reported but for the last |
| ChimeraScan.InvalidUtf8 | chimera/ch_runtime.c:233-241 | over invalid data nothing is reported of a UTF-8 pattern that PCRE has to find |
| ChimeraScan.SingleOnce | chimera/ch_runtime.c:339-343 | a SINGLEMATCH pattern is reported once at most |
| Crc32c.DivideByteDivides | src/crc32.c:89-104 | dividing by the Castagnoli polynomial is linear and drops zero low bytes |
| Crc32c.ByteStepDivides | src/crc32.c:556-562 | a table step is the division of the register with the byte added |
| Crc32c.TableAdvances | src/crc32.c:106-546 | each table is the one before it advanced by one zero byte |
| Crc32c.SliceStepDivides | src/crc32.c:587-612 | one step of slicing-by-8 is eight bytes of division |
| Crc32c.SliceStepIsCrc | src/crc32.c:587-612 | one step of slicing-by-8 is eight steps of the byte loop |
| Crc32c.ComputeBytes | src/crc32.c:549-562 | the byte loop computes bit-serial CRC-32C |
| Crc32c.ComputeSliced | src/crc32.c:568-619 | slicing-by-8 computes it for every start value, alignment and buffer that reaches its alignment |
| Crc32c.ComputeHardware | src/crc32.c:43-72 | so does the prefix, word and tail split around a CRC instruction |
| Crc32c.ComputeBuf | src/crc32.c:675-688 | the exported function computes the CRC-32C of the buffer |
| Crc32c.CrcConcat | src/crc32.c:675-688 | the CRC of a concatenation is that of the second part started from the first |
| Crc32cBursts.CrcIsBitwise | src/crc32.c:556-562 | the byte loop equals feeding the bits one by one |
| Crc32cBursts.BeforeBurst | src/crc32.c:556-562 | the first differing bit leaves exactly the polynomial as difference |
| Crc32cBursts.BurstDetected | src/database.c:174-182 | two different strings of one length that agree outside 32 consecutive bits, in particular outside four consecutive bytes, have different CRCs |
| StreamLayout.OffsetBytes | src/stream_compress_impl.h:118-118 | the eight bytes of a stream offset read back as the offset |
| StreamOrder.FieldsInPlace | src/stream_compress_impl.h:108-183 | the regions copied come in the order of the format, none twice |
| StreamOrder.FieldsAreLive | src/stream_compress_impl.h:34-183 | a region is copied if and only if it matters: no state of an inactive engine or of a leftfix that keeps none, no match start that is not valid, no anchored table of a long stream |
| StreamOrder.OnlyForm | src/stream_compress_impl.h:108-183 | the live regions in the order of the format, and nothing else, are what is copied |
| StreamOrder.SizeIsTotal | src/stream_compress.c:119-130 | the size of a compressed stream is the sum over exactly the live regions |
| StreamTemplate.TemplateCopies | src/stream_compress_impl.h:108-183 | measuring and compressing go through exactly the regions of the compressed form, and never fail |
| StreamCompress.Copier.Copy | src/stream_compress.c:40-90 | one region in any mode: one step of the template |
| StreamCompress.Copier.CopyFirst | src/stream_compress_impl.h:118-122 | offset, status and roles, in this order |
| StreamCompress.Copier.CopyActivity | src/stream_compress_impl.h:130-133 | activity of the engines and long-literal state |
| StreamCompress.Copier.CopyAnchor | src/stream_compress_impl.h:137-140 | the anchored table exactly while the stream is short, decided from the offset just copied |
| StreamCompress.Copier.CopyHistory | src/stream_compress_impl.h:142-146 | groups and the end of the history region |
| StreamCompress.Copier.CopyTrailing | src/stream_compress_impl.h:148-156 | exhaustion, logical and combination multibits |
| StreamCompress.Copier.CopyLeafs | src/stream_compress_impl.h:158-169 | the states of the endfixes that the copied multibit names |
| StreamCompress.Copier.CopyLefts | src/stream_compress_impl.h:34-73 | state and lag byte of the active leftfixes that keep state |
| StreamCompress.Copier.CopySlots | src/stream_compress_impl.h:75-106 | the match starts that the copied multibit names |
| StreamCompress.Copier.Run | src/stream_compress_impl.h:108-183 | the loops and calls are the template in any mode |
| StreamCompress.SizeCompressStream | src/stream_compress.c:119-130 | the size pass returns exactly the length of the compressed form |
| StreamCompress.CompressStream | src/stream_compress.c:105-117 | the compress pass writes exactly the compressed form |
| StreamCompress.HsCompressStream | src/runtime.c:1371-1396 | the space needed is always reported; success exactly if it is there |
| StreamCompress.ExpandStream | src/stream_compress.c:92-103 | a complete buffer is accepted and gives the stream; one cut within the certain regions or within the match starts is refused whatever follows it; with the rest behind it, accepted exactly if no compared region is cut |
| StreamExpand.TemplateOutcome | src/stream_compress_impl.h:108-183 | over any memory and any truncation, expanding follows the stream until it is refused, or until a multibit ran over the end of the buffer |
| StreamRoundTrip.RegionsRestored | src/stream_compress_impl.h:108-183 | offset, every multibit and every region that matters are restored over any memory |
| StreamRoundTrip.HistoryRestoredIff | src/stream_compress_impl.h:124-146 | all live history is restored over any memory if and only if the offset is below 2^32 or its low 32 bits reach the history length |
| StreamRoundTrip.HistoryLostAt32Bits | src/stream_compress_impl.h:126-127 | at an offset of exactly 2^32 none is |
| StreamRoundTrip.CompressesAgain | src/stream_compress_impl.h:108-183 | an expanded stream compresses to the same bytes |
| StreamRoundTrip.CompressAndExpand | src/runtime.c:1371-1436 | compress, then expand: everything that matters is back, and the history under the exact condition |
| StreamCuts.CutRefusedIff | src/stream_compress.c:47-83 | every cut: refused whatever follows it, if and only if it is before the end of the certain regions, in plain bytes, in a tree of which a nonzero byte of the root is left, or in the set of match starts with a valid one left |
| StreamCuts.EveryCutRefusedIff | src/stream_compress_impl.h:148-183 | all proper prefixes of a compressed stream are refused whatever follows them, if and only if no byte lies behind the certain regions |
| StreamCuts.CutBehindUnnoticed | src/stream_compress_impl.h:148-183 | otherwise the cut right behind the certain regions is a proper prefix that goes unnoticed |
| StreamCodec.CodecExists | src/util/multibit_compress.h:43-200 | a codec of bitmaps and rooted trees meets the contract assumed of multibit compression |
| Dedupe.MoveRepresents | src/report.h:67-81 | clearing one log for the next offset and both otherwise keeps the logs a window on what was accepted |
| Dedupe.LogAnswers | src/report.h:84-95 | the log answers "seen" exactly if the pair was accepted before, for a nonnegative end or a clean log |
| Dedupe.NegativeEndIsSkipped | src/report.h:84-95 | otherwise it may not: a first report with end -1 can be taken for a repetition |
| Dedupe.AcceptRepresents | src/report.h:84-95 | entering a key keeps the logs a window on what was accepted |
| Dedupe.HeldOneMore | src/report.h:96-115 | the effect of held-back reports adds up: each key keeps the least start of those reported, other keys and the other parity stay, the dirty flags say which kinds were held back |
| Dedupe.MatchDeduper.Hold | src/report.h:96-115 | one held-back report has this effect |
| Dedupe.MatchDeduper.HoldRun | src/report.h:96-115 | so has any run of them with no flush in between |
| Dedupe.MatchDeduper.Catchup | src/report.h:56-119 | one report: when it halts, when it is skipped, what it leaves accepted, what is flushed and what is held back |
| Dedupe.MatchDeduper.ReportAll | src/report.h:56-119 | over a whole scan an external report is skipped exactly if an earlier one had the same key and end, starting from the `~0` offset |
| LogicalCombination.IsLogicalCombination | src/report.h:191-223 | the loop returns the recursive truth value, leaves sub-expression bits alone and sets each operator of the range to what its operands' bits say |
| LogicalCombination.EvalIgnoresOperators | src/report.h:191-223 | the truth value does not depend on stale operator bits |
| LogicalCombination.EvalIsConsistent | src/report.h:191-223 | the recursive truth values are those where each operator bit agrees with the bits of its operands |
| LogicalCombination.ScanNegative | src/report.h:225-276 | the loop stops exactly if an operand that is a sub-expression is set, else returns the truth value |
| LogicalCombination.NoneSetIffNoLeafSet | src/report.h:225-276 | for a single tree, that is exactly if a sub-expression used by the formula is set |
| LogicalCombination.EvalAllFalse | src/report.h:225-276 | with none set, the formula has the value it has under the all-false assignment |
| LogicalCombination.IsPurelyNegativeMatch | src/report.h:225-276 | true exactly if no sub-expression used is set and the formula holds under all-false |
| LogicalCombination.NegativeOutcome | src/report.h:225-276 | the same as a statement about the values |
| StreamHistory.ChunksDoNotMatter | src/runtime.c:539-570 | the history region depends on the bytes scanned, not on the chunk boundaries |
| StreamHistory.HsStream.GetHistory | src/runtime.c:80-89 | the history handed to the engines is the end of the input, as much as is kept |
| StreamHistory.HsStream.MaintainHistoryBuffer | src/runtime.c:539-570 | the region becomes the end of itself and the chunk |
| StreamHistory.HsStream.ScanStream | src/runtime.c:961-1120 | status, offset, history and return value of one scan, stopped streams included |
| StreamHistory.ScanAll | src/runtime.c:961-1120 | after any chunking the region ends with the concatenated input |
| FpHistogram.HistogramExact | src/fp_collector_hist.c:92-106 | the reference histogram lists every distinct key once, with its multiplicity |
| FpHistogram.CountKeyNeon | src/fp_collector_hist.c:49-72 | the strided count is the multiplicity |
| FpHistogram.KeySeenBeforeNeon | src/fp_collector_hist.c:74-90 | true exactly if the key occurs before `end` |
| FpHistogram.CountBatchNeon | src/fp_collector_hist.c:92-106 | the NEON backend emits the histogram |
| FpHistogram.KeySeenBefore | src/fp_collector_hist_sve2.c:50-64 | the same for any number of lanes |
| FpHistogram.CountKeyInBatch | src/fp_collector_hist_sve2.c:78-93 | the same for any number of lanes |
| FpHistogram.CountBatchSve2 | src/fp_collector_hist_sve2.c:95-131 | the SVE2 backend emits the histogram for 1 to 64 lanes |
| FpCollector.SatAddSat | src/fp_collector.c:145-151 | saturating addition of saturated sums is the saturated sum |
| FpCollector.FindFragment | src/fp_collector.c:279-301 | binary search finds the key or shows it is absent |
| FpCollector.HistogramAdds | src/fp_collector.c:528-548 | adding the entries of a batch's histogram adds each key's occurrences |
| FpCollector.OrderDoesNotMatter | src/fp_collector.c:626-672 | the counters depend on the multiset of events only |
| FpCollector.Collector.Flush | src/fp_collector.c:538-548 | flushing counts what is pending, for either backend |
| FpCollector.Collector.QueueTrigger | src/fp_collector.c:550-559 | a trigger is recorded, flushing first when the batch is full |
| FpCollector.Collector.Counters | src/fp_collector.c:528-559 | after a flush each counter is the number of times its key is in the multiset of triggers or credits, at most 2^64-1 |
| FpCollector.TriggerWindow.BeginTrigger | src/fp_collector.c:1247-1265 | a window opens with one more trigger, closing the one before; counted credits stay covered |
| FpCollector.TriggerWindow.EndTrigger | src/fp_collector.c:1267-1275 | the window is closed and forgets that it reported |
| FpCollector.TriggerWindow.RecordFinalReport | src/fp_collector.c:1277-1305 | nothing unless the window is open and has not reported; else one credit for its key, only for a known fragment with a used counter |
| FpCollector.TriggerWindow.ResetCollector | src/fp_collector.c:616-624 | a reset forgets triggers and credits and leaves the window open |
| FpCollector.WindowHistory | src/fp_collector.c:1247-1305 | in every run a window is open exactly if its last turn was a trigger, has that key, and has reported exactly if credited since |
| FpCollector.CreditedIffDue | src/fp_collector.c:1277-1305 | in every run a report is credited to a key if and only if the last turn of its window is a trigger of that key, with no credit since, and the key is a fragment with a used counter |
| FpCollector.NextAlone | src/fp_collector.c:1247-1305 | every event of a scan that is alone on its collector keeps credits within triggers, with room for the open window |
| FpCollector.NextIsLocal | src/fp_collector.c:1247-1305 | what one of several scans does to a shared collector is what its window does alone |
| FpCollector.RunKeepsRoom | src/fp_collector.c:1247-1305 | in every run of any number of scans whose resets find no window open, credits and open unreported windows of each key stay within its triggers |
| FpCollector.StaleCredit | src/fp_collector.c:616-624 | a reset under an open window, then a trigger of the same key by another scan: two credits for one trigger |
| FpCollector.AlwaysCoveredIff | src/fp_collector.c:616-624 | in all runs credits stay within triggers if and only if at most one scan uses the collector |
| FpCollector.Collector.TrueTriggersAreTriggers | src/fp_collector.c:1277-1305 | while credits are covered no counter has more true triggers than triggers |
| FpCollector.AddCounters | src/fp_collector.c:521-526 | adding counters counts both event lists together |
| FpCollector.Collector.AddAll | src/fp_collector.c:664-668 | every source is flushed, keeps its events and stays covered, and the sum counts all of them |
| FpCollector.Merge | src/fp_collector.c:636-672 | the merged collector has the counters of one that saw all events, covered if the sources are; the sources keep their events and their cover; refused exactly for unlike collectors |
| FpCollector.MergeScanned | src/fp_collector.c:636-672 | merging while windows are open leaves every window valid, and scanning may go on with the result: true triggers within triggers after a merge too |
| FpCollector.MergedCovered | src/fp_collector.c:636-672 | merging keeps credits within triggers |
| FatHeader.LayoutFits | src/fat_database.c:216-245 | both offsets aligned, bytecodes disjoint, behind the header's fields, inside the allocation, with no gap of a cache line or more |
| FatHeader.ArmOffsetIs | src/fat_database.c:219-238 | the second offset is the first plus the rounded length |
| FatHeader.HeaderSlices | src/fat_database.c:85-117 | which bytes of a serialized header hold which field |
| FatHeader.BytesOfLoad | src/fat_database.c:138-175 | loading a word and writing it gives its bytes back |
| FatHeader.FieldsLoad | src/fat_database.c:150-175 | every field of a written header is read back, wherever it lies |
| FatHeader.DecodeMeans | src/fat_database.c:138-191 | in terms of the bytes: refused as invalid for another magic or too few bytes, as of another version exactly if only the version differs, accepted exactly if fields and both bytecodes are there, without the padding |
| FatHeader.SerializedDecodes | src/fat_database.c:62-191 | what was serialized is accepted and read back, except for the offsets |
| FatDatabase.Database.Serialize | src/fat_database.c:62-127 | header, both bytecodes and padding, or the error |
| FatDatabase.Database.CopyBytecode | src/fat_database.c:216-245 | offsets and bytecodes are written as `Placed` says |
| FatDatabase.PlacedHeader | src/fat_database.c:216-245 | afterwards memory starts with the header and both recorded offsets |
| FatDatabase.PlacedBytes | src/fat_database.c:216-245 | both bytecodes are where the layout puts them and no other byte behind the header changes |
| FatDatabase.FilledReads | src/fat_database.c:267-275 | what the header in memory points to: the first bytecode, and the second one if its offset was recorded |
| FatDatabase.Database.CheckCrc | src/fat_database.c:194-214 | accepts exactly if both checksums match what the offsets in memory point to |
| FatDatabase.Database.DeserializeAt | src/fat_database.c:247-282 | in terms of the bytes: which error for which input, the whole memory, and for an accepted header success exactly if both checksums match what is then read |
| FatDatabase.AcceptedIff | src/fat_database.c:194-282 | for arbitrary bytes behind an accepted header: success exactly if both bytecodes match their checksums, while the second offset fits 32 bits |
| FatDatabase.Restore | src/fat_database.c:247-282 | deserializing what was serialized gives the memory `Relocated`, and the database whenever the second offset fits 32 bits or there is no second bytecode |
| FatDatabase.Relocate | src/fat_database.c:62-283 | the same for serializing one database and deserializing it elsewhere |
| FatDatabase.RecoveredIff | src/fat_database.c:219-238 | all databases with bytecodes of these lengths are recovered at the address, if and only if the second offset fits 32 bits there or the second bytecode is empty |
| FatDatabase.NotRecovered | src/fat_database.c:238-238 | otherwise a database is given that is not: what stands at the wrapped offset differs from its second bytecode |
| FatDatabase.OffsetLost | src/fat_database.c:238-238 | with a first bytecode of nearly 4 GiB the second is read from the start of the first, and accepted exactly if the checksums agree |
| FatDatabase.OneChecksumFitsOne | src/database.c:174-182 | a stored checksum accepts at most one of two bytecodes that differ in a burst of 32 bits |
| ScratchSpace.LayOut | src/scratch.c:74-265 | every region has its room, aligned and inside the allocation, if and only if no 32-bit size wraps around; then fewer than 428 bytes are left over |
| ScratchSpace.FatbitArrayIs | src/scratch.c:58-70 | the room computed for an array of fatbits is what the layout uses |
| ScratchSpace.Enough | src/scratch.c:107-126 | the allocation suffices exactly if twice the log size fits 32 bits |
| ScratchSpace.FatbitSizeMonotone | src/util/multibit_build.cpp:49-73 | more bits never need a smaller fatbit, across the change of form |
| ScratchSpace.FatbitSizeIs | src/util/multibit_build.cpp:49-73 | 32 bytes up to 256 bits; beyond, a word per 64 bits and the levels above, whose number of blocks is given in closed form |
| ScratchSpace.Widen | src/scratch.c:319-403 | the sizes become the least that serve the database and are no smaller than before; a resize exactly if it was not served |
| ScratchSpace.ScratchHandle.AllocScratch | src/scratch.c:268-423 | through any sequence of calls the scratch serves every database it was passed for; it fails exactly if an allocation it needs does; it is moved exactly if it did not serve the database |

## Left out

- Rose, FDR, the NFA engines, Lily and match-start tracking: parameters or oracles; what they compute is not part of this model.
- PCRE and Hyperscan: oracles.  `Chimera.Assumptions` lists what is assumed: PCRE reports matches inside the scanned region, the hits of each fixed-width pattern come in order of their ends, a fixed-width pattern gets exactly its matches as hits, a prefiltered one a hit no later than the end of its first match, and Hyperscan stops on its own only with an error.
- ChimeraScan.Scratch.Scan: capture groups, user identifiers, argument, magic and alignment checks are not modelled; the scratch is the one allocated for its database; `isValidUTF8` is one flag because the scan always validates the whole data; in ChimeraScan.Scratch.ScanAgain two assignments of the data length to `scanStart` are one.
- ChimeraScan.Scratch.DeliverTop: the branch `top_to > to` is shown unreachable instead of being given an effect.
- ChimeraScan.Scratch.Run: the order of reports is promised only if all hits, those of prefiltered patterns too, come in order; no unordered run is shown.
- Crc32c.Table: the literal constants of the eight tables are not compared with the recurrence that defines them here; SIMD and CRC instructions are specified, not modelled bit by bit.
- Crc32c.ComputeSliced: buffers that end before the first aligned address are excluded; there the C loops would read past the end.
- StreamCompress.Copier: the state of a stream is a map of named regions, so overlapping regions and pointer arithmetic are not modelled; multibits are sets, and their compression (src/util/multibit_compress.h) is a contract; a compressed buffer is built by appending, so the space check inside `mmbit_compress`, which the size pass makes redundant, is not there.
- StreamHistory: offsets are unbounded; the 16 bytes that are set before the end of a fresh history region are not modelled.
- StreamHistory.HsStream.ScanStream: an exhausted stream drops its further input, so "the input" is what was scanned before.
- Dedupe.MatchDeduper.Catchup: flushing stored match starts is an arbitrary function of the logs it may change.
- FpCollector: thread safety, missing collectors (null arguments) and allocation failures.
- FpCollector reports, feedback thresholds and the selection of the worst fragments: simple filters and a library sort.
- FatDatabase: platform checks accept everything in the source and are left out; addresses do not wrap around.
- The single-architecture database (src/database.c): the same scheme with one bytecode; only its checksum test is used here.
- ScratchSpace.LayOut: the structure is a record of addresses instead of being written in place; sizes of structures defined elsewhere are parameters.
- Command-line programs, compilation, dispatch, dump code: input and output only.
