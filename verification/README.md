# Verification of the trace pipeline

A Dafny model of what `jtrace` does between a probe's trace buffer and the tables a viewer shows, with proofs. `dafny verify dfyconfig.toml` checks everything.

Three connected parts and two decoders are modelled, in the source's own form: objects that update fields are classes, loops are methods with loops, tables and lookups are functions. Every such method is proved equal to a function of its inputs or of the old state, and the theorems are about those functions. Beside invariants and round trips there is, for each main operation, a statement of its result that does not name the function: where frames begin and end and how deep they lie, which stamp of which window a retained cycle is, how far a stretch of constant symbolization reaches, which listed addresses a coverage row counts, and what a written line program or file table stands for.

- **Capture.** A loop runs the core, halts it, drains a bounded newest-first buffer, stashes the raw window and detects loss by subtracting a four-byte counter. Windows become blocks of a store that evicts whole old blocks, truncates, indexes by bisection and estimates cycles between sparse stamps. A stack machine infers call frames from the program counters. Modules `Timestamps`, `Blocks`, `Provenance`, `Store`, `Histories`, `Windows`, `Capture`, `Loss`, `Located`, `CaptureStats`, `Estimates`, `CaptureStamps`, `StampOrigins`, `ByteArrays`, `Snapshots`, `Frames`, `FrameShape`, `FrameOwner`, `FrameLabels`, `FrameResults`, `FrameDepths`, `FrameEvents`, `FrameSplit`, `EndToEnd`.
- **Symbolization.** The function index of an image, its line table, two 256-slot direct-mapped caches whose entries claim whole address ranges, run grouping and rows generated on access. Modules `Elf`, `LineTables`, `Stretches`, `SpanCache`, `Symbols`, `Rows`, `ImageFrames`.
- **Coverage.** Dictionary accumulators over all sections, with conservation laws and what each row counts. Modules `Coverage`, `CoverageLaws`, `CoverageSites`.
- **Decoders.** LEB128, file tables and the line-number program (sections 7.6 and 6.2 of DWARF 5) and ITM packets (appendix D4 of the ARMv7-M Architecture Reference Manual). Modules `Leb128`, `FileTables`, `FileAssembly`, `LinePrograms`, `LineAssembly`, `LineUnits`, `UnitAssembly`, `Itm`.

`Prelude`, `Arithmetic`, `Bisect`, `Sorting`, `Tallies` and `Resolved` hold what these share.

The main theorem, `EndToEnd.NoFrameSpansLoss`, rests on all of the first part: for every buffer size, capacity, target, depth cap and core behaviour the counter can see, every frame built from a capture covers instructions that the core retired one after the other. What the counter cannot see is a slice that overflows the window and wraps four bytes at once, and then a frame can cover a hole; see below.

## What is assumed

- The probe is a ring that keeps the newest items; a read returns them newest first and empties it (`Capture.Probe`). The docstring at `jtrace/strace.py:472-484` says a real probe may leave an older remainder that is never seen; the model takes the simpler reading, which is also that of the repository's own test doubles.
- At entry to the slice loop the core is halted and the buffer is empty. Theorems about loss also start from a fresh store.
- What each run of the core retires is arbitrary: a script in which every slice may be anything. Time is a turn at which the deadline has passed, or none.
- The counter is kept modulo 2^32, as four bytes are read. Nothing is assumed about wrapping. `Loss.CounterSees` is the exact condition for a slice's loss to be counted right (`Loss.LostInIs`), and for a slice that overflows the window within 2^32 instructions also for its loss to be located at all (`Loss.SeenOrSilent`, `Located.LocatedIff`); theorems carry it where they need it. A failed statistics read (taken as zero) is not modelled.
- With `timestamps` on, "truthful" means that no stamp contradicts the newest-first order the buffer is documented to have. With it off nothing is assumed of stamps.
- A compressor and its decompressor are functions, and so are writing a snapshot's header as text and reading it; round trips ask that each pair be inverse.
- Decoding bytes as UTF-8 text and normalising a path are arbitrary functions that never fail. A file number is turned into text whatever its size; Python's limit of 4,300 digits, past which a unit would end early with an exception the parser catches, is not modelled.
- Resolvers are arbitrary functions of the address, except in `Symbols`, `Rows` and `ImageFrames`, where they are those of an image whose symbol values are below 2^64. Trace addresses there are even and below 2^64.

## What the proofs found

Places where the code does less than its documentation, or where a condition is needed, each with the exact condition:

- **A wrapped counter can hide loss.** Read plus lost equals what was retired if and only if no slice both overflowed the window and wrapped the counter (`Loss.LossIsExactIff`). A full-sized window and a slice of 65,537 instructions as the counter turns over lose one instruction and report none (`Loss.WrapHidesLoss`); the capture then shows no boundary, and one frame covers the hole (`Loss.HiddenHole`, `EndToEnd.FrameSpansHiddenHole`).
- **The function cache shows at odd addresses.** It is invisible for all addresses and histories if and only if no odd-sized symbol has a hole behind it with an even address in the same cache slot as its end (`SpanCache.TransparentIff`, `SpanCache.OddHoleShows`). One five-byte function is enough (`SpanCache.OneOddHole`). Even addresses are always right.
- **One unit can cost the whole line table.** `parse_line_table` means one malformed unit to cost only itself, but catches two kinds of exception and can meet four. The table is lost if and only if (`LineUnits.TableLostIff`) some unit either has a readable header, a zero `line_range` and opcodes that lead, one by one, to a special opcode or a constant advance before its end, or has a version 5 file table in which an entry is reached whose directory index is not a number or whose path is one, or mixes text and bytes with a directory it is put under. The forms a header declares mostly decide the latter (`FileTables.FormsDecide`): text paths and number indices never fail so, number paths and other indices do at the first entry. The good rows of other units go with the table (`LineUnits.GoodRowsLost`, `LineUnits.GoodRowsLostByForm`).
- **A negative index asks for the wrong estimate.** The block is found from the end, but the offset within it is not. Such an index gets the estimate of the instruction it names if and only if the block has no stamps, or one on another instruction, or the instruction lies outside the stamps where the line through them does not tell (`Estimates.NegativeIndexIff`; `Estimates.NegativeIndexShows` is a store of three instructions).
- **The two ends of a window need not agree.** For any stamps, a window read from its other end comes out the same if and only if exactly one of the two readings shows cycles that only rise, or the window is its own mirror image (`Timestamps.EndsAgreeByGroupsIff`). With one cycle on each index that means: if and only if it has a direction, or is its own mirror image (`Timestamps.DirectionOrMirrorIff`). With several cycles on an index only the first and last stamp of each index count, and the verdict turns with the window under an exact condition on those (`Timestamps.VerdictTurnsIff`); three stamps for which it does not are `Timestamps.RepeatedIndexMisleads`.
- **Frames nest by interval, not always by depth.** A frame is listed one level below the innermost frame it lies in if and only if its call was seen; otherwise it is listed no deeper than that frame (`FrameDepths.DepthRule`; `FrameDepths.NestedAtOneLevel` is a stream with two nested frames at one depth).
- **The depth cap misattributes.** An instruction's innermost frame is its own function's if and only if the cap did not refuse that call (`ImageFrames.InnermostInImage`).
- **Coverage can depend on walking order.** Every function has the same figures in every order of the sections if and only if no function's entry address is listed twice with different counts (`CoverageLaws.WalkingOrderIff`). Then totals do not depend on the order either (`CoverageLaws.AgreedWalksAlike`); the converse fails, as two functions can exchange their counts (`CoverageLaws.TotalsHideOrder`).
- **Boundaries mark the holes of a capture** exactly, with slices below 2^32 instructions and whatever was evicted or cut off, if and only if the counter saw every slice that begins inside what was retained (`Located.LocatedIff`).
- **A block's stamps support estimates** if and only if its window had one stamp on a counter at most and none moved against the way it was read (`CaptureStamps.FitIff`).

## Model

| member | source | states |
|---|---|---|
| EndToEnd.NoFrameSpansLoss | jtrace/frames.py:111-228 | For any ring, capacity, eviction, final cut and core the counter can see, every frame built from a capture covers instructions retired one after the other |
| EndToEnd.FrameSpansHiddenHole | jtrace/frames.py:111-228 | Without the condition on the counter it fails: after a slice whose loss the counter hides, one frame covers the missing instruction |
| EndToEnd.FrameUnbroken | jtrace/frames.py:154-159 | A frame built with a store's own boundaries never reaches across a recorded loss |
| EndToEnd.CaptureFrames | jtrace/capture.py:226-295 | Capturing into a fresh store and building frames from it yields only unbroken frames over what the probe truly retired |
| EndToEnd.Flat | jtrace/store.py:342-344 | Iterating block after block yields the flat stream |
| Capture.ReadExtended | jtrace/strace.py:451-642 | The store ends exactly as if every window had been appended at once and the result cut to the target |
| Capture.SliceLoop | jtrace/strace.py:564-633 | The loop stops at the target, the cap or the deadline, with store and stash as the loop on values leaves them |
| Capture.LoopBounded | jtrace/strace.py:564-633 | From any store within its bound, store and stash together never exceed the capacity or one window, whichever is larger, after a slice, and by one window more while a slice is at hand |
| Capture.LoopIsInline | jtrace/strace.py:553-639 | After every slice, flushing what is stashed gives the store that immediate appends give |
| Capture.OneTurn | jtrace/strace.py:564-633 | One slice takes store, stash and counts from one turn of the loop on values to the next |
| Capture.RunSlice | jtrace/strace.py:570-601 | What a slice stashes is its newest window, stamps and the loss found by subtraction |
| Capture.Note | jtrace/strace.py:588-611 | A productive slice is stashed and an idle one counted, without losing either |
| Capture.Relieve | jtrace/strace.py:624-633 | The stash is flushed early exactly when store and stash together exceed the capacity |
| Capture.BuildBlocks | jtrace/strace.py:212-235 | Flushing a stash appends its windows, chronologised, in order, and keeps the last observed stamp order |
| Capture.Tune | jtrace/strace.py:613-617 | A tuned slice stays between 0.05 and 50 ms |
| Capture.TunerAims | jtrace/strace.py:613-617 | The next slice at the measured rate retires exactly half the window, or takes 50 ms exactly when it could not, or 0.05 ms exactly when it would more than do so |
| Capture.Probe.Halt | tests/test_trace_subsystems.py:39-73 | A run retires its slice: the counter grows by it and the ring keeps the newest |
| Capture.Probe.Read | tests/test_trace_subsystems.py:39-73 | A read hands back the newest items newest first and empties the ring |
| Capture.Probe.ReadEx | jtrace/strace.py:376-449 | A read with stamps drains the same way |
| Loss.LossIsExactIff | jtrace/strace.py:564-642 | One poll a slice, and read plus lost equals retired if and only if no overflowing slice wrapped the counter |
| Loss.LostInIs | jtrace/strace.py:582-587 | Per slice, subtraction never overstates loss and is exact exactly when the slice fits or the counter does not wrap |
| Loss.WrapHidesLoss | jtrace/strace.py:582-587 | With a full-sized window, a slice of one instruction too many run as the counter turns over loses one and reports none |
| Loss.SeenOrSilent | jtrace/strace.py:582-587 | A slice that overflows the window within 2^32 instructions reports all of its loss if the counter saw it, and otherwise none |
| Loss.SumsAreExact | jtrace/strace.py:582-605 | Over any number of slices, collected plus lost equals retired if and only if each slice was seen by the counter |
| Loss.LoopCounts | jtrace/strace.py:588-611 | Lifetime counters of a store equal the loop's own sums however much was evicted |
| CaptureStats.StatsSay | jtrace/strace.py:238-244 | The statistics returned are the slices run, those that stitched, those that gapped, what they reported lost, what they gave, and what of it was evicted |
| CaptureStats.OrderIsLast | jtrace/strace.py:220-224 | The stamp order a store remembers is the one shown last by any kept window |
| Loss.SliceBlock | jtrace/strace.py:582-602 | A block is the newest part of its slice in retirement order, with exactly the rest recorded as lost before it |
| Loss.LoopFollows | jtrace/strace.py:564-639 | When the counter sees every slice and stamps are truthful, the store is an exact account of the end of the true stream however much was evicted |
| Loss.CaptureLocatesLoss | jtrace/strace.py:564-642 | Under the same conditions, after eviction and truncation a boundary lies before an item if and only if instructions are missing there |
| Located.LocatedIff | jtrace/strace.py:564-642 | With slices below 2^32 instructions, after any eviction and the final cut, boundaries mark exactly the places where instructions are missing if and only if the counter saw every slice that begins inside what was retained |
| Located.PositionsTrue | jtrace/strace.py:582-602 | Of truthful windows each retained counter is the one retired at the position its window gives it |
| Located.MarkedIff | jtrace/store.py:384-396 | A boundary stands exactly where a slice begins that reported loss |
| Located.GapIff | jtrace/strace.py:582-602 | Instructions are missing right before a counter exactly where it begins a slice of which not all came back |
| Loss.HiddenHole | jtrace/strace.py:564-642 | A finished capture can lack an instruction, report nothing lost and have no boundary |
| Loss.HeadroomKeepsOldest | jtrace/capture.py:232-239 | With one maximal slice of headroom nothing is evicted and the result is the oldest counters collected, up to the target |
| Loss.CollectedIsStream | jtrace/strace.py:479-483 | When every slice fits the window, what was collected is the retired stream, instruction for instruction |
| Loss.CaptureIsPrefix | jtrace/capture.py:232-239 | With headroom and no overflow a capture is the first instructions retired and reports nothing lost |
| Windows.DeferredIsInline | jtrace/strace.py:553-639 | For any schedule of stashes, idle polls and flushes, a final flush gives the store that immediate appends give |
| Windows.StepOwesSame | jtrace/strace.py:588-633 | One stash, idle poll or flush leaves the same to be flushed as taking it at once |
| Windows.FlushPolled | jtrace/strace.py:606-611 | Idle polls and flushes commute |
| Windows.TruthfulOrientation | jtrace/strace.py:127-154 | Stamps that do not contradict newest-first are never read as oldest-first |
| Windows.TruthfulBlock | jtrace/strace.py:212-235 | A truthful window becomes a block in retirement order |
| Windows.BlockOf | jtrace/strace.py:212-235 | A block carries as many counters as its window, and the window's loss |
| Timestamps.DetectIs | jtrace/strace.py:127-154 | With one cycle per index, detection answers exactly when cycles move one way only, and says which |
| Timestamps.DirectionIsMovement | jtrace/strace.py:142-154 | Comparing neighbours in index order misses no movement between any two stamps |
| Timestamps.DirectionsAreOnward | jtrace/strace.py:142-154 | For any stamps detection sees exactly the moves from the last stamp on an index to the first on the next |
| Timestamps.VerdictsAre | jtrace/strace.py:127-154 | For any stamps the verdicts on a window and on its mirror image, from the first and last stamp of each index |
| Timestamps.VerdictTurnsIff | jtrace/strace.py:127-154 | For any stamps mirroring turns a verdict around if and only if cycles move only one way going onward and only the other way going backward |
| Timestamps.MirrorDetects | jtrace/strace.py:127-154 | Reading a window from its other end turns the verdict around |
| Timestamps.OrientationIndependent | jtrace/strace.py:157-195 | A window with a direction comes out the same whichever end it was read from |
| Timestamps.EndsAgreeIff | jtrace/strace.py:157-195 | For any stamps a window comes out the same from both ends if and only if the ends are oriented against one another, or it is its own mirror image |
| Timestamps.DirectionOrMirrorIff | jtrace/strace.py:157-195 | With one cycle per index: if and only if it has a direction or is its own mirror image |
| Timestamps.EndsAgreeByGroupsIff | jtrace/strace.py:157-195 | For any stamps, by the first and last stamp of each index: if and only if exactly one reading shows cycles that only rise, or the window is its own mirror image |
| Timestamps.ChronologiseKeepsStamps | jtrace/strace.py:157-195 | Exactly the in-range stamps survive, in index order, each on the counter it arrived with |
| Timestamps.ChronologisedCyclesRise | jtrace/strace.py:157-195 | In a detected window a later index never carries an earlier cycle |
| Timestamps.RepeatedIndexMisleads | jtrace/strace.py:142-154 | Two cycles on one index for which it does not: a window and its mirror image get the same verdict |
| Store.TraceStore.Open | jtrace/store.py:196-198 | A capacity that is not positive is refused; otherwise the store is empty |
| Store.TraceStore.AppendBlock | jtrace/store.py:218-260 | Appends, counts and evicts; unparallel stamps are refused and leave no trace |
| Store.TraceStore.NoteIdlePoll | jtrace/store.py:262-271 | Only the poll count changes |
| Store.TraceStore.Evict | jtrace/store.py:273-288 | The loop drops oldest blocks as the specification says and leaves the index of starts right |
| Store.TraceStore.RebuildStarts | jtrace/store.py:290-297 | The index of starts agrees with the blocks afterwards |
| Store.TraceStore.TruncateTo | jtrace/store.py:299-335 | The loop keeps the oldest instructions, cutting a block where it must |
| Store.TraceStore.BlockIndexAt | jtrace/store.py:363-367 | The bisect finds the block that holds an index, negative ones from the end, out-of-range ones refused |
| Store.TraceStore.Item | jtrace/store.py:346-361 | Indexing through starts and bisect is indexing the flat stream |
| Store.TraceStore.LossBoundaries | jtrace/store.py:384-396 | Boundaries read off the two parallel lists are those of the blocks |
| Blocks.LocateIs | jtrace/store.py:355-367 | For any block list, empty blocks included, the bisect finds block and offset of an item |
| Blocks.EvictedLeast | jtrace/store.py:273-288 | Eviction removes the fewest oldest blocks that restore the bound, never the last, and counts them |
| Blocks.AppendedBounded | jtrace/store.py:258-260 | After an append the store is within capacity or holds one block |
| Blocks.TakeIs | jtrace/store.py:299-335 | Truncation keeps exactly the first items and exactly the boundaries below the cut |
| Blocks.CutKeepsStamps | jtrace/store.py:320-332 | A cut block keeps exactly its stamps below the cut, cycles alongside |
| Blocks.JoinBlocks | jtrace/store.py:342-344 | Contents, length and loss of joined block lists are those of the parts |
| Histories.HistoryAccounts | jtrace/store.py:218-335 | After any appends, idle polls and truncations: read equals evicted plus trimmed plus held, loss and polls are what was reported, capacity is kept |
| Histories.HistoryIsSuffix | jtrace/store.py:218-288 | Without truncation the contents are the suffix of everything appended that starts at the evicted count |
| Histories.TruncatedHistory | jtrace/store.py:299-335 | A final truncation keeps the first items of that suffix |
| Histories.AppendAccounts | jtrace/store.py:218-260 | What one append does to contents and lifetime counters |
| Provenance.HoleIff | jtrace/store.py:384-396 | Two neighbouring items are neighbours in the true stream if and only if no boundary lies between them |
| Provenance.NoBoundaryNoHole | jtrace/store.py:384-396 | A stretch without a boundary inside was retired without a gap |
| Provenance.PositionsShow | jtrace/strace.py:582-605 | Each retained counter is the one retired at its position |
| Provenance.PositionsRise | jtrace/strace.py:582-605 | Positions in the true stream rise with the index |
| Provenance.DropFollows | jtrace/store.py:273-288 | Eviction moves no retained item to another position |
| Provenance.TakeFollows | jtrace/store.py:299-335 | A truncated list is still an exact account of the stream |
| Provenance.TakePositions | jtrace/store.py:299-335 | Truncation moves no retained item to another position |
| Estimates.ExactAtStamps | jtrace/store.py:138-142 | On a stamp the estimate is the stamp |
| Estimates.AnswersIff | jtrace/store.py:129-162 | A block declines exactly when it has no stamps, or one that is not the index asked for |
| Estimates.EstimateSays | jtrace/store.py:129-162 | The exact and extrapolated flags and the span are true of the stamps |
| Estimates.EstimatesRise | jtrace/store.py:129-162 | Over a whole block, extrapolation included, a later instruction never gets an earlier cycle |
| Estimates.EstimateBracketed | jtrace/store.py:145-162 | Between two stamps the estimate lies between their cycles |
| Estimates.EstimateOnLine | jtrace/store.py:129-162 | Off the stamps an estimate is the truncated point of the line through two neighbouring stamps, before and behind all stamps through the first two and the last two |
| Estimates.IndexOfEstimate | jtrace/store.py:413-441 | Index to cycle and back is exact on stamps and otherwise short by less than one cycle's worth of instructions |
| Estimates.StampCycleIndex | jtrace/store.py:413-441 | The cycle of a stamp maps back to its index |
| Estimates.IndexOnLine | jtrace/store.py:413-444 | For any cycle the index lies on the line through two neighbouring stamps, or is that of the first of two that carry one cycle |
| Estimates.SeamsDoNotLeak | jtrace/store.py:403-411 | An estimate, at an index of either sign, does not depend on the stamps of any other block |
| Estimates.NegativeIndexIff | jtrace/store.py:403-411 | When a negative index gets the estimate of the instruction it names: no stamps in its block, one on another instruction, or outside the stamps where their line does not tell |
| Estimates.NegativeIndexShows | jtrace/store.py:403-411 | For the last of three instructions, stamped at both ends, it does not |
| Estimates.OnlyOneBlockAnswers | jtrace/store.py:425-435 | A cycle in one block's range is answered by that block, and one in two ranges by none |
| Estimates.AnswerHasBlock | jtrace/store.py:425-435 | A cycle in no block's range is not answered |
| Estimates.ContinuousIff | jtrace/store.py:443-460 | Comparing stamps at seams only decides whether any stamp in the store is below an earlier one |
| CaptureStamps.FitIff | jtrace/strace.py:212-235 | A window becomes a block with strictly rising stamp indices and cycles that do not fall if and only if no counter has two stamps and none moves against the way it is read; cycles rise strictly if and only if also none rest |
| CaptureStamps.CaptureFits | jtrace/strace.py:564-642 | A capture of such windows holds only such blocks, after any eviction and the final cut |
| CaptureStamps.CaptureCyclesRise | jtrace/store.py:400-409 | In a capture of truthful windows with one stamp on a counter, estimates within a block never run backwards |
| StampOrigins.WindowMarks | jtrace/strace.py:212-235 | A block carries every stamp of its window that lies in it, as often as given, on the place its counter went to |
| StampOrigins.WindowCounters | jtrace/strace.py:212-235 | And every counter of its window, turned round unless read oldest first |
| StampOrigins.CaptureFrom | jtrace/strace.py:564-642 | Each block of a capture, cut or not, is the block of one slice: its first counters, exactly its stamps on those, its loss, halt reason and time |
| StampOrigins.RetainedStamp | jtrace/strace.py:564-642 | After any eviction and the final cut each retained pair of counter and cycle is one the probe reported for that retired instruction |
| StampOrigins.CutFrom | jtrace/store.py:320-332 | A cut block is still that of its slice, with exactly the stamps below the cut |
| ByteArrays.ArrayRoundTrip | jtrace/store.py:618-634 | Arrays survive bytes and either byte order, swapped exactly when writer and reader differ |
| ByteArrays.SwapFetched | jtrace/store.py:628-634 | Reading in the wrong order and swapping is reading in the right one |
| ByteArrays.WholeWords | jtrace/store.py:612-630 | Bytes make an array exactly if they are a whole number of words |
| ByteArrays.WordAt | jtrace/store.py:493-498 | Word i of an array lies at i times its width |
| ByteArrays.StoredByte | jtrace/store.py:493-498 | Byte k of a word is its k-th from the low end or from the high end |
| Snapshots.RoundTrip | jtrace/store.py:462-657 | A file once saved loads to the same store and the same metadata, whatever byte orders wrote and read it |
| Snapshots.ReachableRoundTrip | jtrace/store.py:587-657 | Every store reachable by any history can be saved and reloaded whole |
| Snapshots.BareLoads | jtrace/store.py:599-657 | Without a capacity and metadata a file loads at the default capacity; each counter it records is restored, and each it does not is counted from what it holds |
| Snapshots.MissingAreZeros | jtrace/store.py:570-584 | A description takes a loss or stamps that a block's entry does not mention for zero |
| Snapshots.NoOrderSwaps | jtrace/store.py:602-603 | Without a byte order its arrays are taken for the other machine's |
| Snapshots.ReadBack | jtrace/store.py:612-645 | Reloading appends every block and evicts none |
| Snapshots.BlockRoundTrip | jtrace/store.py:612-634 | One block survives its bytes |
| Snapshots.DescribeAgrees | jtrace/store.py:549-585 | The header alone gives the count, blocks, boundaries and stamped blocks of the loaded store |
| Snapshots.Save | jtrace/store.py:462-546 | The method writes magic, header length, header and members, byte for byte as the specification says |
| Snapshots.SavedIff | jtrace/store.py:491-546 | Given a header encoder and a compressor that do not fail themselves, saving fails for an unknown codec and a header of 2^32 bytes or more, and for nothing else |
| Snapshots.WrittenParses | jtrace/store.py:538-564 | What is written parses back into its header and its members |
| Snapshots.SavedLooks | jtrace/store.py:538-546 | A saved file is the eight letters, the header's length low byte first in four bytes, the header, and the members |
| Snapshots.PayloadSays | jtrace/store.py:493-498 | A member holds its counters in four bytes each, then the cycles in eight, then the stamped places in four |
| Snapshots.ReadHeader | jtrace/store.py:559-569 | Magic, length, header text and version are checked in order |
| Snapshots.Members | jtrace/store.py:492-511 | One compressed member a block, lengths in the header |
| Snapshots.Load | jtrace/store.py:587-657 | The method reads what the specification says, defaults for missing keys and errors included |
| Snapshots.LoadBlocks | jtrace/store.py:612-645 | The loop appends every block of the body or stops at the first that cannot be read |
| Snapshots.Describe | jtrace/store.py:549-585 | The method computes the description from the header, defaults for missing keys included |
| Snapshots.DescribeIgnoresMembers | jtrace/store.py:549-585 | Files alike up to the end of their header are described alike, whatever members follow |
| Frames.BuildCallFrames | jtrace/frames.py:111-228 | The builder's loop gives the frames of the stack machine |
| Frames.Advance | jtrace/frames.py:150-204 | One instruction on the builder's lists is one step of the machine |
| Frames.CloseAbove | jtrace/frames.py:154-159 | Closing from the top down is popping to a depth |
| Frames.FindAncestor | jtrace/frames.py:182-187 | The search finds the nearest open frame of a function |
| Frames.CloseAtEnd | jtrace/frames.py:203-204 | What is still open is closed at the end of the stream |
| FrameShape.RawShape | jtrace/frames.py:150-204 | Frames are non-empty, open at the end exactly at the stream's end or a boundary, reach across none, and are pairwise disjoint or nested with distinct starts |
| FrameShape.StepShape | jtrace/frames.py:150-201 | One instruction keeps that shape |
| FrameShape.AfterShape | jtrace/frames.py:150-201 | The shape holds after every prefix |
| FrameOwner.InnermostIsOwner | jtrace/frames.py:150-204 | Every instruction is covered, and the latest-started frame around it is the one on top when it ran |
| FrameOwner.CoverersWereOpen | jtrace/frames.py:150-204 | The frames that cover an instruction are exactly those on the stack when it ran |
| FrameOwner.OwnerMatchesIff | jtrace/frames.py:150-201 | That frame stands for the instruction's function if and only if the depth cap did not refuse the call |
| FrameOwner.AfterBounded | jtrace/frames.py:176-201 | The stack never exceeds the cap, and levels stay between -32 and the stack position |
| FrameLabels.FrameLabel | jtrace/frames.py:136-201 | A frame carries the name, entry, file and line of its first instruction, and is open at its start exactly at the stream's start, a boundary, or off its function's entry |
| FrameLabels.UnknownNameReads | jtrace/frames.py:107-108 | a frame in no function is named 0x and the lower-case hexadecimal digits that read back as its address, at least eight and padded no further |
| FrameDepths.CallerEncloses | jtrace/frames.py:176-201 | A frame whose beginning was seen lies within an earlier frame exactly one depth up |
| FrameLabels.StepLabelled | jtrace/frames.py:150-201 | One instruction keeps labels right |
| FrameResults.EachFrame | jtrace/frames.py:203-228 | Every finished frame is in range, of depth below the reported one, and open at its end exactly where it should be |
| FrameResults.FramesNest | jtrace/frames.py:226-226 | The list is strictly sorted by start, and any two frames are disjoint or nested |
| FrameResults.InnermostFrame | jtrace/frames.py:111-228 | The last listed frame around an instruction is its own function's if and only if the depth cap did not refuse the call |
| FrameResults.ReportedDepth | jtrace/frames.py:209-228 | The reported depth is attained and exceeds the cap by at most 32 |
| FrameResults.ResultMembers | jtrace/frames.py:212-226 | Normalising and sorting lose and invent no frame |
| FrameResults.NoInstructionsNoFrames | jtrace/frames.py:206-207 | No frames if and only if no instructions |
| FrameDepths.DepthRule | jtrace/frames.py:176-201 | For every stream a frame is listed one depth below the innermost frame it lies in if and only if its call was seen, and otherwise no deeper than that frame |
| FrameDepths.StepSits | jtrace/frames.py:150-201 | One instruction keeps every open frame one level above the one it lies on if its call was seen, and otherwise not above it |
| FrameDepths.InnermostSits | jtrace/frames.py:150-204 | The innermost frame around another is the one it was opened on |
| FrameDepths.NestedAtOneLevel | jtrace/frames.py:194-201 | A return into unseen code gives nested frames of equal level |
| FrameEvents.BeginsIff | jtrace/frames.py:144-201 | A listed frame begins at an instruction if and only if that is the first, or behind a boundary, or at its function's entry with fewer frames around the instruction before than the cap, or, off the entry, of a function no such frame stands for (unresolved: behind a resolved innermost one) |
| FrameEvents.EndsIff | jtrace/frames.py:154-201 | A listed frame around an instruction ends before the next one if and only if that is behind a boundary, or a return past it to the latest frame of its function, or off any seen function and the frame the innermost |
| FrameEvents.DepthsAre | jtrace/frames.py:144-226 | Frames that begin a stretch have one depth, at most 32; a call is one deeper than the innermost frame before it, code not seen before one less deep than the frame it replaces, down to 32 below a stretch's beginning |
| FrameEvents.SomeAtZero | jtrace/frames.py:209-216 | Some frame has depth zero |
| FrameSplit.BreakSplits | jtrace/frames.py:154-159 | With a boundary where two streams meet, the frames are those of the first and those of the second moved along |
| FrameSplit.RawLater | jtrace/frames.py:154-159 | The same, as lists |
| FrameSplit.StepLater | jtrace/frames.py:150-201 | A step later in a longer stream is the same step |
| ImageFrames.InnermostInImage | jtrace/frames.py:111-228 | For every image and stream, the innermost frame's identity is right if and only if the cap did not refuse the call |
| ImageFrames.EntryIsOwn | jtrace/elf.py:297-326 | The symbol an address lies in is the one its own entry lies in |
| ImageFrames.BuildImageFrames | jtrace/frames.py:111-228 | Frames built through the span caches, whatever those held, are the frames of the uncached lookups |
| ImageFrames.StepLooksHere | jtrace/frames.py:150-201 | A step depends only on what its own address resolves to |
| Elf.ResolveIsScan | jtrace/elf.py:277-326 | Sorting, deduplicating and bisecting find what one pass finds: the largest symbol at the greatest entry at or below the address, within its size |
| Elf.ResolveChooses | jtrace/elf.py:277-326 | A lookup finds a symbol if and only if it is the function symbol not at zero with the greatest entry not above the address, of those the largest, of those the first listed, and the address is within its size if it has one |
| Elf.SpanIsConstant | jtrace/elf.py:328-362 | A span holds its address and the answer is constant over it |
| Elf.KeptIsBest | jtrace/elf.py:277-295 | The symbol kept at an entry is the one a scan must find |
| Elf.OddSpanIsHole | jtrace/elf.py:328-362 | A span that starts at an odd address is a hole behind an odd-sized symbol |
| Elf.ElfFile.BuildFunctionIndex | jtrace/elf.py:277-295 | The loop builds the specified index |
| Elf.ElfFile.ResolveFunction | jtrace/elf.py:297-326 | The lookup builds the index on first use and answers from it |
| Elf.ElfFile.SpanAt | jtrace/elf.py:328-362 | So does the span lookup |
| LineTables.ResolveIsScan | jtrace/dwarf.py:175-201 | For rows in any order, sorting and bisecting find what one pass finds |
| LineTables.ResolveNoneIff | jtrace/dwarf.py:191-201 | None exactly when no row lies at or below, or all rows at the greatest such address are end rows |
| LineTables.SpanIsConstant | jtrace/dwarf.py:203-231 | A span holds its address and the answer is constant over it |
| Stretches.RowSpanExact | jtrace/dwarf.py:203-231 | A row span reaches exactly from the nearest row address at or below to the nearest above, or to the bounds |
| Stretches.FunctionSpanExact | jtrace/elf.py:328-362 | A function span reaches exactly between the nearest function entries and ends, told from the symbols as given |
| Stretches.TogetherIff | jtrace/symbols.py:233-247 | An address lies in the stretch of another exactly if no entry, end or row address lies between them |
| SpanCache.CacheTransparent | jtrace/symbols.py:181-228 | After any history a query gets the uncached answer, for even addresses and, absent odd holes, all |
| SpanCache.TransparentIff | jtrace/symbols.py:181-209 | The function cache is invisible for all addresses if and only if no odd hole shares a slot with its start |
| SpanCache.OddHoleShows | jtrace/symbols.py:200-209 | Behind such a hole the cache answers None where the uncached lookup finds the symbol |
| SpanCache.OneOddHole | jtrace/symbols.py:200-209 | An image with one five-byte function has such a hole |
| SpanCache.SourceTransparent | jtrace/symbols.py:211-231 | The source cache is invisible for every address and history |
| SpanCache.FreshFunctionSound | jtrace/symbols.py:181-209 | What a miss caches holds the address and is right for every address whose masked form it holds |
| SpanCache.FunctionAtSays | jtrace/symbols.py:181-209 | An address resolves to the symbol one pass finds, with its value and size and its demangled name if there is one |
| SpanCache.SlotSays | jtrace/symbols.py:181-188 | Sixteen neighbouring addresses share a slot, and slots come round every 4096 addresses |
| Symbols.Symbolizer.FunctionSpan | jtrace/symbols.py:181-209 | One query changes one slot as the value cache says, answers as uncached, and for an even address gives exactly its stretch between function entries and ends |
| Symbols.Symbolizer.SourceSpan | jtrace/symbols.py:211-224 | The same for sources and row addresses, building the line table on first use |
| Symbols.Symbolizer.ResolveFunction | jtrace/symbols.py:226-228 | The uncached answer |
| Symbols.Symbolizer.ResolveSource | jtrace/symbols.py:230-231 | The uncached answer |
| Symbols.Symbolizer.ResolveSpan | jtrace/symbols.py:233-247 | Both answers and, whatever the caches held, exactly the stretch around an even address without an entry, end or row address inside, throughout which both stay right |
| Rows.SpanRuns | jtrace/symbols.py:249-270 | Whatever the caches hold, runs are non-empty, consecutive and cover the stream, each span is right throughout its run, and neighbours are in one run if and only if no entry, end or row address lies between them |
| Rows.GetItem | jtrace/rows.py:79-85 | Indexing gives the row of the uncached lookups, negative indices from the end, others refused; only the indexed address is looked up |
| Rows.RowSays | jtrace/rows.py:145-158 | A row shows its place in the whole stream, its address, the name, file and line that address resolves to, and its own run count |
| Rows.Iterate | jtrace/rows.py:87-106 | Iterating by runs gives at every position the row that indexing gives |
| Rows.ViewRuns | jtrace/rows.py:130-141 | Runs of a view are consecutive, cover it, agree with every row in them, and part neighbours exactly where symbolization can change |
| Rows.MoveRuns | jtrace/rows.py:130-141 | Shifting runs by the base index keeps that |
| Coverage.BuildCoverageRows | jtrace/coverage.py:151-240 | The dictionary loops give exactly the rows of the resolved starts grouped by entry and by line, sorted |
| Coverage.RecordFunction | jtrace/coverage.py:179-195 | Adding one start keeps every function accumulator equal to its starts so far |
| Coverage.RecordLine | jtrace/coverage.py:197-210 | And every line accumulator |
| Coverage.ComputeTotals | jtrace/coverage.py:243-258 | Totals are column sums over every row |
| Coverage.FunctionOrders | jtrace/coverage.py:226-226 | File, line and name give a consistent sorting order |
| Coverage.FunctionLessIff | jtrace/coverage.py:226-226 | Function rows are ordered by file, then line, then name, texts by the first place they differ |
| Coverage.LineLessIff | jtrace/coverage.py:238-238 | Line rows by file, then line |
| CoverageLaws.FunctionsConserve | jtrace/coverage.py:168-226 | Function rows' instructions, covered and executed sum to the resolved starts, those that ran and their counts |
| CoverageLaws.LinesConserve | jtrace/coverage.py:197-238 | Line rows' instructions sum to the resolved starts that have a source, and covered ones likewise |
| CoverageLaws.ReportRows | jtrace/coverage.py:212-240 | A report has exactly one row for each function entry and each source line met |
| CoverageLaws.ReportsSorted | jtrace/coverage.py:212-240 | Function rows come back in the order of file, line and name, line rows strictly in that of file and line |
| CoverageSites.StartsAre | jtrace/coverage.py:167-185 | The starts are the listed addresses that resolve, each with its function's masked entry and name, its own source, and its halfword's count in its section |
| CoverageSites.LineRowSays | jtrace/coverage.py:197-238 | A line row counts the listed, resolving addresses whose own source it is, those that ran, and their largest count |
| CoverageSites.LinesMet | jtrace/coverage.py:197-210 | There is a row for a line exactly if some listed, resolving address has it as source |
| CoverageSites.FunctionRowCounts | jtrace/coverage.py:179-225 | A function row counts its listed addresses, those that ran, and the distinct source lines of either |
| CoverageSites.FunctionRowSays | jtrace/coverage.py:176-225 | It is named by its first listed address, placed at its entry's source or else that address's, and executed as often as its addresses together |
| CoverageSites.RunCountSays | jtrace/coverage.py:194-195 | Its run count is that of its entry in the last section that lists it |
| CoverageSites.FunctionsMet | jtrace/coverage.py:176-190 | There is a row for a function exactly if some listed address lies in it |
| CoverageLaws.FunctionRowBounds | jtrace/coverage.py:190-225 | In every function row covered is within total, run count within executed, covered lines within lines within instructions |
| CoverageLaws.LineRowBounds | jtrace/coverage.py:197-237 | A line is covered exactly when one of its instructions ran, and its run count is the largest of theirs |
| CoverageLaws.RunCountOrder | jtrace/coverage.py:194-195 | A run count is independent of order if and only if no two starts at the entry disagree |
| CoverageLaws.FunctionRowStays | jtrace/coverage.py:168-225 | Reordered starts change no number of a function row when entries agree, and no field when names agree and the entry has a source |
| CoverageLaws.LineReportStays | jtrace/coverage.py:197-238 | Reordered starts give literally the same line report |
| CoverageLaws.TotalsStay | jtrace/coverage.py:243-258 | With pairwise distinct starts, totals do not depend on walking order |
| CoverageLaws.ReportFiguresStay | jtrace/coverage.py:212-226 | When no two starts at an entry disagree, every walking order reports the same figures, as a multiset over the whole report |
| CoverageLaws.WalkingOrderIff | jtrace/coverage.py:151-240 | Every function has the same figures in every order of the sections, and of the starts within each, if and only if no two starts at any entry disagree |
| CoverageLaws.AgreedWalksAlike | jtrace/coverage.py:151-258 | When none disagree, no such order changes the figures of the report or its totals |
| CoverageLaws.TotalsHideOrder | jtrace/coverage.py:151-258 | When some disagree the totals can still be the same in every order of the sections |
| CoverageLaws.TotalsByFigures | jtrace/coverage.py:243-258 | Totals are decided by the figures of the rows, in any order |
| CoverageLaws.TotalsGrow | jtrace/coverage.py:243-258 | No rows come to nothing, and each row adds its own figures |
| CoverageLaws.SectionsReorder | jtrace/coverage.py:167-175 | Reordering sections reorders the resolved starts and nothing else |
| CoverageLaws.StartsReorder | jtrace/coverage.py:167-175 | So does reordering starts within a section |
| Leb128.UlebRoundTrip | jtrace/dwarf.py:98-107 | Reading an encoded unsigned number gives it back and consumes exactly its bytes, for all numbers |
| Leb128.SlebRoundTrip | jtrace/dwarf.py:109-120 | The same for signed numbers |
| Leb128.OrAbove | jtrace/dwarf.py:98-120 | Or-ing shifted bits above a number adds them |
| Leb128.LebFaults | jtrace/dwarf.py:98-120 | Running off the end is the only fault of a number |
| Leb128.Reader.Uleb | jtrace/dwarf.py:98-107 | The loop reads the number at its offset, or faults at the end of the bytes |
| Leb128.Reader.Sleb | jtrace/dwarf.py:109-120 | The same with sign extension |
| LineAssembly.AssembledRuns | jtrace/dwarf.py:359-409 | Reading the bytes of any written program ends in the registers it means, emits exactly its rows and stops at its end, registers and rows written out |
| LineAssembly.OpStep | jtrace/dwarf.py:359-409 | Each opcode, standard, special, extended or unknown, does from its bytes what it means |
| LineAssembly.RowIs | jtrace/dwarf.py:329-347 | A row carries the registers and the file of the table, or a name made of its number where the table has none |
| LineAssembly.CutOffMeans | jtrace/dwarf.py:359-409 | A program cut off behind an opcode still emits the rows before the cut |
| LineAssembly.StartsFresh | jtrace/dwarf.py:335-336 | The registers at the start of a sequence |
| LinePrograms.RunProgram | jtrace/dwarf.py:335-409 | The opcode loop ends by cursor progress and emits the machine's rows up to a fault |
| LinePrograms.DoOpcode | jtrace/dwarf.py:359-409 | One turn of the loop is one step of the machine |
| LinePrograms.DoExtended | jtrace/dwarf.py:367-380 | Extended opcodes, skipped by their length when unknown |
| LinePrograms.DoStandard | jtrace/dwarf.py:382-409 | Standard opcodes, unknown ones skipped by their operand count |
| LinePrograms.AdvancesAdd | jtrace/dwarf.py:349-357 | Any run of special, advance_pc and const_add_pc opcodes reaches the address and op index that their sum of operations makes up |
| LinePrograms.AdvanceReaches | jtrace/dwarf.py:349-357 | With one operation to an instruction the address grows by min_inst_length times the operations; otherwise by the whole instructions op index and operations make up, and the rest is the op index |
| LinePrograms.AdvanceTwice | jtrace/dwarf.py:349-357 | Two advances are one by the sum, several operations to an instruction included |
| LinePrograms.StepCarries | jtrace/dwarf.py:349-357 | The op index stays below the operations in an instruction |
| LinePrograms.ZeroDivisionIff | jtrace/dwarf.py:362-396 | Division by zero happens exactly at a special opcode or a constant advance with line_range zero |
| LinePrograms.DividesIff | jtrace/dwarf.py:335-409 | Under a zero line_range a program divides by zero if and only if walking from opcode to opcode, without registers, meets a special opcode or a constant advance |
| LinePrograms.PositiveRangeIsSafe | jtrace/dwarf.py:359-409 | With a positive line_range a program ends only at its end or for lack of bytes |
| LineUnits.ParseLineTable | jtrace/dwarf.py:249-292 | The loop gathers the rows of every unit at its declared place, past the two faults it catches and no others |
| LineUnits.ParseOneProgram | jtrace/dwarf.py:295-409 | One unit adds its rows, those before a fault included, and says which fault |
| UnitAssembly.UnitRuns | jtrace/dwarf.py:295-409 | A written unit, short or long, of any version, gives the rows its program means under its header and file table |
| UnitAssembly.NamesShown | jtrace/dwarf.py:319-333 | The rows of a unit are given the paths of its file table, in their order, text as it is and bytes byte by byte |
| UnitAssembly.FieldsFound | jtrace/dwarf.py:304-336 | A written header is read back field by field, line_base signed, and table and program are found where they begin |
| UnitAssembly.UnitFound | jtrace/dwarf.py:265-276 | A written unit is found with its declared end |
| UnitAssembly.GatherJoins | jtrace/dwarf.py:262-292 | A table that is built holds the rows of its units, in their order |
| LineUnits.UnitsIgnoreBodies | jtrace/dwarf.py:265-290 | Whatever bytes are in the bodies, the same units are visited with the same ends |
| LineUnits.TableLostIff | jtrace/dwarf.py:286-290 | The whole table is lost if and only if some unit divides by a zero line_range or has a file table that mixes kinds |
| LineUnits.UnitLostIff | jtrace/dwarf.py:295-409 | A unit has four faults, and each of the two that are not caught under exactly its own condition |
| LineUnits.GoodRowsLost | jtrace/dwarf.py:286-290 | A good unit beside one that divides by zero loses its rows |
| LineUnits.GoodRowsLostByForm | jtrace/dwarf.py:466-470 | So it does, with no zero line_range anywhere, beside one with a path of form data1 or a directory index of form string |
| LineUnits.PositiveRangesParse | jtrace/dwarf.py:286-290 | Without a zero line_range, and without a file table that mixes kinds, the whole table is built |
| LineUnits.OrdinaryUnitsParse | jtrace/dwarf.py:286-290 | So it is when headers declare text paths and number indices, whatever else is wrong with the units |
| FileTables.TableTypeErrorIff | jtrace/dwarf.py:412-471 | A file table raises a type error if and only if it is of version 5 and reaches an entry that clashes; its other faults are caught |
| FileTables.FilesClashIff | jtrace/dwarf.py:459-471 | The entries fail by their types exactly when one that clashes can be reached |
| FileTables.FormsDecide | jtrace/dwarf.py:441-535 | Text paths and number indices never clash; number paths, or indices that are none, clash exactly when there is a first entry that can be read |
| FileTables.EntryKinds | jtrace/dwarf.py:479-535 | An entry has the kinds of value its format declares, the last form winning, and nothing else |
| FileTables.FullPathIff | jtrace/dwarf.py:538-550 | No path can be built exactly when the name is a number or a relative name differs in kind from a directory it is put under |
| FileTables.ReadTable5 | jtrace/dwarf.py:441-471 | The loops read directories and files as declared, or the first fault |
| FileTables.ReadTable2 | jtrace/dwarf.py:412-438 | The loops read both lists up to their empty strings |
| FileTables.ReadEntry | jtrace/dwarf.py:479-491 | One entry, form after form |
| FileTables.ReadForm | jtrace/dwarf.py:494-535 | Each form reads its value and advances by its size, or faults |
| FileAssembly.FormRead | jtrace/dwarf.py:494-535 | Every form, as written, gives back its value and consumes exactly its bytes |
| FileAssembly.EntryRead | jtrace/dwarf.py:479-491 | A written entry gives its path and directory index, the last of each |
| FileAssembly.Table5Read | jtrace/dwarf.py:441-471 | A written version 5 table gives the names its entries make, in order |
| FileAssembly.Table2Read | jtrace/dwarf.py:412-438 | A written older table gives the full paths of its files, the compilation directory being number zero |
| FileAssembly.TextPath | jtrace/dwarf.py:538-553 | How a text name, its directory and the compilation directory make a path |
| FileAssembly.FilePath | jtrace/dwarf.py:466-470 | Which directory and which compilation directory an entry's path goes under |
| Itm.DecodeItm | jtrace/swo.py:183-225 | The loop yields the packets of the decoding function |
| Itm.PrintedDecodes | jtrace/swo.py:183-225 | Printing stimulus packets among synchronisation, protocol and hardware packets and decoding gives exactly the stimulus packets |
| Itm.PrintedPacket | jtrace/swo.py:183-225 | A printed item is one packet to the decoder |
| Itm.PrefixDecodes | jtrace/swo.py:183-225 | Decoding a prefix of any bytes gives a prefix of the packets |
| Itm.SkipSync | jtrace/swo.py:199-206 | The zeros of a synchronisation packet and the byte that ends them are passed |
| Itm.SkipProtocol | jtrace/swo.py:207-216 | A protocol packet is passed as its continuation bits say |
| Bisect.BisectRight | jtrace/store.py:360-367 | The insertion point after every element not greater |
| Bisect.BisectLeft | jtrace/store.py:138-142 | The insertion point before every element not less |
| Sorting.SortSorts | jtrace/dwarf.py:175-182 | The sort behind every table orders its result |
| Sorting.SortStable | jtrace/elf.py:277-295 | And keeps the order of equal keys |

## Left out

- Talking to the probe (`jtrace/link.py`, `loader.py`, `structs.py`, `tracebuf.py`, `rtt.py`, `hss.py`, `powertrace.py`, `coresight.py`, the rest of `swo.py` and of `strace.py`): calls into a closed library, replaced by the ring of `Capture.Probe`.
- Orchestration and file output (`jtrace/capture.py`, `cli.py`, `artifacts.py`): only how a capture passes capacity and boundaries is used.
- Real time, sleeping and progress callbacks: the deadline is a turn number.
- Floating point: slice tuning is over reals and cycle interpolation over exact fractions, truncated as the source truncates; rounding of 64-bit floats is not modelled.
- Estimates.IndexOfEstimate: states the bound in exact arithmetic, because the source's float division adds an error of its own.
- Snapshot headers: JSON itself is an arbitrary pair of functions between a header and its text, `meta` is a map of text, and a hand-made header with a number of the wrong sign or type is not modelled; the `typecodes` key, which nothing reads, is left out.
- ELF headers, sections and symbol-table parsing, demangling tools and how compilation directories are found: an image is a symbol list, a name map and line rows, and a map gives a unit's compilation directory.
- A file name of form block or data16 is a bytes object in the source; rows show it as text, byte by byte.
- Slices of stores and rows, equality of views and text formatting other than the name of unknown code: easy beside indexing.
- Error messages: error cases are modelled, their wording is shortened.
- `jtrace/thumb.py`: coverage takes its result, the instruction starts, as given.
- Coverage.BuildCoverageRows: resolves through an arbitrary resolver rather than through the caches, which `SpanCache.TransparentIff` shows to give the same answers; the text key `file:line` is the pair itself, which that text determines.
- Capture.Probe.Read: empties the ring, so a remainder a real probe might keep is not modelled.
- `run_count_lookup` in `jtrace/coverage.py`: a first-match search; rows take it as a given function.
