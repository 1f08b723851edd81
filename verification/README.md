# JPEG entropy coding and scan control, verified

A model in Dafny of the entropy coding of the IJG library, release 8d (`ZombieGame/jni/jpeg8d`), and of the
multi-scan control around it, with proofs that what is encoded comes back. It follows the C code branch by
branch: the arithmetic coder and decoder with their registers (`jcarith.c`, `jdarith.c`, `jaricom.c`), the
Huffman coder and decoder with their bit buffers, tables and runs (`jchuff.c`, `jdhuff.c`), and scan scripts,
progression and passes (`jcmaster.c`, `jcparam.c`, `jcapimin.c`). The methods that code and decode are
imperative and work on objects with the fields of the original; each is proved against functions that say
which decisions, tokens or coefficients are meant, and the theorems are about those functions and about whole
runs. Sections and figures are those of ITU-T T.81.

## How it is built

**Arithmetic coding.** `IntervalCoder` is the coder in unbounded integers, `ProbabilityTable` the estimation
machine. `CodeSegments` says which bytes may represent a final interval and `ByteStuffing` how they are
escaped. `ArithEncoder` and `ArithDecoder` hold the registers: the encoder's deferred carries, stacked 0xFFs
and pending zeros, the decoder's floating cut point and lazy renormalisation. `DecisionTrip` joins the two for
any list of decisions. On top are `Binarisation`, `BinRoles` (which decisions share a statistics bin, and that
magnitudes are coded in order), `ArithBlockEncoder`/`ArithBlockDecoder` (one block in each of five scan modes),
`ArithScan` and `ScanLayout` (MCUs, DC state, restart intervals), `ArithMcuEncoder`/`ArithMcuDecoder`, and
`ArithRoundTrip` for a whole scan.

**Huffman coding.** `HuffmanTable`, `HuffmanBuilder` and `HuffmanDecoder` derive tables from code counts and
look codes up. `BitWriter` and `BitReader` pack and unpack bits, the one with a buffer that may be full, the other
with input that may not have arrived; `HuffmanStream` reads their contents as symbols and raw bits. `HuffmanBlocks`,
`HuffmanRuns`, `HuffmanScan` and `HuffmanBytes` say what a block, a run of blocks and a scan amount to in symbols and
in bytes. `HuffmanMcuEncoder` is the sequential encoder with its working state, `HuffmanScanEncoder` the four
progressive ones on top of `HuffmanRunEncoder`, `HuffmanGather` the trial encoder for statistics.
`HuffmanMcuDecoder` decodes all five kinds of scan, with `HuffmanPlace` for where it stands and `HuffmanRunDecoder`
for AC bands. `HuffmanTrip` joins both sides. `HuffmanMerge`, `HuffmanListing` and `HuffmanLimit` make tables from
frequencies, `ScanSymbols` says which symbols a scan can have, `OptimizedScan` puts both passes and a decoder
together, and `HuffmanRange` is about 8-bit samples.

**Scans, images and passes.** `ScanScript`, `SimpleProgression` and `Progression` are about scripts and what
they leave in a block; `ImageTrip` sends every scan of a script through either coder and its decoder.
`PassMaster` is the pass machine, and `GatheredScans` says which scans need its statistics passes. `Blocks`,
`Scans`, `Markers`, `RestartLayout`, `BitStrings` and `Numbers` are shared.

Predicates that proofs carry around without looking inside are folded: their body stands behind
`Unfolded(name, k)`, with one name of `Numbers.Fold` for each, and the step that needs the body names it.

## Model

| member | source | states |
|---|---|---|
| `ArithRoundTrip.ScanRoundTrip` | ZombieGame/jni/jpeg8d/jcarith.c:218-828 | A scan of any MCUs, in any of the five modes, with any restart interval, encoded behind any bytes and followed by a marker and anything else: the decoder stores exactly what the scan delivers if no DC difference exceeds 2^15 in magnitude; from cleared blocks it does so exactly then |
| `ArithRoundTrip.EncodeScan` | ZombieGame/jni/jpeg8d/jcarith.c:318-828 | Output only grows, by the escaped segments of all restart intervals and their numbered markers, and those segments hold exactly the MCUs given |
| `ArithRoundTrip.DecodeScan` | ZombieGame/jni/jpeg8d/jdarith.c:105-627 | From an input that holds such a scan: every MCU, if the DC differences fit; from cleared blocks only then |
| `ArithRoundTrip.SmallDcFits` | ZombieGame/jni/jpeg8d/jdarith.c:534-552 | Transmitted DC values of magnitude at most 2^14 always fit, whatever the restarts and components |
| `ArithRoundTrip.GrayRoundTrip` | ZombieGame/jni/jpeg8d/jdarith.c:540-552 | Two gray blocks come back exactly if their DC values are at most 2^15 apart |
| `ArithRoundTrip.ExtremeDcIsLost` | ZombieGame/jni/jpeg8d/jdarith.c:540-552 | The DC values -32768 and 32767 in succession are encoded and do not come back |
| `DecisionTrip.DecisionRoundTrip` | ZombieGame/jni/jpeg8d/jcarith.c:132-311 | For any list of decisions in any bins: the decoder returns the same bits, every bin goes through the same states on both sides, and afterwards the reader stands at the marker, no byte left unread |
| `ProbabilityTable.EstimatesFollow` | ZombieGame/jni/jpeg8d/jaricom.c:31-149 | What the table of states is for, in every state that adapts: the more probable symbol makes the other one rarer until it is as rare as can be; the less probable one makes itself less rare, and exactly where it cannot the two change places; neither leads to the state that does not adapt |
| `ProbabilityTable.EnoughMps` | ZombieGame/jni/jpeg8d/jaricom.c:31-149 | From any state enough of the more probable symbol leads to the state that expects nothing else |
| `ProbabilityTable.FixedStays` | ZombieGame/jni/jpeg8d/jaricom.c:148-152 | The state that does not adapt stays, whatever comes |
| `IntervalCoder.SymbolsShare` | ZombieGame/jni/jpeg8d/jcarith.c:236-258 | The parts of the two symbols tile the interval, one of them has the size in the table, and the more probable symbol never has the smaller part |
| `IntervalCoder.UnusedBin` | ZombieGame/jni/jpeg8d/jcarith.c:332-346 | A bin that has not been used favours 0, as little as the table allows; only the bin for signs stays as it is |
| `ArithEncoder.ArithEncoder.ArithEncode` | ZombieGame/jni/jpeg8d/jcarith.c:218-311 | One decision more: bytes out, stacked 0xFFs, pending zeros, the buffer and C still denote the unbounded-precision base; the buffer never exceeds 0xFE and a carry always has a byte to go to |
| `ArithEncoder.ArithEncoder.FinishPass` | ZombieGame/jni/jpeg8d/jcarith.c:132-192 | What has been written is the escaped form of a segment that ends in no zero byte and stands for the point of the final interval with the most trailing zero bits |
| `IntervalCoder.FinalPointIsInside` | ZombieGame/jni/jpeg8d/jcarith.c:138-146 | That point lies in the interval, ends in at least 15 zero bits, and no other point of the interval ends in as many |
| `CodeSegments.SegmentIsUnique` | ZombieGame/jni/jpeg8d/jcarith.c:138-192 | No other bytes are a segment of the same interval |
| `CodeSegments.SegmentIsShortest` | ZombieGame/jni/jpeg8d/jcarith.c:138-192 | No shorter bytes denote a point of the final interval |
| `ArithDecoder.ArithDecoder.ArithDecode` | ZombieGame/jni/jpeg8d/jdarith.c:105-182 | One decision of the exact coder; on an encoder's bytes it is the encoder's, and the decoder goes on following it |
| `ArithDecoder.ArithDecoder.AtSegmentEnd` | ZombieGame/jni/jpeg8d/jdarith.c:113-146 | Behind the last decision every byte of the segment has been read: the marker is the next thing in the input, or has just been met |
| `ArithBlockEncoder.EncodeAcBand` | ZombieGame/jni/jpeg8d/jcarith.c:484-543 | The decisions put out are those of figure F.5 for the band, ends of block included |
| `ArithBlockDecoder.DecodeAcBand` | ZombieGame/jni/jpeg8d/jdarith.c:347-388 | Facing those decisions, the band of the block is filled with the coefficients they were made from, and just those decisions are used up |
| `BinRoles.BandDecisions` | ZombieGame/jni/jpeg8d/jcarith.c:488-513 | Each position has its own bin for the decision that nothing follows in the band and its own for the decision that the coefficient is not zero, and these are true exactly then |
| `BinRoles.AcBinsApart` | ZombieGame/jni/jpeg8d/jcarith.c:509-540 | Coefficients at different positions share no statistics bin but the one for signs and, on the same side of Kx, those for larger magnitudes |
| `BinRoles.AcBitsApart` | ZombieGame/jni/jpeg8d/jcarith.c:518-540 | The category of a magnitude and its bits share no bin, and neither do the bits of different categories |
| `BinRoles.AcMagnitudesInOrder` | ZombieGame/jni/jpeg8d/jcarith.c:515-540 | The decisions about two magnitudes are the same, in the same bins, up to one where only the greater magnitude has a 1 |
| `BinRoles.DcContextsApart` | ZombieGame/jni/jpeg8d/jcarith.c:394-436 | Behind differences of different kinds the first three decisions about a difference are in bins of their own |
| `BinRoles.ContextIsKind` | ZombieGame/jni/jpeg8d/jcarith.c:429-435 | Two differences condition the next one in the same way exactly if both are zero or at most 2^(L - 1), or both of the same sign and beyond 2^U, or both of the same sign and between |
| `BinRoles.DcBitsApart` | ZombieGame/jni/jpeg8d/jcarith.c:419-444 | For differences of up to 2^15 category and bits share no bin, and neither do the bits of different categories |
| `BinRoles.DcBinsMeet` | ZombieGame/jni/jpeg8d/jcarith.c:419-444 | Beyond 2^15, which the decoder refuses, the last category decision is in the bin for the bits of small differences |
| `BinRoles.DcMagnitudesInOrder` | ZombieGame/jni/jpeg8d/jcarith.c:419-444 | The decisions about two DC differences of the same sign are in the order of their magnitudes |
| `ArithScan.IntervalStartsAfresh` | ZombieGame/jni/jpeg8d/jcarith.c:334-339 | With a fresh prediction the first difference is the DC value itself, in the context of a difference of zero |
| `ArithBlockEncoder.EncodeRefineBand` | ZombieGame/jni/jpeg8d/jcarith.c:590-678 | The decisions of figure G.10, with the end of block of the previous scan found as the code finds it |
| `ArithBlockDecoder.DecodeRefineBand` | ZombieGame/jni/jpeg8d/jdarith.c:431-495 | Facing those decisions, the band gains exactly one bit of precision |
| `HuffmanTrip.ScanRoundTrip` | ZombieGame/jni/jpeg8d/jchuff.c:486-1110 | A scan of any of the five kinds, with DC prediction, runs of ends of block, correction bits and restart intervals, is encoded behind any bytes, with a destination that suspends if the scan is sequential, and decoded again in front of any marker from input that arrives in any pieces: every block receives what the scan gives, no run stays open, data are never found insufficient. It is an error exactly if a table is not legal, a symbol has no code or a coefficient is too large |
| `HuffmanTrip.EncodeScan` | ZombieGame/jni/jpeg8d/jchuff.c:510-1110 | The bytes put out are a function of the MCUs, the tables and the parameters: whatever room there is from call to call, they are those of one uninterrupted run. Every restart interval is closed in itself, with its open run in front of the marker |
| `HuffmanTrip.DecodeScan` | ZombieGame/jni/jpeg8d/jdhuff.c:635-1302 | From an input that holds such a scan, however it arrives: every MCU as the scan delivers it, no pending run, none of the padding mistaken for data |
| `HuffmanScanEncoder.ScanEncoder.EncodeMcu` | ZombieGame/jni/jpeg8d/jchuff.c:510-910 | The four progressive encoders: the MCUs taken so far are one more, in symbols put out or in symbols counted, a restart marker that was due included; it stops only for a symbol without a code or a coefficient out of range |
| `HuffmanRunEncoder.RunEncoder.EncodeFirst` | ZombieGame/jni/jpeg8d/jchuff.c:646-713 | One block advances the record of finished blocks and of the open run as the specification says, counter and buffer limits included |
| `HuffmanRunEncoder.RunEncoder.EncodeRefine` | ZombieGame/jni/jpeg8d/jchuff.c:805-894 | The same for a refinement block: correction bits wait with the run they belong to and never exceed the buffer, and an end-of-block run never needs more than 14 extra bits |
| `HuffmanRunEncoder.RunEncoder.EmitEobrun` | ZombieGame/jni/jpeg8d/jchuff.c:458-482 | The open run goes out, its count and then its correction bits; it fails only for a symbol without a code, so the check for more than 14 extra bits never fires |
| `HuffmanBlocks.ExtraKeepsOrder` | ZombieGame/jni/jpeg8d/jchuff.c:923-960 | Among the values of one size the additional bits, as a number, are in the order of the values |
| `HuffmanBlocks.ExtendsBack` | ZombieGame/jni/jpeg8d/jdhuff.c:566-582 | The additional bits are as many as the size says, and extending them gives the value back |
| `HuffmanBlocks.SignIsExtra` | ZombieGame/jni/jpeg8d/jchuff.c:875-876 | The sign sent with a new coefficient is the additional bit of a coefficient of size one |
| `HuffmanScan.IntervalStartsAfresh` | ZombieGame/jni/jpeg8d/jchuff.c:500-526 | The first symbol of an interval is the size of the DC value itself |
| `HuffmanRuns.SilentRun` | ZombieGame/jni/jpeg8d/jchuff.c:708-713 | Up to 0x7FFF blocks without symbols make one end of block with their number, followed by their correction bits, unless more than 937 of these wait |
| `HuffmanRuns.EobSaysCount` | ZombieGame/jni/jpeg8d/jchuff.c:461-477 | The symbol and the bits of an end of block amount to the number of blocks it stands for |
| `HuffmanRuns.HeldIsSmall` | ZombieGame/jni/jpeg8d/jchuff.c:885-894 | Between blocks no more than 937 correction bits wait, and no run is complete |
| `HuffmanRunDecoder.DecodeFirst` | ZombieGame/jni/jpeg8d/jdhuff.c:784-839 | A block's coefficients and the remaining run, or, without input, nothing changed but coefficients that will be the same |
| `HuffmanRunDecoder.DecodeRefine` | ZombieGame/jni/jpeg8d/jdhuff.c:925-1050 | The refined block and the remaining run; a failed attempt undoes its new coefficients and leaves a block from which the same result is reached |
| `HuffmanGather.McuCounter.TestBlock` | ZombieGame/jni/jpeg8d/jchuff.c:1121-1187 | The trial encoder, which makes no bits, counts exactly the symbols that the output pass emits for the block, and fails exactly if a coefficient or the DC difference is out of range |
| `HuffmanGather.McuCounter.GatherMcu` | ZombieGame/jni/jpeg8d/jchuff.c:1196-1225 | After one more MCU the counts are those of all symbols of the MCUs so far, with predictions that start afresh where the output pass puts a restart marker |
| `HuffmanTrip.GatherScan` | ZombieGame/jni/jpeg8d/jchuff.c:1121-1225 | The statistics pass of a scan of any kind counts each symbol exactly as often as the output pass emits it, across prediction, runs and restarts |
| `HuffmanTrip.CoveredIsCodable` | ZombieGame/jni/jpeg8d/jchuff.c:1112-1119 | Legal tables with a code for everything counted code the whole scan: no missing code in the output pass |
| `HuffmanMcuEncoder.McuEncoder.EncodeMcu` | ZombieGame/jni/jpeg8d/jchuff.c:1015-1065 | The MCU is written, a due restart marker first, or it is an error, or the buffer is full and nothing has changed. An MCU that can be coded meets a full buffer exactly if its bytes would leave no byte of room |
| `HuffmanMcuEncoder.McuEncoder.Finish` | ZombieGame/jni/jpeg8d/jchuff.c:1085-1103 | The scan is complete and its bytes are those of the specification; it fails exactly if the last bytes would leave no byte of room |
| `HuffmanMcuDecoder.McuDecoder.TryMcu` | ZombieGame/jni/jpeg8d/jdhuff.c:635-668 | One attempt, which may fail at the restart marker or inside the MCU for want of input: then the decoder stands where it stood, or behind the marker, and whatever is left in the blocks, the scan makes the same of it |
| `HuffmanMcuDecoder.McuDecoder.DecodeMcu` | ZombieGame/jni/jpeg8d/jdhuff.c:694-1302 | Any number of failed attempts, each followed by more input, and then the MCU that one uninterrupted decode delivers, with the decoder in front of the next |
| `HuffmanBuilder.MakeEncoderTable` | ZombieGame/jni/jpeg8d/jchuff.c:160-245 | Succeeds exactly for legal counts with symbols in range and none listed twice, and then each listed symbol has its canonical code and no other symbol has one |
| `HuffmanBuilder.MakeDecoderTable` | ZombieGame/jni/jpeg8d/jdhuff.c:322-439 | Succeeds exactly for legal counts and, for DC, symbols up to 15; then code limits, offsets and all 256 lookahead entries are those of the canonical codes |
| `HuffmanTable.PrefixFree` | ZombieGame/jni/jpeg8d/jchuff.c:203-218 | No canonical code is the front of another |
| `HuffmanDecoder.LookaheadIsSearch` | ZombieGame/jni/jpeg8d/jdhuff.c:387-425 | For any next sixteen bits, a lookahead entry names the length and symbol that the bit-by-bit search finds, and an empty entry means the search ends beyond eight bits |
| `HuffmanDecoder.HuffDecode` | ZombieGame/jni/jpeg8d/jdhuff.c:591-627 | With the code of a symbol in front and anything behind it, the result is that symbol and exactly its bits are used, by lookahead or bit by bit |
| `HuffmanMerge.MergeCostIsLeast` | ZombieGame/jni/jpeg8d/jchuff.c:1284-1327 | No code lengths whose Kraft sum is at most one have a smaller total of frequency times length than the merging of the two smallest frequencies |
| `HuffmanMerge.MergeAll` | ZombieGame/jni/jpeg8d/jchuff.c:1268-1327 | The lengths left by the merge loop are optimal in that sense, have a Kraft sum of exactly one, and a code of n bits needs frequencies that add up to at least Fibonacci(n + 1). Because ties go to the larger symbol, no code is longer than the pseudo-symbol's |
| `HuffmanLimit.LimitLengths` | ZombieGame/jni/jpeg8d/jchuff.c:1342-1362 | The loop that cuts lengths down to 16 ends, always finds a shorter code to split, and keeps the number of codes and the Kraft sum; it takes the longest code that is short enough each time |
| `HuffmanLimit.GenOptimalTable` | ZombieGame/jni/jpeg8d/jchuff.c:1255-1389 | The table has no code of all ones and no code of more than 16 bits, and lists exactly the symbols that occur, each once, in the order of their optimal lengths. If no optimal length exceeds 16 every symbol has a code of its optimal length. A length overflow needs more than nine million symbols. The 8-bit counts wrap, unnoticed, exactly if the optimal lengths are the same for 256 codes, which takes 255 symbols |
| `HuffmanLimit.SizesFollow` | ZombieGame/jni/jpeg8d/jchuff.c:1374-1385 | A symbol with a shorter optimal code than another never has a longer one in the table, whatever the limit does |
| `HuffmanLimit.OnceEachWraps` | ZombieGame/jni/jpeg8d/jchuff.c:1260 | 255 symbols that occur once each: with the pseudo-symbol 256 codes of eight bits, and the count wraps |
| `HuffmanLimit.OverflowNeedsMany` | ZombieGame/jni/jpeg8d/jchuff.c:1329-1337 | A code of more than 32 bits needs frequencies that add up to at least 9,227,465 |
| `ScanSymbols.StatisticsAreUsable` | ZombieGame/jni/jpeg8d/jchuff.c:1396-1443 | The counts of a table add up to its number of symbols; at least one of them is not zero, and at most 12 in a DC table and 176 in an AC table |
| `OptimizedScan.OptimizedRoundTrip` | ZombieGame/jni/jpeg8d/jchuff.c:1396-1443 | Statistics, tables and output of a scan of any kind, and nothing is asked of tables: it is decoded from the tables made for it. It is an error only if a coefficient is too large or a table has millions of symbols; no code is found missing and neither side refuses a table |
| `HuffmanRange.RangeFits` | ZombieGame/jni/jpeg8d/jchuff.c:940-990 | No scan of coefficients as they come from 8-bit samples has one that the encoders find too large, whatever the prediction and the restarts |
| `HuffmanRange.Limits` | ZombieGame/jni/jpeg8d/jchuff.c:940-990 | What the encoders refuse, in numbers: AC coefficients beyond 1023 and DC differences beyond 2047 |
| `ScanScript.ValidateScript` | ZombieGame/jni/jpeg8d/jcmaster.c:357-489 | Accepts exactly the valid scripts, names the first scan that is not allowed behind those before it, and reports a component that is never sent |
| `ScanScript.CompleteIsAll` | ZombieGame/jni/jpeg8d/jcmaster.c:473-488 | A legal script is complete exactly if no component is left out of all its scans |
| `ScanScript.ReduceScript` | ZombieGame/jni/jpeg8d/jcmaster.c:492-523 | The array's front is the script with bands clipped to the block size and empty scans dropped |
| `ScanScript.ReducedIsLegal` | ZombieGame/jni/jpeg8d/jcmaster.c:492-523 | What it leaves of a legal progressive script is a legal script |
| `Progression.ScriptDelivers` | ZombieGame/jni/jpeg8d/jcmaster.c:357-489 | After the scans of any legal script a block shows each coefficient down to the last bit position sent of it and nothing below: AC cut toward zero, DC by an arithmetic shift. `ImageTrip.SendByScript` is about images and coder runs |
| `Progression.ScansArePrepared` | ZombieGame/jni/jpeg8d/jcmaster.c:430-470 | Every scan of a legal script finds the blocks of its components in the state it builds on |
| `Progression.Lossless` | ZombieGame/jni/jpeg8d/jcmaster.c:430-470 | A legal script that sends every coefficient down to bit 0 delivers the block unchanged |
| `Progression.SequentialIsLossless` | ZombieGame/jni/jpeg8d/jcmaster.c:458-489 | Every accepted sequential script delivers every block unchanged |
| `ImageTrip.SendByScript` | ZombieGame/jni/jpeg8d/jcmaster.c:357-489 | Any script the validator accepts, any image and any arrangement of its blocks in MCUs, each block once: when each scan goes through the arithmetic coder, or through statistics, the Huffman coder and input in pieces, after every scan the receiver's image shows each coefficient down to the last bit sent |
| `ImageTrip.SendProgressively` | ZombieGame/jni/jpeg8d/jcparam.c:558-630 | The standard progression, sent scan by scan through the coders, gives back the image |
| `ImageTrip.SmallImageFits` | ZombieGame/jni/jpeg8d/jdarith.c:540-552 | An image with DC values of magnitude at most 2^14, dummies included, meets the condition on DC differences in every scan by the arithmetic coder |
| `ImageTrip.EightBitImageFits` | ZombieGame/jni/jpeg8d/jchuff.c:940-990 | An image with coefficients as they come from 8-bit samples has none that is too large in any scan by the Huffman coder |
| `SimpleProgression.SimpleProgression` | ZombieGame/jni/jpeg8d/jcparam.c:558-630 | For YCbCr the script is the one that the documentation lists (wizard.txt:181-208), else the general one, scan by scan; it fills exactly the space reserved for it, the validator accepts it, and it sends every coefficient down to bit 0 |
| `PassMaster.Compress` | ZombieGame/jni/jpeg8d/jcmaster.c:664-858 | Over a whole compression or transcoding, optimised or not: each scan is sent once and in order, its data directly behind its own header, the one frame header in front of all. Optimised, each scan with Ss != 0 or Ah == 0 has statistics of its own, behind the data of the scan before and in front of its header, and another scan has them only in the first pass of a normal compression. The passes end with the number announced although some are skipped |
| `GatheredScans.SymbolsAreSent` | ZombieGame/jni/jpeg8d/jcmaster.c:700-709 | A scan sends Huffman symbols exactly if Ss != 0 or Ah == 0: DC refinement is the one kind that needs no table |
| `GatheredScans.SymbolsAreGathered` | ZombieGame/jni/jpeg8d/jcmaster.c:700-709 | With optimised tables no scan that sends symbols goes without statistics, and behind the first pass of a normal compression no other scan has them |
| `PassMaster.CompMaster.PrepareForPass` | ZombieGame/jni/jpeg8d/jcmaster.c:664-739 | The pass works on the next scan of the script, headers are out or put off, and the last pass is known as such, also when a pass for statistics is skipped |
| `PassMaster.CompMaster.FinishCompress` | ZombieGame/jni/jpeg8d/jcapimin.c:153-189 | The loop over the remaining passes ends with everything written |

## Findings

- The arithmetic coder does not invert for all coefficients. The encoder codes any difference of two 16-bit DC
  values; the decoder takes a magnitude category of 2^15 for a corrupt stream (jdarith.c:540-552) and delivers
  nothing more of the interval. The exact condition, that each difference is at most 2^15 in magnitude, is what
  `ArithRoundTrip.ScanRoundTrip` proves in both directions; `GrayRoundTrip` states it for two blocks and
  `ExtremeDcIsLost` gives the input -32768, 32767. Samples of 8 bits stay far from it (`SmallDcFits`). What the
  encoder sends there also shares a statistics bin with the bits of small differences (`BinRoles.DcBinsMeet`).
- `jpeg_gen_optimal_table` keeps its counts of code lengths in bytes (jchuff.c:1260). They wrap, and the table is
  wrong without an error, exactly if the optimal lengths have 256 codes of the same length, the pseudo-symbol's
  included; that takes 255 symbols (`HuffmanLimit.GenOptimalTable`), and 255 symbols that occur once each are enough
  (`HuffmanLimit.OnceEachWraps`). No scan comes near: at most 12 DC symbols and 176 AC symbols occur
  (`ScanSymbols.StatisticsAreUsable`).
- The "paranoid" check for code lengths above 32 (jchuff.c:1333-1336) can only fire with at least 9,227,464
  symbols in a scan (`HuffmanLimit.OverflowNeedsMany`).

## Left out

- ArithRoundTrip.ScanRoundTrip: promises nothing about MCUs behind a DC difference that is too large, where the decoder stops until the next restart.
- ArithBlockEncoder.EncodeAcBand: is the one routine for `encode_mcu` and `encode_mcu_AC_first`, which contain the same loop twice.
- ArithEncoder.ArithEncoder.ArithEncode: the counters of stacked and pending bytes are unbounded; the 32-bit registers do not overflow because of the bounds proved.
- ProbabilityTable.EstimatesFollow: the rows themselves are data of the original; what is proved is the order they keep, not where their numbers come from.
- HuffmanTrip.ScanRoundTrip: a destination suspends in sequential scans only; in a progressive one the original stops with an error at the first full buffer, which is not modelled.
- HuffmanMcuEncoder.McuEncoder.EncodeMcu: the working state is not a second object; the fields are saved at the beginning and restored when the buffer is full, with the same effect between calls.
- HuffmanMcuDecoder.McuDecoder.TryMcu: the input is an encoder's, cut off anywhere; the size of the pieces is any, but bytes that have arrived stay.
- HuffmanLimit.GenOptimalTable: for at least one used symbol, without which the original searches below its array, and frequencies of at most 10^9 in all, beyond which its search limit fails; what it makes of wrapped counts is not modelled.
- ImageTrip.SendByScript: the arrangement of blocks in MCUs is any that visits every block of the scan's components; how the library computes it from dimensions and sampling factors is not modelled.
- OptimizedScan.OptimizedRoundTrip: DC and AC tables are numbered in one list, the DC tables first.
- Suspension of the arithmetic coder, which does not support it and fails instead.
- Corrupt streams beyond what the decoders check: warnings, and the choice made by `jpeg_resync_to_restart`, which shows here only as the result that a resynchronisation would be needed.
- The reduced-size decoder `decode_mcu_sub` and coefficients discarded for it.
- Statistics bins are records of an index and a sense instead of packed bytes; put_buffer and get_buffer are numbers of the bits that are in use; disjoint bits are added instead of or-ed.
- DCT, quantisation, colour conversion and sampling: coefficients are the input and the output of the model.
- Block and row buffering (`jdcoefct.c`, `jccoefct.c`, `jdmainct.c`, `jcprepct.c`) and frame geometry.
- Memory management, progress monitoring, tracing, and marker contents other than restart markers.
