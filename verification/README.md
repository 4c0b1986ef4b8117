# A verified model of QATzip

QATzip compresses and decompresses by cutting a buffer into chunks and offloading them to QAT
hardware. Several chunks are in flight at once, the hardware finishes them in any order, software
may step in for some of them, and still the framed results have to come out in input order. This
project models that offload engine and the data structures, codecs and file formats around it, and
proves what the code is there to guarantee, over every input, every interleaving and every run.

Where a natural statement turned out to be false of the code, the code was kept as it is. The model
then holds a concrete counterexample or, better, the exact condition under which the statement holds:

- **In-order delivery** fails when the software fallback of the submitter delivers a chunk after a
  response was dropped for lack of space: `compOutCheckDestLen` advances `seq_in` before it sets
  `stop_submitting` (src/qatzip_utils.c:1200-1202), and `compInSWFallback` reads `stop_submitting`
  before it compares `seq` with `seq_in` (src/qatzip_sw.c:716-722). A run is in order exactly when this
  does not happen (`CompressRuns.InOrderIff`). A session can get there exactly when it has the
  fallback, uses two threads, and the results of all chunks but the last can be more than the
  destination holds (`CompressLate.LateExactly`), before the flag is set as well as after
  (`CompressLate.LateCanHappen`, `CompressLate.LateDespiteStop`). `CompressCases.GapRun` is a gzip-ext
  session with 1025 bytes of input.
- **The destination** holds everything that is written as long as the submitter does not fall back to
  software (`CompressSpace.ShortOutput`). The fallback hands the compressor `DEST_SZ` bytes at
  `next_dest` whatever is left there (src/qatzip_sw.c:701, 728-730), and the retriever's count does not
  see what it writes. What is written always ends where the reported length ends
  (`CompressSpace.OverrunIffReported`). A session can report more than the destination holds exactly when
  it has the fallback, uses two threads, and there are results that are together too long while those of
  the hardware fit (`CompressOverrun.OverrunExactly`); `CompressCases.OverrunRun` is a gzip-ext session
  with 1025 bytes of input.
- **The footer size** is wrong for `DEFLATE_4B` only: `outputFooterSz` says 0 and `outputFooterGen`
  writes 8 bytes (`Formats.FooterSizeAgrees`, `CompressCases.SessionsAreValid`).
- **The checksum for the caller** is the CRC-32 of the consumed source for every deflate session that asks
  for one, except zlib (`SessionStreams.SessionChecksum`). A zlib session asks the hardware for Adler-32
  (src/qatzip_utils.c:279-280), and what comes back is folded in as if it were a CRC
  (src/qatzip.c:1707-1714); `SessionStreams.ZlibChecksum` is a session that hands out 1 where the CRC is 0.
- **The ring queue** is sound exactly for capacities that divide 2^32 (`Ring.DistinctIffDivides`). For
  any other one a new ring can be used so that it overwrites an undelivered object (`Ring.Overwritten`).
- **LZ4s to zstd** keeps the meaning of a well-formed block exactly when every run fits the
  16-bit fields it is converted to (`Lz4s.BlockKeptIff`); a block with one run of 65536 literals
  decodes and is translated into nothing (`Lz4s.LongRunIsLost`).
- **The 7z directory bit vector** fits its buffer exactly when there is a non-empty file or the
  number of directories is not a multiple of 8 (`SevenZipWriter.EmptyStreamFits`).
- **7z times** survive at second resolution exactly when the tick count is a 64-bit number
  (`SevenZipFormat.TimeRoundTrip`).
- **Registering a range of pages** covers exactly the pages of its bytes iff the start offset does
  not push the last byte onto one page more (`PageTable.VisitsAreExact`); the rounding in front of it
  makes this hold always (`PageTable.RoundedRange`).
- **Restoring swapped buffer pointers** works iff each direction was copied or had its own buffer in
  place when the stream was claimed (`DecompressBuffers.TripRestoresIff`), which every stream has.
- **Streaming input** can reach the compressor out of order, because `copyStreamInput` ignores
  `in_offset` (src/qatzip_stream.c:370). A call keeps the order for all contents and all answers of the
  compressor exactly when it is careful (`StreamOrder.KeepsOrderIff`), a condition on `pending_in`,
  `pending_out`, `out_sz`, `in_sz` and `last`: output must not be drained while input is pending with it,
  unless the last call has ended for lack of room, and then only when nothing can follow. In runs of
  calls that do not fail `in_offset` plays no part (`StreamOrder.RunBehind`); draining all bytes but
  one and then that one is always careful (`StreamOrder.DrainInTwo`). `StreamOrder.TwoCalls` loses the
  order with two calls on a buffer of any size, and `StreamOrder.JumpExactly` says for which contents
  nobody notices.
- **The 64-bit hash** of a stream recognises a first stripe by `total_len`, which misleads it only
  after a multiple of 2^64 bytes and up to 31 more (`XXHash.MeasurableIff`).

## How it is organised

*The offload protocol.* `CompressProtocol` is a transition system: submitter, hardware with its
callback, and retriever, each with a program counter, interleave freely. A step is one access to what
another thread acts upon (a slot counter, `seq`, `seq_in`, `submitted`, `processed`, `stop_submitting`,
the status, the length the retriever starts from), with the writes that nobody else looks at meanwhile.
So the callback and the retriever may run before the submitter has executed `seq++`, the two checks of
`compInSWFallback` and its compression are apart, and the retriever may start when some chunks have
been delivered already. The hardware and the software compressor are oracles: what they may answer for
a chunk are predicates of the configuration, and the answers are carried by the step labels.
`CompressInvariant` proves the inductive invariant step by step, `CompressRuns` draws the consequences
for every run, `CompressSpace` those about the space in the destination, and `CompressProgress` shows
that runs are bounded and never stuck. `CompressScenarios` builds runs from steps; with it `CompressLate`
and `CompressOverrun` decide which sessions can deliver out of order or report more than the destination
holds. `CompressCases` instantiates the seven container formats.
`CompressEngine` is the same code as an object with an array of streams updated in place; each of its
methods is proved to take certain steps of the protocol from the state it finds to the state it leaves,
so the theorems about runs apply to it, and `Compress` is a whole single-threaded call.

*Framing.* `Formats` has the headers and footers, `Framing` the header checks, the search for the LZ4
end mark and the loop that cuts a stream into frames. `RoundTrip` joins both ends: whatever the
interleaving was, the bytes a compression run leaves in the destination are cut into exactly its chunks.
`SessionStreams` does this for the sessions of all seven formats against their documents, field by field:
RFC 1950 and 1952, the LZ4 frame format, and the lengths in front of 4B and LZ4S blocks, from which a run of
an LZ4S_BK session is followed into the calls of the zstd library. `FramingExact` says exactly what the
header checks, the search and the loop over frames accept, where they stop and with which verdict.

*Checksums.* `Crc32` has the bitwise CRC-32 of section 8 of RFC 1952 and proves combining sound by
linearity; `Crc32Remainder` shows it to be long division by the generator polynomial of ITU-T V.42. `XXHash` writes the construction once over a record of primitives: the plain definition
(stripes, then words, then bytes), the fall-through switch, the one-shot loop and the streaming
object; `XXHashInstances` has the real 32- and 64-bit primitives and says which words of the input
each lane takes in; `XXHashValues` computes two published hashes that reach every primitive.

*7z archives.* `SevenZipNumbers` is the integer codec, `SevenZipFormat` the bytes of each section,
`SevenZipWriter` the object that writes them while it keeps count and CRC, `SevenZipParse` and
`SevenZipFiles` the parser as functions together with the round trip, `SevenZipReader` the same
parser as an object that moves through a file, `SevenZipArchive` the signature header around it all.
`SevenZipLayout` reads what this parser skips (digests, property data, section sizes), and
`SevenZipSample` has all bytes of one end header.
`FileSplit` rebuilds the file sizes and distributes the decompressed stream.

*Streaming.* `StreamCalls` has a call of the streaming interface as a function, for any compressor that
keeps a contract, and the accounts it keeps; `StreamOrder` decides which calls keep the order of the
input; `StreamEnds` says when a call asks the compressor, when it announces the end of the data, and how the
call ends; `StreamBuffers` is the code with its two buffers and offsets, proved to be that function.

*Further structures.* `Lz4s` (sequence translation, executed as in section 3.1.1.4 of RFC 8878) with
`Lz4sBlocks` (the writer of the LZ4 block format it reads),
`Ring`, `PageTable`, `Instances` (round-robin shuffle), `StreamPool` and `DecompressBuffers`. `Bytes`,
`Arithmetic` and `Wrappers` are helpers.

The code's objects are classes whose methods change fields and arrays in place, and each such method
is proved against a specification function or an abstract value; expressions and decisions are
functions. Integers are unbounded except where the width matters: there wrap-around and truncation
are written out.

## Model

| member | source | states |
|---|---|---|
| CompressRuns.InOrderDelivery | src/qatzip.c:1641-1724 | In every reachable state the output is the concatenation of the frames delivered so far, `qz_in_len` is the sum of their chunk lengths and `qz_out_len == next_dest - dest`; the frames are those of the first chunks in submission order exactly when no software chunk of the submitter followed a dropped response, and all of them when nothing was dropped |
| CompressRuns.InOrderIff | src/qatzip_sw.c:716-746 | A run delivers in order if and only if no step in which the submitter compresses a chunk in software comes after a step in which a response is dropped |
| CompressRuns.DroppedIff | src/qatzip_utils.c:1196-1203 | The history flag says exactly that some response has not fitted the space the retriever counts |
| CompressSpace.EnoughSpaceDeliversAll | src/qatzip.c:2062-2068 | With room for the worst case of every chunk nothing is dropped in any interleaving, the destination is never left, and a run that ends without a refused fallback has compressed the whole source, in order |
| CompressSpace.NeverShort | src/qatzip.c:1691-1696 | With that room the available space never goes negative, in any run |
| CompressSpace.NeverOverruns | src/qatzip_sw.c:728-742 | With that room no step of any run writes past the destination or reports more, although the submitter's fallback does not look at how much is left |
| CompressRuns.FinalStatus | src/qatzip.c:2032-2042 | When both loops have ended, status OK means the whole source was delivered in order, and a status other than FAIL is BUF_ERROR exactly when a response was dropped |
| CompressSpace.ShortOutput | src/qatzip_utils.c:1186-1206 | For every session outside DEFLATE_4B, as long as the submitter has not compressed a chunk in software: nothing is ever written past the destination, what is there are the frames of the first chunks, the counters describe exactly them, what the retriever counts as left is what is left, and it goes negative exactly when a response was dropped because it did not fit behind these frames |
| CompressSpace.ShortStatus | src/qatzip.c:2032-2042 | How such a call ends: OK means the frames of all chunks are in the destination and fit, BUF_ERROR that a response did not fit behind those delivered; a destination too small for all results the compressors may give ends in BUF_ERROR or FAIL |
| CompressSpace.NoFallbackIff | src/qatzip_sw.c:697-746 | The submitter has compressed no chunk, as the owners of the chunks show, if and only if the run has no step of its software fallback |
| CompressSpace.NoFallbackSession | src/qatzip_sw.c:704-714 | That is always so without `sw_backup` and in single-threaded calls |
| CompressSpace.OverrunIffReported | src/qatzip_sw.c:728-742 | In every reachable state of every session outside DEFLATE_4B the memory written ends at the end of the destination, or where the reported length ends when that is more |
| CompressOverrun.OverrunExactly | src/qatzip_sw.c:704-746 | A session can report more than the destination holds, and outside DEFLATE_4B write past its end, if and only if it has the software fallback, uses two threads, and there are results of the first chunks, those of the hardware no more than the destination holds, that together are more |
| CompressOverrun.OverrunNeeds | src/qatzip.c:1620 | Nothing else leads there, not even after a dropped response, because the retriever counts what comes from the hardware |
| CompressOverrun.OverrunHappens | src/qatzip_sw.c:721-742 | For all such results a run delivers exactly them, in order, and reports the length of all their frames |
| CompressRuns.ChecksumOfTaken | src/qatzip.c:1707-1714 | In every session that folds and whose hardware gives the CRC-32 of each chunk, the checksum given to the caller is that of exactly the consumed source bytes, continued from its start value |
| SessionStreams.SessionChecksum | src/qatzip_utils.c:275-283 | For the sessions themselves: a deflate format other than zlib hands out the CRC-32 of the consumed source when the caller asks for it, and leaves the value alone when not |
| SessionStreams.ZlibChecksum | src/qatzip.c:1707-1714 | Why not zlib: a reachable state of a zlib session of an empty source that hands out the Adler-32, which is 1, where the CRC-32 is 0 |
| CompressRuns.CallbackNeverFlowError | src/qatzip.c:209-243 | Whenever the hardware completes a request the three tests of the callback pass |
| CompressRuns.OccupiedSlots | src/qatzip.c:1525-1584 | Occupied slots carry distinct sequence numbers, exactly those handed over and not yet given back, and there are as many as the difference |
| CompressRuns.CountersMatchSlots | src/qatzip.c:1625-1626 | `submitted - processed == seq - seq_in ==` number of occupied slots, up to the single chunk each thread is half-way through |
| CompressRuns.OnePhase | src/qatzip.c:1641-1650 | Every slot is at every moment in exactly one of free, reserved, in flight, done, or being taken back, and only the submitter's own slot can be the last |
| CompressRuns.AllFreeAtEnd | src/qatzip.c:2032-2040 | When both loops have ended all slots are free, nothing is in flight and `seq == seq_in` |
| CompressInvariant.InvStep | src/qatzip.c:1483-1742 | Every step of submitter, hardware and retriever keeps the whole invariant: phases, ownership of sequence numbers, counters, slot contents, destination, accounting |
| CompressInvariant.InvInit | src/qatzip.c:1778-1802 | The invariant holds after the session has been reset with all slots free |
| CompressRuns.ReachableInv | src/qatzip.c:1483-1742 | Every state of every run satisfies the invariant |
| CompressRuns.LeadsReachable | src/qatzip.c:1483-1742 | Steps taken from a reachable state lead to reachable states, so the methods of the engine inherit the theorems about runs |
| CompressInvariant.AnswerEffect | src/qatzip_utils.c:1151-1171 | Deciding about a response leaves the counters of every slot and every other slot alone |
| CompressInvariant.OwnedFallback | src/qatzip_sw.c:721-746 | When the submitter compresses a chunk in software no slot is occupied and the retriever has no response at hand |
| CompressInvariant.TakenInOrder | src/qatzip.c:1576-1581 | The chunks of an in-order log make up a prefix of the source |
| CompressProgress.SendableIffCounted | src/qatzip.c:2010-2013 | `reqcnt` is exactly the number of chunks the submitting loop sends, one for an empty source |
| CompressProgress.RunsAreBounded | src/qatzip.c:1513-1594 | A run has at most 21 steps per chunk and a constant, not counting a submitter that waits for pending chunks before a fallback |
| CompressProgress.RankStep | src/qatzip.c:1513-1594 | Every step but that waiting strictly reduces the work left, which is never negative |
| CompressProgress.NoDeadlock | src/qatzip.c:1625-1742 | Until both loops have ended some thread or the hardware can take a step that makes headway without a new failure, provided the oracles answer |
| CompressProgress.FreeSlotIffRoom | src/qatzip.c:402-437 | A free slot exists at the head of the submitting loop exactly when fewer slots are occupied than there are |
| CompressProgress.SubmitterNeverBlocks | src/qatzip.c:2015-2022 | In a call with no more requests than slots a slot is free for every chunk before anything is retrieved |
| CompressCases.SessionsAreValid | src/qatzip_utils.c:888-995 | The theorems apply to a session of any format that has a buffer size, a slot and room for one header; size and generator of the footer agree for all formats but DEFLATE_4B |
| CompressLate.LateExactly | src/qatzip_sw.c:704-746 | A session can deliver a chunk after a dropped one if and only if it has the software fallback, uses two threads, and the results of all chunks but the last can be more than the destination holds |
| CompressLate.LateCanHappen | src/qatzip_utils.c:1197-1204 | For every session with fallback and two threads: when a response does not fit behind those before it and another chunk follows, a run exists that delivers that chunk in its place |
| CompressLate.LateDespiteStop | src/qatzip_sw.c:716-723 | The same with `stop_submitting` and BUF_ERROR set before the software chunk is delivered: the submitter has read the flag before and its turn comes when the dropped response is given back |
| CompressLate.LateNeeds | src/qatzip_sw.c:704-723 | Nothing else leads there: such a state needs the fallback, two threads and results that do not fit |
| CompressCases.GapRun | src/qatzip_utils.c:1197-1204 | A gzip-ext session with 1024-byte chunks, 128 slots, 1056 bytes of destination and any source of 1025 bytes: a reachable state in which chunk 0 was dropped and chunk 1 delivered in its own frame |
| CompressCases.OverrunRun | src/qatzip_sw.c:728-742 | The same session: a reachable state in which the first chunk was stored by software in 1061 bytes, more than the 1056 of the destination |
| CompressEngine.Engine.constructor | src/qatzip.c:1778-1802 | A reset session on free streams is an initial state of the protocol |
| CompressEngine.Engine.GetUnusedBuffer | src/qatzip.c:402-437 | Returns the first free stream from j on, else the first free one at all, and -1 exactly when none is free |
| CompressEngine.Engine.Reserve | src/qatzip.c:1532 | The protocol's steps of finding and claiming a slot |
| CompressEngine.Engine.CompBufferSetup | src/qatzip_utils.c:1063-1124 | The protocol's setup step: next chunk, destination room, sequence number, zero copy for the first request only |
| CompressEngine.Engine.Publish | src/qatzip.c:1534 | The protocol's posting step, and nothing else changes |
| CompressEngine.Engine.Prepare | src/qatzip.c:1532-1534 | From a free stream to a published request by the protocol's steps of finding, claiming, setup and posting |
| CompressEngine.Engine.CompInBufferCleanUp | src/qatzip_utils.c:1129-1135 | The two undoing steps of the protocol: pointers before counters |
| CompressEngine.Engine.NextChunk | src/qatzip.c:1578-1583 | The protocol's step to the next chunk and sequence number |
| CompressEngine.Engine.CheckDone | src/qatzip.c:1586-1593 | The loop ends exactly when submitting was stopped or the source is used up |
| CompressEngine.Engine.SendChunk | src/qatzip.c:1513-1594 | One round of the submitting loop is the protocol's eight steps for one chunk, and ends the loop exactly on stop or exhausted source |
| CompressEngine.Engine.DoCompressIn | src/qatzip.c:1483-1604 | A single-threaded call takes the eight steps of a round for every chunk and no others, without waiting; unless stopped it has then sent all of them and used up the source |
| CompressEngine.Engine.DcCallback | src/qatzip.c:209-243 | Reports a flow error exactly when the stream is not in flight; otherwise it is the protocol's completion |
| CompressEngine.Engine.Polled | src/qatzip.c:1633 | A batch of completions in any order is a sequence of the hardware's steps, one at most for each entry, and none is a flow error |
| CompressEngine.Engine.CheckDestLen | src/qatzip_utils.c:1192-1206 | Takes the size off the available space and drops the response exactly when that goes negative |
| CompressEngine.Engine.EmitFrame | src/qatzip.c:1698-1718 | Header, payload and footer end up in this order at `next_dest`, which moves on by what `qz_out_len` grows |
| CompressEngine.Engine.RespondHw | src/qatzip.c:1686-1719 | The protocol's delivery of a hardware response, including the decision to drop it |
| CompressEngine.Engine.RespondSw | src/qatzip_sw.c:749-790 | The protocol's delivery of a software result, including the decision to drop it |
| CompressEngine.Engine.Skip | src/qatzip_utils.c:1186-1190 | The protocol's step that discards a response and restores its destination pointer |
| CompressEngine.Engine.ProcessedRespond | src/qatzip_utils.c:1176-1184 | Frees this stream and no other, counts it and moves to the next sequence number: the protocol's three steps, in this order |
| CompressEngine.Engine.StopSubmitting | src/qatzip_utils.c:1200-1203 | Sets the stop flag and then the status: the protocol's two steps |
| CompressEngine.Engine.Respond | src/qatzip.c:1657-1722 | One response: the answer its status and the session's ask for, the three steps of giving it back and, when it was dropped, the two of stopping; one frame more is delivered exactly when the result says so |
| CompressEngine.Engine.Scan | src/qatzip.c:1641-1725 | Handles responses by the retriever's steps only; nothing happens exactly when no stream holds the next response in sequence; ends at the first one delivered |
| CompressEngine.Engine.StartRetrieving | src/qatzip.c:1620 | The space the retriever starts to count with is what the destination has left at that moment |
| CompressEngine.Engine.DoCompressOut | src/qatzip.c:1610-1742 | Leads from the state it finds to the one it leaves by steps of the protocol, without a flow error, and finishes exactly when everything submitted is processed |
| CompressEngine.Engine.Compress | src/qatzip.c:2019-2068 | A whole single-threaded call as a run of the protocol: every chunk is submitted, both reported lengths agree with the frames in the destination, these are the first chunks in order, all streams are free at the end, OK means all of the source, BUF_ERROR that a response did not fit behind the frames delivered; never more than the destination holds is reported or, outside DEFLATE_4B, written |
| RoundTrip.CompressedStreamCuts | src/qatzip.c:2134-2245 | What any compression run wrote, in any interleaving, is cut by the decompressor into exactly the chunks delivered, with nothing remaining |
| RoundTrip.SessionRoundTrip | src/qatzip.c:2134-2245 | The same for a session of a framed format with any sizes, slots and threads |
| RoundTrip.SessionWrites | src/qatzip_utils.c:888-995 | A session writes such streams if and only if its format is framed, it has a buffer size and a slot, and the destination holds a header |
| RoundTrip.FlatIsStream | src/qatzip.c:1698-1718 | The destination of a run is the concatenation of the gzip-ext or LZ4 frames of its chunks |
| SessionStreams.FramesAreMembers | src/qatzip_utils.c:946-995 | In every reachable state of a session of any of the seven formats, every chunk the hardware compressed is in the destination as a frame of that format, checked field by field: magic numbers, flags, lengths, check bits, payload, and the CRC-32, Adler-32 (most significant byte first) or XXH32 of the chunk itself |
| SessionStreams.MemberWritten | src/qatzip_gzip.c:86-280 | Header, payload and footer as generated for a chunk are such a frame |
| SessionStreams.SessionUses | src/qatzip_utils.c:888-995 | A session writes the headers, footers and checksums of its format if and only if it has a buffer size, a slot and room for one header |
| SessionStreams.LengthsSplit | src/qatzip_gzip.c:138-143 | What a DEFLATE_4B or LZ4S_BK session has written is split, by the lengths in front, into exactly the payloads delivered, in order |
| SessionStreams.RunFeedsZstd | src/qatzip_lz4.c:224-231 | In every reachable in-order state of an LZ4S_BK session whose payloads are blocks of their chunks, the destination holds what the zstd callback asks for: sizes and blocks that stand for the consumed source without gaps |
| SessionStreams.CompressThenTranslate | utils/qzstd.c:212-279 | Compression in any interleaving and then the callback: the calls of the zstd library describe exactly the consumed source |
| SessionStreams.NineBitsFit | src/qatzip_utils.c:1091-1094 | A payload fits the room offered to the hardware if and only if header and payload have at most nine bits for every source byte and 1024 bytes more, and fit the destination |
| SessionStreams.NeverTooLarge | src/qatzip_utils.c:1320-1330 | A frame whose payload keeps to that is never turned down for its size when it is decompressed |
| Formats.FooterSizeAgrees | src/qatzip_utils.c:975-995 | `outputFooterSz` is the length of what `outputFooterGen` writes, for every format but DEFLATE_4B, which writes 8 bytes for 0 |
| Formats.GzipExtHeader | src/qatzip_gzip.c:86-117 | The extended gzip header has 24 bytes |
| Formats.Lz4HeaderWith | src/qatzip_lz4.c:104-132 | The LZ4 frame header has 15 bytes |
| Formats.HeaderGen | src/qatzip_utils.c:946-973 | Every generated header has the size that `outputHeaderSz` announces; what it holds is the subject of SessionStreams.MemberWritten |
| Formats.DestSz | src/qatzip_internal.h:99 | The room reserved for a chunk is 1024 bytes more than nine eighths of it, rounded down |
| Formats.AdlerValue | src/qatzip_utils.c:279-280 | The published Adler-32 of a known text |
| Framing.CutsAreFrames | src/qatzip.c:2134-2250 | For any list of frames the cutting loop finds exactly the same boundaries, produced and consumed sizes and footer fields, and ends with remaining 0 |
| Framing.CutFrames | src/qatzip.c:2134-2250 | The loop computes the cuts that its recursive definition gives |
| Framing.FrameThenCut | src/qatzip.c:2134-2250 | Framing a list of chunks and running the loop gives the chunks back |
| Framing.FindLZ4Footer | src/qatzip_lz4.c:145-173 | The loop ends and returns the first end mark reached along block sizes, in 32-bit arithmetic |
| Framing.FindsEndMark | src/qatzip_lz4.c:145-173 | From any block boundary the search stops at the true end mark, whatever the blocks hold |
| Framing.FooterFound | src/qatzip_lz4.c:145-173 | For a frame of one or more blocks with non-zero headers the footer is found, whatever follows the frame |
| Framing.CheckHeader | src/qatzip_utils.c:1232-1345 | An accepted header leaves room for its payload and footer in the source and for its data in destination and hardware buffer |
| Framing.CheckAccepts | src/qatzip_utils.c:1232-1345 | A generated frame that fits is accepted with exactly its two sizes |
| Framing.GzipAccepts | src/qatzip_gzip.c:200-226 | The header check reads back the sizes the generator stored |
| Framing.Lz4Accepts | src/qatzip_lz4.c:62-102 | The same for LZ4, where the compressed size comes from the search for the footer |
| Framing.FooterAt | src/qatzip_utils.c:1388-1402 | The checksum and original length picked up for a request are those the compressor stored |
| Framing.EnoughDestination | src/qatzip_utils.c:1334-1341 | A destination larger than the original data is enough for every frame's check |
| FramingExact.CutsFitDestination | src/qatzip.c:2134-2250 | Frames of the library and a destination of any size: the loop cuts off the largest number of first frames that fit, leaves the rest of the source as it is, and stops with a buffer error if and only if a frame is left |
| FramingExact.CutsAreSound | src/qatzip.c:2134-2250 | On any source, every cut is the frame behind the ones before it, checked against what these leave of the destination, with checksum and length taken from behind its payload |
| FramingExact.CutsEnd | src/qatzip.c:2134-2250 | The loop ends behind the last cut, with the verdict on what lies there, and never asks for more than the destination |
| FramingExact.GzipAcceptsIff | src/qatzip_gzip.c:200-226 | An extended gzip header is accepted if and only if its fixed bytes are those of this library, for any modification time and 0, 2 or 4 as extra flags |
| FramingExact.Lz4AcceptsIff | src/qatzip_lz4.c:62-102 | Exactly which LZ4 headers go to the hardware, to software, or are refused |
| FramingExact.FindIff | src/qatzip_lz4.c:145-173 | The search stops at a place if and only if a chain of whole blocks leads from its start to an end mark there |
| FramingExact.Verdicts | src/qatzip_utils.c:1320-1345 | Each verdict of the header check, with the exact condition under which it is given |
| XXHashInstances.StreamingEqualsOneShot | src/xxhash.c:489-619 | For every split of an input, reset, updates and digest give the value of the one-shot function, for both word sizes |
| XXHashInstances.HashPieces | src/xxhash.c:1001-1128 | Reset, one update per piece and digest compute the plain definition on the concatenation |
| XXHashInstances.LanesHold32 | src/xxhash.c:418-434 | After n stripes lane j is the fold of the rounds over the little-endian words j, j + 4, j + 8, ... of the input |
| XXHashInstances.LanesHold64 | src/xxhash.c:933-943 | The same for 64-bit words |
| XXHashValues.NobodyValue | src/xxhash.c:307-434 | The published XXH32 of a text of 39 bytes, which takes stripes, the merging of lanes, a word, bytes and the avalanche |
| XXHashValues.IshmaelValue | src/xxhash.c:742-959 | The published XXH64 of a text that takes stripes, merge rounds, 8-byte and 4-byte words, bytes and the avalanche |
| XXHashInstances.EmptyInput32 | src/xxhash.c:404-445 | The hash of the empty input with seed 0 is the published value |
| XXHashInstances.EmptyInput64 | src/xxhash.c:913-959 | The same for the 64-bit hash |
| XXHash.OneShot | src/xxhash.c:404-445 | The one-shot loop computes the plain definition |
| XXHash.AbsorbStripes | src/xxhash.c:418-434 | The stripe loop absorbs all whole stripes and leaves less than one |
| XXHash.FinalizeIsTail | src/xxhash.c:328-400 | The fall-through switch on the remaining length mixes in words, then bytes, then avalanches |
| XXHash.RunIsTail | src/xxhash.c:772-910 | The operations executed from any label of either switch are the plain tail |
| XXHash.TailMoves | src/xxhash.c:592-608 | Equal remaining bytes mix in equally wherever they are stored, so the buffered rest may be used |
| XXHash.LargeLenIsExact | src/xxhash.c:520-521 | The sticky flag says exactly that a whole stripe has been seen, although the 32-bit counter wraps |
| XXHash.MeasurableIff | src/xxhash.c:1093-1118 | When the length test of the 64-bit digest is right |
| XXHash.HashState.constructor | src/xxhash.c:489-502 | A reset state represents the empty input |
| XXHash.HashState.Update | src/xxhash.c:506-576 | An update appends its input to what the state represents |
| XXHash.HashState.Digest | src/xxhash.c:592-608 | The digest is the plain definition on everything fed so far |
| XXHash.HashState.CountBytes | src/xxhash.c:520-521 | The length counters stay the true length modulo their width, with the flag for a whole stripe |
| XXHash.HashState.FinishStripe | src/xxhash.c:529-543 | Completing a buffered stripe absorbs the bytes that span both inputs |
| Crc32.FoldAllIsCrcOfConcat | src/qatzip.c:1707-1714 | Folding per-chunk checksums, the shortcut for 0 included, gives the CRC of the concatenation for every list of chunks |
| Crc32.FoldExtends | src/qatzip.c:1707-1714 | One fold extends the CRC of a prefix by one chunk |
| Crc32.FeedLinear | src/qatzip.c:1711-1712 | The register is linear: a start value contributes its advance by zero bytes, which is why combining works |
| Crc32.CrcConcat | utils/qzip_7z.c:98-126 | A CRC continued over a second piece is the CRC of both |
| Crc32Remainder.CrcIsRemainder | src/qatzip.c:1707-1714 | For every message and start value the CRC is the complement of the remainder of long division: message bits and 32 zeros, with the complement of the start value added in front, by the generator |
| Crc32Remainder.PolyIsGenerator | src/qatzip.c:1711-1712 | The polynomial of the register is the generator of ITU-T V.42, given by its powers, without the highest |
| Lz4s.TranslationKeepsMeaning | utils/qzstd.c:118-181 | Executing the emitted sequences over the block's literals gives what decoding the block gives, with literals of tokens without match carried over to later sequences |
| Lz4s.MeaningKeptIff | utils/qzstd.c:118-181 | For a block that decodes, meaning and size are kept if and only if every run fits an unsigned short |
| Lz4s.BlockKeptIff | utils/qzstd.c:118-181 | The same for the tokens read from a block of bytes |
| Lz4s.LongRunIsLost | utils/qzstd.c:137-142 | A block with one run of 65536 literals decodes to these and is translated into an empty sequence, with `cnt_sz` 0 |
| Lz4s.LastIsDelimiter | utils/qzstd.c:139-178 | The sequence list always ends with a delimiter, an entry without match and offset, and has no other when the tokens can be decoded |
| Lz4s.TranslatedSize | utils/qzstd.c:129-176 | The sequences never describe more bytes than the block, and exactly as many if and only if all runs fit |
| Lz4s.DecLz4Block | utils/qzstd.c:118-181 | The loop writes exactly the translated sequences behind what was there and touches no other entry |
| Lz4s.Record | utils/qzstd.c:139-178 | A token changes one entry of the table: adds literals to it, or completes it with a match |
| Lz4s.ReadToken | utils/qzstd.c:129-166 | One token is read as the format says, and the block ends only after literals |
| Lz4s.ReadLength | utils/qzstd.c:133-163 | The loop over extension bytes sums them and stops behind the last |
| Lz4sBlocks.BlockRoundTrip | utils/qzstd.c:129-166 | Every list of tokens with 16-bit offsets comes back from its bytes in the LZ4 block format: nibbles, extension bytes, literals, offset with the low byte first, match code less the minimal match |
| Lz4sBlocks.DecodeWritten | utils/qzstd.c:118-181 | On such bytes the loop leaves sequences that, executed over the literals, give what the tokens decode to |
| Lz4sBlocks.MatchRepeats | utils/qzstd.c:146-166 | A match at offset k repeats the last k bytes |
| Lz4sBlocks.FourEqualBytes | utils/qzstd.c:129-166 | The five bytes of one literal and a match of three at offset 1, the tokens, the meaning and the sequences |
| Lz4s.ContentSize | utils/qzstd.c:244-247 | The loop adds up all literal and match lengths |
| Lz4s.TranslateBlock | utils/qzstd.c:236-257 | A block becomes sequences that describe its source piece, whose length is the size computed |
| Lz4s.ZstdCallBack | utils/qzstd.c:212-279 | The calls made for all blocks describe, in order and without gaps, exactly the source, each with one delimiter at its end |
| SevenZipArchive.WriteThenOpen | utils/qzip_7z.c:1834-1856 | An archive as written opens again: signature header read, checksums accepted, end header recovered |
| SevenZipArchive.WriteArchive | utils/qzip_7z.c:686-699 | The finished file is signature, start header, packed data and end header, with the right offset, size and checksums, and the digests found in it are the checksums of the files |
| SevenZipArchive.ArchiveLayout | utils/qzip_7z.c:784-810 | The file starts with the six signature bytes and version 0.4, and its start header names the end header, which lies where it says |
| SevenZipArchive.CheckHeaderCRC | utils/qzip_7z.c:1631-1656 | Accepts exactly when both checksums are those of the bytes they cover |
| SevenZipArchive.ResolveSignatureHeader | utils/qzip_7z.c:784-810 | Reads the four fields exactly when the file is long enough |
| SevenZipFiles.HeaderRoundTrip | utils/qzip_7z.c:1458-1549 | Parsing a written end header recovers property, pack sizes, coders, unpack sizes, stream counts and every item, and consumes exactly its bytes |
| SevenZipFiles.FilesAt | utils/qzip_7z.c:1242-1370 | Directory and empty flags, names, second-resolution times and attributes all come back |
| SevenZipFiles.UnpackAt | utils/qzip_7z.c:1275-1327 | Reading a packed bit vector gives the bits, and zeros in the padding |
| SevenZipFiles.NamesAt | utils/qzip_7z.c:1129-1172 | Names written as two-byte characters come back |
| SevenZipFiles.TimesAt | utils/qzip_7z.c:1174-1206 | Times come back at second resolution |
| SevenZipFiles.TableRecovered | utils/qzip_7z.c:1242-1370 | Applying the recovered sections to a blank table gives the original items |
| SevenZipParse.StreamsAt | utils/qzip_7z.c:1374-1455 | The streams section comes back but for the digests, which the parser reads and drops |
| SevenZipParse.PackAt | utils/qzip_7z.c:865-905 | The pack section comes back |
| SevenZipParse.CodersAt | utils/qzip_7z.c:907-994 | Folders with their coder ids, and unpack sizes, come back |
| SevenZipParse.SubAt | utils/qzip_7z.c:996-1127 | Stream counts and sizes come back, and the digests are counted |
| SevenZipParse.PropertyAt | utils/qzip_7z.c:814-863 | The archive property comes back when its id is one of this tool |
| SevenZipLayout.DigestsAt | utils/qzip_7z.c:2870-2885 | A reader that keeps the digests finds in a written end header exactly the checksums of the files, one for one |
| SevenZipLayout.PropertyDataAt | utils/qzip_7z.c:2795-2809 | A reader that keeps the property data finds exactly these |
| SevenZipLayout.SectionsAt | utils/qzip_7z.c:3067-3157 | The sizes cut the files section into exactly its sections: bit vectors, padding, names, modification times, attributes, each behind the tag of the format |
| SevenZipLayout.TimeField | utils/qzip_7z.c:107-114 | Each item's time is the 64-bit tick count, least significant byte first |
| SevenZipLayout.AttributeField | utils/qzip_7z.c:3026-3049 | Each item's attribute is its 32-bit word |
| SevenZipLayout.EpochTicks | utils/qzip_7z.c:76-94 | 1970 starts 116444736000000000 ticks after the epoch of the format, and a second has ten million |
| SevenZipSample.SampleBytes | utils/qzip_7z.c:3162-3175 | All bytes of one end header with a directory, an empty file and two files |
| SevenZipFormat.OurPropertyId | utils/qzip_7z.c:2692-2709 | The property id the generator stores is accepted |
| SevenZipFormat.TimeRoundTrip | utils/qzip_7z.c:76-94 | Converting to file time and back keeps the seconds if and only if the tick count is a 64-bit number |
| SevenZipFormat.UnpackPacked | utils/qzip_7z.c:2952-2979 | Bit 7-j of byte i of a packed vector is bit 8i+j of the vector |
| SevenZipNumbers.DecodeInvertsEncode | utils/qzip_7z.c:182-234 | Every 64-bit number comes back from its bytes, whatever follows them, and exactly these are consumed |
| SevenZipNumbers.FirstByteTells | utils/qzip_7z.c:151-177 | The first byte tells how many follow |
| SevenZipNumbers.ExtraIsLeast | utils/qzip_7z.c:52-62 | The number of extra bytes is the least that gives seven bits for every byte, up to eight |
| SevenZipNumbers.LeadingOnes | utils/qzip_7z.c:64-74 | It is the number of leading ones of the first byte, bit by bit |
| SevenZipNumbers.GetUint64Bytes | utils/qzip_7z.c:214-234 | The loop stores the encoding and returns its length |
| SevenZipNumbers.GetExtraByteNum | utils/qzip_7z.c:163-177 | The table search gives the number of extra bytes |
| SevenZipNumbers.GetExtraByteNum2 | utils/qzip_7z.c:151-161 | The table search gives the number of leading ones |
| SevenZipWriter.EmptyStreamFits | utils/qzip_7z.c:2942-2948 | The byte written last is inside the buffer if and only if there is a non-empty file or the directories are no multiple of 8 |
| SevenZipWriter.CalculateEmptyStreamProperty | utils/qzip_7z.c:2932-2950 | The two loops pack the vector with the first m of m+n bits set |
| SevenZipWriter.CalculateEmptyFileProperty | utils/qzip_7z.c:2952-2979 | The loop packs the flags of zero-byte files |
| SevenZipWriter.GenNamesPart | utils/qzip_7z.c:2981-3024 | The buffer holds a zero byte and all names as terminated two-byte characters |
| SevenZipWriter.Writer.Put | utils/qzip_7z.c:98-126 | Appending keeps the running CRC the CRC of everything written |
| SevenZipWriter.Writer.WriteArchiveProperties | utils/qzip_7z.c:2795-2809 | Appends its section and returns the number of bytes |
| SevenZipWriter.Writer.WritePackInfo | utils/qzip_7z.c:2811-2825 | Appends its section and returns the number of bytes |
| SevenZipWriter.Writer.WriteCodersInfo | utils/qzip_7z.c:2847-2868 | Appends its section and returns the number of bytes |
| SevenZipWriter.Writer.WriteSizes | utils/qzip_7z.c:2903-2908 | The nested loops write, for every folder, the sizes of all its files but the last |
| SevenZipWriter.Writer.WriteSubstreamsInfo | utils/qzip_7z.c:2887-2916 | Appends its section and returns the number of bytes |
| SevenZipWriter.Writer.WriteStreamsInfo | utils/qzip_7z.c:2918-2930 | Appends its section and returns the number of bytes |
| SevenZipWriter.Writer.WriteFilesInfo | utils/qzip_7z.c:3067-3157 | Appends its section and returns the number of bytes |
| SevenZipWriter.Writer.WriteEndHeader | utils/qzip_7z.c:3162-3175 | Writes exactly the header's bytes, returns their number and leaves their CRC |
| SevenZipReader.Reader.GetU64 | utils/qzip_7z.c:182-206 | Reads one number as the codec decodes it and fails exactly when the file ends first |
| SevenZipReader.Reader.ResolveArchiveProperties | utils/qzip_7z.c:814-863 | Accepts, rejects, returns and advances as the parse function does |
| SevenZipReader.Reader.ResolvePackInfo | utils/qzip_7z.c:865-905 | Accepts, rejects, returns and advances as the parse function does |
| SevenZipReader.Reader.ResolveCodersInfo | utils/qzip_7z.c:907-994 | Accepts, rejects, returns and advances as the parse function does |
| SevenZipReader.Reader.ResolveSubstreamsInfo | utils/qzip_7z.c:996-1127 | Accepts, rejects, returns and advances as the parse function does |
| SevenZipReader.Reader.ResolveMainStreamsInfo | utils/qzip_7z.c:1374-1455 | Accepts, rejects, returns and advances as the parse function does |
| SevenZipReader.Reader.ReadNames | utils/qzip_7z.c:1129-1172 | Fills the name of every item, in place, or fails when a name is cut off |
| SevenZipReader.Reader.ReadTimes | utils/qzip_7z.c:1174-1206 | Fills the time of every item, in place |
| SevenZipReader.Reader.ReadAttributes | utils/qzip_7z.c:1208-1240 | Fills the attribute of every item, in place |
| SevenZipReader.Reader.ResolveFilesInfo | utils/qzip_7z.c:1242-1370 | Accepts, rejects, returns and advances as the parse function does |
| SevenZipReader.Reader.ResolveEndHeader | utils/qzip_7z.c:1458-1549 | Accepts, rejects, returns and advances as the parse function does |
| FileSplit.RebuildSizes | utils/qzip_7z.c:1874-1885 | The sizes rebuilt from all but the last and the total are the original ones |
| FileSplit.SplitAll | utils/qzip_7z.c:2025-2092 | For every division of the stream into buffers each file ends up with exactly its slice |
| FileSplit.Splitter.Store | utils/qzip_7z.c:2032-2036 | Opening truncates or appends so that the current file holds its slice so far, and no other file changes |
| FileSplit.Splitter.Distribute | utils/qzip_7z.c:2029-2090 | One buffer is appended to the stream the files represent |
| FileSplit.Splitter.AllDone | utils/qzip_7z.c:2025-2092 | When the stream is used up every file has its slice |
| Ring.Queue.constructor | src/qatzip_utils.c:1750-1763 | A new ring is an empty queue |
| Ring.Queue.MoveProdHead | src/qatzip_utils.c:1673-1697 | Refuses exactly when every cell is taken, computed from wrapped 32-bit counters |
| Ring.Queue.EnqueueElem | src/qatzip_utils.c:1699-1703 | Stores into a cell that was empty, so nothing undelivered is overwritten |
| Ring.Queue.PublishTail | src/qatzip_utils.c:1705-1713 | Appends the stored object to the queue |
| Ring.Queue.MoveConsHead | src/qatzip_utils.c:1715-1739 | Refuses exactly when the queue is empty, else takes its head |
| Ring.Queue.DequeueElem | src/qatzip_utils.c:1741-1748 | Returns the oldest object not yet delivered and clears its cell |
| Ring.Queue.ReleaseTail | src/qatzip_utils.c:1705-1713 | Gives the cell back without changing the queue |
| Ring.Queue.Enqueue | src/qatzip_utils.c:1791-1804 | Appends the object exactly when a cell is left, else leaves the queue as it is |
| Ring.Queue.Dequeue | src/qatzip_utils.c:1806-1823 | NULL exactly for the empty queue, else its first element |
| Ring.DistinctIffDivides | src/qatzip_utils.c:1699-1703 | No two elements of a full ring share a cell if and only if the capacity divides 2^32 |
| Ring.Overwritten | src/qatzip_utils.c:1699-1703 | For any other capacity: operations on a new ring after which it holds these objects and delivers the last of them first, the first being lost |
| Ring.WrappedDifference | src/qatzip_utils.c:1673-1697 | 32-bit differences of wrapped counters are the true ones |
| Ring.CellLap | src/qatzip_utils.c:1741-1748 | One lap later the same cell comes up |
| PageTable.PageMap.StoreAddr | src/qatzip_page_table.h:122-147 | On success exactly the page of the address loads the new type; on failure nothing loads differently |
| PageTable.PageMap.LoadAddr | src/qatzip_page_table.h:167-186 | Returns what the map says for the page, 0 when it was never stored |
| PageTable.PageMap.NextLevel | src/qatzip_page_table.h:73-96 | Mapping a blank table under a NULL entry changes no load; NULL exactly when the entry is NULL and mmap fails |
| PageTable.PageMap.StoreMmapRange | src/qatzip_page_table.h:149-165 | On success exactly the visited pages change; a failure leaves a changed part of these only |
| PageTable.PageMap.MemRegAddr | src/qatzip_mem.c:122-149 | When it stores, it registers exactly the pages of the bytes of the buffer; it does not when both end pages are registered |
| PageTable.PageMap.MemFindAddr | src/qatzip_mem.c:102-115 | True exactly for registered pages |
| PageTable.SharedPath | src/qatzip_page_table.h:50-72 | Pages that share a table share all indices above it |
| PageTable.LeafEntry | src/qatzip_page_table.h:122-147 | Writing a leaf entry changes what its own page loads and nothing else |
| PageTable.GrownEntry | src/qatzip_page_table.h:73-96 | A new blank table changes no load |
| PageTable.VisitsAreExact | src/qatzip_page_table.h:149-165 | The loop visits exactly the pages of the range if and only if the start offset adds no page; always for an aligned start |
| PageTable.BytePages | src/qatzip_page_table.h:50-72 | A page belongs to a range exactly when one of its bytes lies on it |
| PageTable.PageOfAddress | src/qatzip_page_table.h:50-72 | Pages have 4096 bytes, and no two of the 48-bit address space share a number |
| PageTable.RoundedRange | src/qatzip_mem.c:138-145 | Rounding the start down and the size up visits exactly the pages of all bytes |
| StreamOrder.KeepsOrderIff | src/qatzip_stream.c:403-596 | A call keeps the order of the input, for all contents of buffers and input and all answers of the compressor, if and only if it is careful; a careful call never reads past the buffer |
| StreamOrder.CarefulKeepsOrder | src/qatzip_stream.c:487-583 | After a careful call that does not fail the compressor has seen the user's bytes in order, up to those that are pending |
| StreamOrder.JumpExactly | src/qatzip_stream.c:505-513 | When output is drained while input is pending behind its used front, the order survives exactly for contents that look the same at the front as where they lie |
| StreamOrder.TwoCalls | src/qatzip_stream.c:362-377 | Two calls without failure on a new stream, a partial use and a call that drains the pending output: all bytes are accepted and used, and the compressor has seen the user's bytes only if all bytes of the first input are equal |
| StreamOrder.CopyOrderIff | src/qatzip_stream.c:370 | For all contents, the copy puts the input behind the pending part if and only if that part starts at the front of the buffer or nothing is copied |
| StreamOrder.RunAccounts | src/qatzip_stream.c:403-596 | Over any run of calls that do not fail the accounts balance and the offsets stay inside; if all calls were careful the compressor has seen exactly the user's bytes in order, up to those that are pending |
| StreamOrder.GreedyRunsKeepOrder | src/qatzip_stream.c:538-583 | If every call of the compressor uses all it is given, every run is careful and keeps the order |
| StreamOrder.RunBehind | src/qatzip_stream.c:487-503 | In such runs input that is pending together with output lies behind a used front, so the condition is on `pending_in`, `pending_out` and `out_sz` alone unless the last call ended for lack of room |
| StreamOrder.DrainInTwo | src/qatzip_stream.c:487-503 | Draining all pending output but one byte and then that byte is careful, whatever comes with it |
| StreamCalls.CallAccounts | src/qatzip_stream.c:403-596 | For every answer of the compressor: bytes reported as consumed are those it has used plus `pending_in`, delivered bytes are its output in order but for `pending_out`, the room is respected and the offsets stay inside |
| StreamEnds.AskedIff | src/qatzip_stream.c:487-536 | A call asks the compressor if and only if what is left of earlier output fits, something else remains to be done, and there is a flush put off, the end of the input or a full buffer; otherwise it hands out that output and copies the input, for every compressor |
| StreamEnds.CallEnds | src/qatzip_stream.c:487-583 | A call that does not fail has used all its room, or has taken all its input and leaves nothing uncompressed but, when more is to come, less than a buffer |
| StreamEnds.NotToldEarly | src/qatzip_stream.c:538-547 | The compressor is told of the end of the data only in the last call and when all its input has been copied |
| StreamEnds.ToldAtEnd | src/qatzip_stream.c:538-583 | A last call that asks it and leaves no output behind has told it |
| StreamBuffers.Stream.constructor | src/qatzip_stream.c:280-360 | A new stream is the empty one |
| StreamBuffers.Stream.CopyStreamInput | src/qatzip_stream.c:362-377 | What fits is stored behind the first `pending_in` bytes, and no other cell of the buffer changes |
| StreamBuffers.Stream.CopyStreamOutput | src/qatzip_stream.c:379-400 | Hands out what fits, in order, and resets the offset when the buffer is empty |
| StreamBuffers.Stream.Drain | src/qatzip_stream.c:487-503 | The first loop hands out what is left from earlier calls, notes a flush, and ends the call exactly when the function says so, which StreamEnds.AskedIff decides for the call as a whole |
| StreamBuffers.Stream.CompressPending | src/qatzip_stream.c:538-547 | One turn of the compressor on the pending input |
| StreamBuffers.Stream.OneRound | src/qatzip_stream.c:505-583 | One round of the second loop |
| StreamBuffers.Stream.CompressStream | src/qatzip_stream.c:403-596 | The call leaves buffers, offsets, result and counts exactly as the function of a call says, for the compressor it is given, and keeps the accounts; a call without reason to compress only copies, and one that does not fail has used its room or left nothing undone |
| StreamPool.List.Add | src/qatzip_stream.c:87-102 | Appends a node and keeps a well-formed doubly linked list |
| StreamPool.List.Remove | src/qatzip_stream.c:104-126 | Removes exactly this node and keeps a well-formed doubly linked list |
| StreamPool.Pool.GetNode | src/qatzip_stream.c:172-200 | Lends a free buffer of sufficient size and the right kind, and none exactly when there is no such buffer |
| StreamPool.Pool.AddSome | src/qatzip_stream.c:202-240 | Adds up to eight fresh buffers of the wanted size and kind to the free list |
| StreamPool.Pool.Alloc | src/qatzip_stream.c:242-250 | Hands out a buffer that is large enough, of the right kind and not handed out already; fails only without memory |
| StreamPool.Pool.FindUsed | src/qatzip_stream.c:252-262 | The walk finds the node of a buffer exactly when the buffer is handed out |
| StreamPool.Pool.Free | src/qatzip_stream.c:252-278 | Takes exactly this buffer back and keeps both lists well-formed and disjoint |
| Instances.Shuffle | src/qatzip.c:795-808 | Every discovered instance lands once in `qz_inst`, next to its own handle, in the order in which the turns of the devices come, within num_instances * (max_dev_id + 1) iterations |
| Instances.EvenDeal | src/qatzip.c:795-801 | Over devices with equally many instances this order is a true round-robin: place n holds instance n / devices of device n % devices, with no iteration in vain |
| Instances.WindowHits | src/qatzip.c:795-801 | While an instance is left, not every iteration of a window of max_dev_id + 1 misses |
| Instances.TakeTurn | src/qatzip.c:796-801 | A miss changes nothing; a hit removes exactly the instance it returns |
| Instances.Hardware.SetInstance | src/qatzip.c:132-158 | Appends to the device's list and keeps dev_num and max_dev_id right |
| Instances.Hardware.GetInstance | src/qatzip.c:160-192 | Unlinks the first instance of the device, and every device with instances stays at or below max_dev_id |
| Instances.Hardware.LowerMax | src/qatzip.c:179-186 | The downward search ends at the highest device that has instances, if there is one |
| DecompressBuffers.RoundTrip | src/qatzip_utils.c:1350-1481 | From claim to release, or back after a refused request, every pointer of a stream is what it was, for every way a response can be handled |
| DecompressBuffers.TripRestoresIff | src/qatzip_utils.c:1034-1050 | When a trip restores pointers that need not be the stream's own to begin with |
| DecompressBuffers.Stream.SwapDataBuffer | src/qatzip_utils.c:1209-1222 | Data and original pointers of both directions are exchanged |
| DecompressBuffers.Stream.Setup | src/qatzip_utils.c:1350-1427 | The hardware gets the user's pointers or the swapped buffers |
| DecompressBuffers.Stream.InBufferCleanUp | src/qatzip_utils.c:1429-1437 | A refused request leaves a free stream with its pointers as when it was claimed |
| DecompressBuffers.Stream.PutBack | src/qatzip_utils.c:1467-1471 | All pointers are back before the step that frees the stream |
| DecompressBuffers.Stream.Respond | src/qatzip_utils.c:1467-1481 | Skipped, software, good and wrong-checksum responses all end with a free stream and its own pointers |
| DecompressBuffers.Stream.ValidDestCleanUp | src/qatzip_utils.c:1449-1464 | A result not delivered in place is copied from the stream's own buffer |

## Left out

- The Cpa and icp_sal driver, zlib, lz4 and zstd: oracles with contracts (which outputs they may give, that these fit).
- Weak memory: steps are sequentially consistent. Retries, sleeping, polling intervals and latency mode are stuttering and left out. The flags a submitter sets when it gives up, and the counters a software chunk moves while nothing is in flight, change in one step each.
- CompressProtocol.Complete: the callback is one atomic step, because it runs inside the retriever's poll.
- CompressProtocol.DeliverSw: only slots with a destination buffer of their own; on the zero-copy first slot the code stores the software result one header too far (src/qatzip_sw.c:760-786), and the failing fallback of the retriever, poll failures and `QZ_FAIL` exits, where in-flight requests are not drained, are not steps of the model.
- CompressLate.LateExactly: for sessions whose software compressor has a result for every chunk and none longer than the destination. LateNeeds is without these conditions, and LateCanHappen asks them only of the results it is about.
- CompressOverrun.OverrunExactly: for sessions whose software compressor, if there is a fallback, has a result for every chunk. OverrunHappens is without this condition.
- CompressProtocol.FallbackOk: a failing software compressor may have written scratch data behind `next_dest`; what software compression adds to the caller's CRC is not modelled, so CompressRuns.ChecksumOfTaken is about runs without software chunks.
- CompressRuns.FinalStatus: when the submitter fails after a response was dropped, FAIL may overwrite BUF_ERROR, as in the code; hence the condition on FAIL. The fallback of the API for the rest of the source (src/qatzip.c:2041-2060) is left out.
- CompressEngine.Engine.Compress: the object runs the single-threaded call with a device that is up and accepts requests; two threads, refused requests and dead devices are in the transition system.
- XXHash.HashState.Digest: for the 64-bit hash asks that the length test be right, which fails only beyond 2^64 bytes; endianness, alignment and NULL input variants are left out.
- Framing.FindLZ4Footer: sources below 2 GB, where the 32-bit `frame_sz` cannot wrap.
- Framing.CutFrames: gzip-ext and LZ4. Plain gzip frames are searched for by a byte pattern that payload can imitate, DEFLATE_4B, raw and zlib carry no cut information; sessions forced to software are left out.
- DecompressBuffers.Stream: the pointers and counters of one stream; the interleavings of decompression are those of compression and are not repeated. The exit that returns after a failed software retrieval without swapping back (src/qatzip.c:2400-2402) is left out.
- Lz4s.ZstdCallBack: blocks that are well-formed, fit the sequence table and have runs below 65536; the zstd call itself is an oracle.
- SevenZipWriter.Writer.WriteFilesInfo: not the case of no non-empty files with a multiple of 8 directories, where the code writes behind its buffer.
- SevenZipParse.ParseFolder: one coder per folder and no bind pairs, as the writer produces; the digests are read back and dropped, as in the code.
- SevenZipFiles.ParseFiles: an EMPTY_FILE section longer than the file table is an error here, where the code would write behind the table; negative skip sizes, the path length limit and allocation failures are left out.
- FileSplit.RebuildSizes: one folder; with several the code does not advance past the last file of a folder.
- FileSplit.Splitter.Distribute: files have contents (zero-byte files are created elsewhere) and a write of the rest of a buffer is complete; symbolic links are left out.
- StreamBuffers.Stream.CompressStream: a compressor that uses nothing on success, or uses input without leaving any output, is not considered; `copied_input` of failing calls is not rolled back; a call that would read past `in_buf` is reported and ended.
- Instances.Hardware: the list of each device is a sequence, not linked nodes.
- PageTable.PageMap: tables are numbered instead of addressed; the compare-and-swap race of two threads mapping the same table, unmapping and `freePageTable` are left out.
- Ring.Queue: one producer and one consumer; with several the tail update is tried once and not retried. Capacities that do not divide 2^32.
- Asynchronous requests, parameter checks, getters, session setup and teardown, logging, statistics, command line tools, file system work.
