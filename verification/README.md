# Split-and-Go, modelled and proved in Dafny

Split-and-Go cuts a byte stream into *chunks*, carries them as binary frames, and puts them together again
at the far end. This project models that pipeline and proves what it promises.

* A **splitter** (`pkg/splitter`) reads the source into two pooled buffers, always one block ahead of the
  chunk it emits, because only the block read ahead tells whether the current one is the last.
* The **codec** (`pkg/core/chunk.go`) writes a chunk as a frame of length-prefixed fields, its metadata in
  whatever order the map is walked, and reads it back.
* The **assembler** (`pkg/assembler`) writes chunks in sequence, holds early ones in a bounded buffer, and
  drains that buffer when the missing chunk arrives.
* The **framed loops** (`pkg/transport/http`) and the pair **`Stream` / `AsReader`** join the parts, the first
  over a byte stream, the second over a bounded channel between goroutines.
* Around them: CRC-32C and SHA-256 verification, record batching, the buffer pool and a pattern source.

The law of the repository is that the source comes back. It is `EndToEnd.SplitAssembleRoundTrip` on chunks,
`Transport.SourceToSink` on wire bytes, `Pipeline.StreamedSourceArrives` for interleaved goroutines and
`RecordStream.RecordsArrive` for typed records.

## How the model is built

Code that changes state is modelled as classes and loops: `Assembler.Assembler`, `Splitter.Splitter`,
`Record.Streamer`, `Pool.TieredPool`, `ChunkObject.ChunkCell`, the readers and writers, `EncodeBinary`,
`DecodeBinary`, `StreamResponse` and `ReceiveRequest`. Each method is proved equal to a small specification
function (`AssemblerModel.Step`, `Lookahead.Slide`, `SplitModel.Cut`, `Codec.Decode`, `Delivery.PassOn`,
`Transport.Receive`, `RecordModel.EncodePayload`), and the lemmas then prove what those functions mean, over all inputs and whole runs.

Readers answer by a *script* of short reads, early ends of file and faults; destinations by a script of
accepted and failed writes; the writer of a frame may fail at any write after taking any part of it, and the
reader of frames may end in an end of file or in a fault of its own. Lemmas quantify over every script, so "for
every reader" means just that. A chunk that the splitter emits or the assembler buffers is an object with byte
arrays of its own, kept apart from the buffers that are reused. The buffer pool is shared: between two calls of a
splitter, other splitters and other users may put buffers into it and take buffers out.
Compression, SHA-256 and the record codec are arbitrary functions with at most the laws named in a lemma's
`requires`. The CRCs are shift registers, fed bit by bit; that they are the remainders of polynomial division by the
published divisors, that of CRC-32C as in section 12.1 of RFC 3720, is proved. A context is a number of polls
after which it is found cancelled, or a step of its own in the interleaved model.

| file | contents |
|---|---|
| `Basics`, `BigEndian`, `Chunk` | integer widths, concatenation, big-endian integers, the chunk and the errors |
| `Codec`, `ChunkIO`, `ChunkObject` | the frame format, its reading and writing methods, flags and the deep copy |
| `Crc32c` | the CRC registers and the burst errors they are sure to catch |
| `CrcPolynomial`, `CrcValues` | what the registers compute: polynomial remainders, and the published check values |
| `Checksum` | the hashers |
| `Assembler`, `Reassembly`, `Recovery` | the assembler, arrival orders and the reorder window, failures and resuming |
| `Delivery` | chunks passed on one by one until the last-flagged one, what success then means, and which write fails |
| `Sources`, `Pool` | readers and `io.ReadFull`, the pattern source, the buffer pool |
| `SplitModel`, `Lookahead`, `Splitter` | cutting into blocks, the lookahead on values, the splitter |
| `SharedPool` | splitters beside each other on one pool, and other users of it |
| `EndToEnd` | splitter and assembler together |
| `Transport`, `TransportLoops` | receiving frames, truncation, the send and receive loops |
| `Pipeline` | `Stream` and `AsReader` as interleaved steps |
| `Record` | record batches, line framing, the streamer and the receiver |
| `RecordStream` | record chunks through the assembler |

## Where the code departs from the obvious claim

Each departure is kept in the model, with its exact condition.

* **A read fault after the first block is not reported.** It is remembered, the block in hand is flagged last,
  and the receiver completes a shortened stream (`pkg/splitter/splitter.go:205-206`, `255`, `310-324`). The
  result is whole exactly when no answer of the reader loses bytes (`Sources.Loses`, a walk over its answers):
  `EndToEnd.FaultTruncatesSilently`; `EndToEnd.FaultExample` is a concrete loss. A fault in the first block is
  reported, yet the splitter stays usable and then takes the bytes it got for the whole stream
  (`Splitter.Splitter.Next`).
* **"Any order" holds only within the window.** The repository's own README shows chunks in any order
  (`README.md:406-420`); the code refuses what does not fit. `Reassembly.WindowTheorem` gives the exact condition.
* **A full buffer refuses a chunk it already holds** (`pkg/assembler/assembler.go:161-163`):
  `Recovery.RefusedExactlyWhen` is the exact condition, `Delivery.HeldChunkRefused` a run into it: with room for
  one, chunk 1 arrives before chunk 0 and is then sent again.
* **A torn write is not counted** (`pkg/assembler/assembler.go:206-210`), so a retry repeats its bytes.
  `Recovery.StepOutput` gives the exact condition and `Recovery.TornWriteDuplicates` a concrete run.
* **Success need not mean complete.** The receive loops return when the last-flagged frame arrives, even if it
  was only buffered (`pkg/transport/http/http.go:133-135`, `207-209`), and `AsReader` closes its pipe cleanly
  in the same way over a channel that is out of order (`pkg/assembler/assembler.go:274-276`). Success means
  complete exactly when every chunk was among the deliveries up to the last-flagged one
  (`Delivery.SuccessMeansComplete`, and on the wire `Transport.NilMeansComplete`). A lost chunk
  (`Delivery.LossGoesUnnoticed`) or an overtaken one (`Delivery.OvertakingGoesUnnoticed`) goes unnoticed.
* **Oversized lengths are narrowed silently** (`pkg/core/chunk.go:181`, `216`, `226`, `232`, `240`, `249`):
  `Codec.RoundTripIffWithinLimits`. A session of 65,536 bytes is read back as the empty one
  (`Codec.OversizedSession`, and `Codec.OversizedIsMisread` for one such chunk).
* **The announced chunk count can be wrong** (`pkg/splitter/splitter.go:57-63`, `237-242`): for the empty stream,
  which is one chunk, when its sum overflows, and when the chunk size is set after the total.
  `SplitModel.AnnouncedIff` is the exact condition, `SplitModel.OptionOrderExample` announces 2 chunks for 128.
* **An empty record format is written as an array and read as lines** (`pkg/record/record.go:200-215`, `268-273`):
  `RecordModel.RoundTripIffFormatNamed`, and `RecordModel.EmptyFormatLosesBits` for a concrete codec.
* **A producer can wait for ever** in a full channel when only the consumer was cancelled
  (`pkg/splitter/splitter.go:353-358`, `pkg/assembler/assembler.go:257-259`): `Pipeline.StuckIff`, reached by the
  run in `Pipeline.ProducerWaitsForEver`.
* **Truncation is never reported as `ErrCorruptedChunk`**, the error whose text speaks of truncated data
  (`pkg/core/chunk.go:19`): a cut frame ends in one of the two end-of-file errors, and which one depends on
  whether the cut lies between two reads of the decoder (`Codec.TruncatedFrameRunsOut`). A cut between two reads
  inside a frame is therefore reported like a sender that stopped between frames (`Transport.SourceToSink`).
* **A chunk dropped at its send is counted** (`pkg/record/record.go:118-128`, `247-248`): when the context is found
  cancelled there, sequence number and offset have moved past a chunk nobody received. `RecordModel` and `Record`
  keep this (`Record.Streamer.StreamFromChannel`).
* **"The smallest size class that fits"** (`pkg/pool/pool.go:65`) is the first that fits. That is the smallest for
  every size exactly when no class stands behind a larger one unless an equal one stands before both:
  `Pool.FirstFitIsSmallest`. Classes of 16 and 4 bytes fail it (`Pool.DescendingTakesLarger`).
* **`NextPowerOfTwo` overflows** above 2^62 and then returns the smallest int: `Pool.NextPowerOfTwoIsLeast`.

## Model

| member | source | states |
|---|---|---|
| EndToEnd.SplitAssembleRoundTrip | pkg/assembler/assembler.go:123-223 | for every source, chunk size and invertible compressor, delivering the splitter's chunks in any order and with any repetitions: the output is always a prefix of the source, the stream is completed exactly when every sequence number was accepted once, and then output, count and hashed bytes are the source |
| Reassembly.WindowTheorem | pkg/assembler/assembler.go:159-183 | when every chunk arrives once, "buffer full" is never answered if and only if no chunk comes more than MaxReorderBuffer positions after its own index; and then the stream completes with the whole text |
| Transport.SourceToSink | pkg/transport/http/http.go:155-212 | for any prefix of a stream's wire bytes, any cancellation, a reader that ends or breaks, and any destination: with m frames arrived whole and q of them looked at, a receiver whose writes succeed has exactly the first q blocks of the source, and it returns nil exactly when all frames arrived and were looked at; the error tells cancellation, a broken connection, a cut between two reads of the decoder and a cut inside one from each other; a failed write is reported exactly when the first failing answer comes among those to the q blocks, and the destination then holds the blocks in front of it and the part of its own block that was taken, of a stream that is not completed |
| Transport.TruncationDetected | pkg/transport/http/http.go:187-211 | wherever the wire is cut, inside a field, between fields or between frames, the receiver is not completed, has written exactly the payloads of the m frames that arrived whole, and reports the decoder's error on the rest, or that the stream is incomplete if that is an end of file |
| Transport.ReceiveEnds | pkg/transport/http/http.go:187-211 | for frames of any chunks: behind those accepted and not flagged last, a cancelled context comes first, then what cannot be decoded, with its own error unless it is an end of file, then the next chunk's own answer |
| Transport.ForeignFrameReported | pkg/transport/http/http.go:191-201 | behind m whole frames, three bytes of another protocol or version are answered with the magic-header or version error, and exactly m payloads have been written |
| Delivery.SuccessMeansComplete | pkg/assembler/assembler.go:255-279 | chunks of one stream in any order, with any losses and repetitions, in front of any destination: unless a write fails, the loop succeeds exactly when no delivery up to the first last-flagged one overflows the buffer, and success means a complete stream exactly when every chunk was among those deliveries; the destination always holds a prefix of the stream, whole payloads if it takes all or nothing; a write fails exactly when the first failing answer falls on a chunk that an accepting destination would have been given too, and what is then held is the text before that chunk and the part taken of it |
| Delivery.LoopEnds | pkg/assembler/assembler.go:255-279 | for chunks of any kind and any destination: the first delivery answered with an error or flagged last ends the loop with its own answer; if there is none the channel's end is an error unless the stream is complete |
| Delivery.NoLastNoSuccess | pkg/assembler/assembler.go:261-272 | without a last-flagged chunk the loop never reports success, whatever the destination: it ends in a failed write, a full buffer or an incomplete stream, and which of the last two is fixed by the deliveries |
| Delivery.PassOnAbreast | pkg/assembler/assembler.go:168-223 | from any state reached without a failure and over any deliveries: the loop goes step by step as in front of a destination that accepts everything, up to the first failing write in stream order, and ends there |
| Delivery.FirstFailureIs | pkg/assembler/assembler.go:204-212 | when no payload is empty the write that fails first is that of the payload at the position of the first failing answer |
| Delivery.LossGoesUnnoticed | pkg/assembler/assembler.go:274-276 | chunks 0 and 2 of three: the last-flagged one comes last, the loop succeeds and the stream is not complete |
| Delivery.OvertakingGoesUnnoticed | pkg/transport/http/http.go:207-209 | chunks 0, 2, 1 of three: nothing is lost, the loop succeeds and never reads chunk 1 |
| Recovery.ResendCompletes | pkg/assembler/assembler.go:168-223 | after any run with all-or-nothing write failures, damaged chunks and failures in mid-drain, sending the stream once more in order completes it with nothing lost and nothing repeated |
| Pipeline.StreamedSourceArrives | pkg/splitter/splitter.go:331-368 | over any reader, faulty or not, and every interleaving of producer, bounded channel, consumer and far end: the far end has a prefix of the source; a clean end of file means the whole source exactly when no answer of the reader lost bytes; every run that can go no further ends in end of file or an error, and in end of file if nothing was cancelled and the first block was readable |
| Crc32c.ByteBurstChangesCRC32 | pkg/checksum/checksum.go:28-41 | CRC-32C, and the IEEE variant, of data of any length change under every change confined to four consecutive bytes |
| Splitter.Splitter.Next | pkg/splitter/splitter.go:215-328 | for every reader and whatever others did to the pool between two calls: end of file once done; a fault in the first block is reported once; otherwise exactly the first of the blocks still to come, in a new object whose storage is none of the reused buffers, and the rest remain; both pooled buffers stay distinct and out of the pool while in use |
| SharedPool.NextBeside | pkg/splitter/splitter.go:146 | a call of Next on one splitter leaves any other splitter on the same pool with its blocks to come, its two buffers and its reader as they were, the two still share no buffer, and the chunk emitted shares storage with neither |
| SharedPool.ForeignPut | pkg/pool/pool.go:78-93 | a buffer put into the pool by somebody else leaves a splitter on that pool as it was and usable |
| SharedPool.ForeignGet | pkg/pool/pool.go:60-75 | a buffer taken out of the pool by somebody else is none that a splitter on that pool uses or may still be handed, and the splitter stays as it was |
| SharedPool.ForeignDrop | pkg/pool/pool.go:55-60 | a pooled buffer dropped by the garbage collector leaves a splitter on that pool as it was and usable |
| EndToEnd.SplitterCutsSource | pkg/splitter/splitter.go:185-328 | over any fault-free reader, whatever its short reads: max(1, ceil(n/k)) chunks, chunk i numbered i at offset i*k with the source bytes there, only the final one flagged last, session, metadata and totals as configured except on an empty stream |
| Codec.FrameRoundTrip | pkg/core/chunk.go:173-376 | a frame followed by any bytes decodes to its chunk and leaves exactly those bytes, for every metadata order and all field values within the length limits |
| Codec.HeaderLayout | pkg/core/chunk.go:153-162 | the first three bytes are 0x53 0x47 0x01, the session length modulo 2^16 and the session follow, then the four int64 fields in two's complement, flags, checksum type and checksum, each read as a number from its documented position |
| Codec.EntryLayout | pkg/core/chunk.go:166-170 | each metadata entry, as length, key, length, value, follows those listed before it |
| Codec.TrailerLayout | pkg/core/chunk.go:165-172 | the checksum bytes and the number of entries before the entries, and after them the payload, which ends the frame, at the documented positions |
| Codec.RoundTripIffWithinLimits | pkg/core/chunk.go:173-260 | encoding then decoding gives the chunk back if and only if no length field is narrowed |
| Codec.OversizedSession | pkg/core/chunk.go:179-188 | a session of 65,536 bytes, whatever else the chunk holds, is read back as the empty session with its own text where the fields should be, and the chunk does not come back |
| Codec.OversizedIsMisread | pkg/core/chunk.go:179-188 | one such chunk, and its only frame |
| Codec.TruncatedFrameRunsOut | pkg/core/chunk.go:263-376 | every proper prefix of a frame is rejected: with an end of file exactly when it ends between two of the decoder's reads, whose lengths follow from the chunk, and with an unexpected end of file otherwise |
| Codec.DecodeWithinLimits | pkg/core/chunk.go:263-376 | whatever bytes it accepts, also with repeated metadata keys, DecodeBinary returns a chunk the encoder can represent |
| Codec.DecodeNormalises | pkg/core/chunk.go:333-375 | an accepted chunk, re-encoded in any metadata order and decoded again, is unchanged |
| Codec.DecodeStable | pkg/core/chunk.go:263-376 | more input changes the decoder's answer only if it had run out of input |
| Codec.DecodeErrors | pkg/core/chunk.go:263-376 | for all bytes: other than the two magic bytes gives the magic-header error, those two with another version gives the version error, both behind exactly three bytes; what is accepted begins with 0x53 0x47 0x01, and any other failure is that the input ran out |
| Codec.RepeatedKeys | pkg/core/chunk.go:333-361 | a frame of some other encoder, which may list a metadata key more than once, decodes to its chunk with the value listed last for each key |
| Codec.DecodeConsumes | pkg/core/chunk.go:264-273 | every accepted frame uses up input |
| BigEndian.Int64RoundTrip | pkg/core/chunk.go:191-202 | every int64, negative ones included, survives its eight-byte form |
| BigEndian.TwosComplement | pkg/core/chunk.go:191-202 | the eight bytes of x, as an unsigned number, are x, or x + 2^64 if x is negative |
| BigEndian.SignBit | pkg/core/chunk.go:288-301 | eight bytes are read as their unsigned number, less 2^64 exactly when the first byte is 128 or more |
| BigEndian.PutNarrows | pkg/core/chunk.go:181-183 | a value too large for its field is written modulo 256^width |
| BigEndian.MostSignificantFirst | pkg/core/chunk.go:181 | multi-byte integers are big-endian: the first byte is the most significant |
| BigEndian.GetAfterPut | pkg/core/chunk.go:181-183 | a length that fits its field is read back as it was |
| ChunkIO.EncodeBinary | pkg/core/chunk.go:173-260 | the code appends exactly one frame of the chunk, for some order of its metadata; when a write fails, a beginning of such a frame |
| ChunkIO.EncodeEntries | pkg/core/chunk.go:226-246 | the loop writes every metadata entry once, in an order it does not choose, and stops at a failed write having written a beginning of that |
| ChunkIO.DecodeBinary | pkg/core/chunk.go:263-376 | the code answers as the parser does and leaves the reader exactly behind what it read, on failure too; a reader with a fault of its own has that reported instead of an end of file |
| ChunkIO.ReadEntries | pkg/core/chunk.go:333-361 | the loop builds the map of the entries read, a later key replacing an earlier one, or stops at the first failure |
| ChunkIO.ToBytes | pkg/core/chunk.go:407-413 | one frame and nothing besides |
| ChunkIO.FromBytes | pkg/core/chunk.go:416-418 | undoes ToBytes for every chunk within the limits, ignores trailing bytes, rejects every truncated frame with the end-of-file error its length calls for, and another magic header or version with the error of its own |
| ChunkObject.ChunkCell.SetLast | pkg/core/chunk.go:100-106 | changes the last flag and no other bit or field |
| ChunkObject.ChunkCell.SetCompressed | pkg/core/chunk.go:114-120 | changes the compressed flag and no other bit or field |
| ChunkObject.ChunkCell.Clone | pkg/core/chunk.go:128-149 | an equal chunk sharing no buffer with the original |
| Crc32c.BurstChangesRemainder | pkg/checksum/checksum.go:59-65 | for every 32-bit generator with its top bit set, any change within 32 consecutive bits changes the remainder of a bit string of any length |
| Crc32c.BitBurstChangesCrc | pkg/checksum/checksum.go:59-65 | the same for byte strings, the change aligned to bytes or not |
| Crc32c.GeneratorTop | pkg/checksum/checksum.go:28-36 | both generators the hashers use are of that kind |
| CrcPolynomial.CrcIsRemainder | pkg/checksum/checksum.go:38-41 | for every 32-bit generator g and all data, the checksum is the complement of exactly one polynomial: the remainder of the bits of the data followed by 32 zeros, the first 32 of these complemented, divided by x^32 + g; the division is schoolbook multiplication of polynomials over GF(2) |
| CrcPolynomial.DivisionUnique | pkg/checksum/checksum.go:38-41 | under that division quotient and remainder are unique |
| CrcPolynomial.Divisors | pkg/checksum/checksum.go:13-36 | the two divisors are 0x11EDC6F41 (Castagnoli) and 0x104C11DB7 (IEEE) |
| CrcPolynomial.BitsOfByteAt | pkg/checksum/checksum.go:38-41 | each byte enters the division with its least significant bit first |
| CrcValues.CheckValues | pkg/checksum/checksum.go:28-41 | the nine bytes of "123456789" have the published check values, 0xE3069283 for CRC-32C and 0xCBF43926 for the IEEE one |
| Checksum.BurstRejected | pkg/checksum/checksum.go:59-65 | a verified CRC chunk changed within four consecutive data bytes no longer verifies |
| Checksum.ComputedChecksumVerifies | pkg/checksum/checksum.go:52-130 | a chunk carrying the checksum its own hasher computed verifies, for every checksum type |
| Checksum.Crc32BytesAgree | pkg/checksum/checksum.go:52-57 | the byte form of a CRC is four bytes, and as a big-endian number the 32-bit field |
| Checksum.OtherSums | pkg/checksum/checksum.go:75-130 | SHA-256 gives the whole digest and, as the 32-bit field, its last four bytes; any other type gives zero and no bytes |
| Checksum.VerifySha256 | pkg/checksum/checksum.go:101-115 | the comparison loop accepts exactly the full digest |
| Checksum.VerifyChunk | pkg/assembler/assembler.go:141-152 | the choice of hasher agrees with the checksum type; unknown types are not checked |
| Assembler.Assembler.FlushChunk | pkg/assembler/assembler.go:189-223 | fields, hasher and destination change as the specification's Flush says, on every return path |
| Assembler.Assembler.DrainPending | pkg/assembler/assembler.go:174-183 | the drain loop ends, because the buffer shrinks, in the state Drain gives |
| Assembler.Assembler.Buffer | pkg/assembler/assembler.go:164 | what is buffered is a clone, so the buffer shares no storage with the chunk given |
| Assembler.Assembler.WriteChunk | pkg/assembler/assembler.go:123-186 | answer and whole new state are those of Step, about which the Reassembly and Recovery lemmas speak, and everything newly buffered is fresh |
| Assembler.Assembler.IsCompleted | pkg/assembler/assembler.go:226-230 | the completed flag of the state |
| Assembler.Assembler.TotalBytes | pkg/assembler/assembler.go:233-237 | the byte count of the state |
| Assembler.Assembler.CumulativeHash | pkg/assembler/assembler.go:240-244 | the digest of exactly the payload bytes counted so far |
| Reassembly.RunRepresents | pkg/assembler/assembler.go:155-223 | after every run the next sequence is the least one not accepted, the buffer holds exactly the accepted chunks above it, and the output is the concatenation below it |
| Reassembly.StepRepresents | pkg/assembler/assembler.go:123-186 | one call keeps that correspondence and answers nil, "completed" or "buffer full" exactly as the state calls for |
| Reassembly.RepresentsDetermines | pkg/assembler/assembler.go:155-223 | the accepted set determines the whole state |
| Reassembly.OrderIndependence | pkg/assembler/assembler.go:155-223 | two runs that accepted the same sequence numbers, in any orders and with any repetitions, end in the same state |
| Reassembly.AnyOrderDelivers | pkg/assembler/assembler.go:123-223 | the output is a prefix of the stream's text, and completed means exactly that every chunk was accepted, with an empty buffer and the whole text written |
| Reassembly.AmpleBufferAcceptsAll | pkg/assembler/assembler.go:159-166 | with room for all chunks but one, whatever is refused had been accepted before |
| Reassembly.AmpleBufferCompletes | pkg/assembler/assembler.go:159-183 | with such a buffer the stream completes if and only if every chunk was delivered at least once |
| Reassembly.NothingLost | pkg/assembler/assembler.go:155-183 | while nothing has been refused, exactly the chunks that arrived are accepted |
| Reassembly.BufferBounded | pkg/assembler/assembler.go:161-164 | over every run of arbitrary chunks, however writes fail, the buffer stays within MaxReorderBuffer |
| Recovery.StepKeepsWindow | pkg/assembler/assembler.go:131-185 | every call, failed or not, keeps the buffer bounded and strictly ahead of the next sequence, which never goes back |
| Recovery.RefusalChangesNothing | pkg/assembler/assembler.go:131-163 | a refusal leaves the whole state as it was, and the expected chunk is never refused for lack of room |
| Recovery.RefusedExactlyWhen | pkg/assembler/assembler.go:131-163 | each of the four refusals is answered exactly under its condition and leaves the state as it was, also after drains: a completed stream; two named and different sessions; a checksum of type 1 or 2 that is not that of the data, if checking is on; a full buffer and a chunk ahead of the expected one, even one it holds |
| Recovery.SetAside | pkg/assembler/assembler.go:154-166 | a chunk from the past is ignored; one from the future is kept under its number, and nothing else changes |
| Recovery.AwaitedIsWritten | pkg/assembler/assembler.go:189-223 | the expected chunk, with nothing buffered behind it: its data, or with flag 2 what the decompressor makes of it, is counted, hashed and written in one write, or in none if it is empty; flag 1 completes the stream |
| Recovery.AwaitedWriteFails | pkg/assembler/assembler.go:204-209 | if that write fails, the destination keeps the part it took and nothing else has changed |
| Recovery.CannotUnpack | pkg/assembler/assembler.go:193-201 | a compressed chunk without a decompressor, or with one that fails on it, is answered with the error of that case and changes nothing |
| Recovery.DrainedAsDelivered | pkg/assembler/assembler.go:174-183 | a chunk that waited in the buffer is treated as if it were delivered behind the one that released it, errors included, and is no longer buffered |
| Delivery.HeldChunkRefused | pkg/assembler/assembler.go:161-163 | a concrete run from the start into a refusal of a chunk that the buffer already holds |
| Recovery.TamperedChunkIsRefused | pkg/assembler/assembler.go:141-152 | a CRC chunk changed within four consecutive bytes is answered with a checksum mismatch and changes nothing |
| Recovery.StepSound | pkg/assembler/assembler.go:168-223 | with failing writes and damaged chunks, counted and hashed bytes stay the text below the next sequence and the buffer stays ahead of it |
| Recovery.StepOutput | pkg/assembler/assembler.go:204-212 | the destination holds exactly the counted bytes after a call if and only if no write of the call failed after taking bytes |
| Recovery.TornWriteDuplicates | pkg/assembler/assembler.go:206-210 | a concrete torn write whose retry completes the stream with a byte repeated |
| Recovery.RunSound | pkg/assembler/assembler.go:123-223 | over every run with all-or-nothing failures the output is the text below the next sequence, a prefix of the stream |
| Recovery.RedeliveryAdvances | pkg/assembler/assembler.go:168-183 | after any failure, redelivering the expected chunk moves the stream on as soon as the destination accepts |
| Sources.ReadFullFacts | pkg/splitter/splitter.go:186-190 | a full read takes a prefix of the reader, is short exactly when it reports an error, and tells the end of file from a fault |
| Sources.HarvestFacts | pkg/splitter/splitter.go:305-320 | reading block after block gets a prefix of the source, and all of it unless a fault ended it |
| Sources.HarvestWholeIff | pkg/splitter/splitter.go:186-206 | reading block after block gets the whole source exactly when the reader's answers lose no bytes: no fault comes, with bytes left, before the block in hand is full |
| Sources.ReadFullInto | pkg/splitter/splitter.go:187-188 | the loop of io.ReadFull over short reads fills the buffer as specified |
| Sources.PatternReader.Read | pkg/core/reader.go:25-41 | each call delivers the next bytes of the repeated pattern cut at the total, filling the buffer unless the end is near |
| Sources.ReadEachFollows | pkg/core/reader.go:25-41 | for every reader the bytes of successive reads concatenate to its bytes in order |
| Sources.PatternReadEach | pkg/core/reader.go:25-41 | the bytes of successive reads into buffers of any lengths concatenate to the repeated pattern, cut at what was asked for or at the total |
| EndToEnd.PatternComesThrough | pkg/core/reader.go:25-41 | byte j of block i is the pattern at (i*k + j) mod its length, wherever reads and cuts fall |
| EndToEnd.BlocksCarrySource | pkg/splitter/splitter.go:257-259 | every block byte is the source byte at the block's offset plus its index |
| Pool.TieredPool.Get | pkg/pool/pool.go:60-75 | nil for sizes below one; otherwise a buffer that can be cut to the size, new or taken out of the first class that fits |
| Pool.TieredPool.Put | pkg/pool/pool.go:78-93 | the buffer goes to the last class its capacity reaches and nowhere else, and is let go only if it reaches none, so every class keeps large enough buffers |
| Pool.TieredPool.FindPoolIndex | pkg/pool/pool.go:95-102 | the first class that fits, or -1 when none does |
| Pool.HandedOut | pkg/pool/pool.go:72-74 | a buffer handed out lies in no class any more, so no second caller can be given it |
| Pool.FirstFitIsSmallest | pkg/pool/pool.go:65-66 | the class Get chooses is the smallest that fits, for every size, if and only if no class stands behind a larger one unless an equal one stands before both; ascending classes are such |
| Pool.DefaultClasses | pkg/pool/pool.go:8-18 | the seven default classes grow by four from 4 KiB to 16 MiB, so the smallest that fits is taken |
| Pool.DescendingTakesLarger | pkg/pool/pool.go:95-102 | classes of 16 and 4 bytes: three bytes are given a 16-byte buffer |
| Pool.NextPowerOfTwoIsLeast | pkg/pool/pool.go:105-110 | the result is at least n exactly up to 2^62; there it is a power of two and the least such, beyond it is the smallest int |
| SplitModel.CutByIndex | pkg/splitter/splitter.go:278-293 | block i has number i, offset i*k, the bytes from there on, and is last exactly at the end |
| SplitModel.CutCount | pkg/splitter/splitter.go:229-255 | a text of n bytes is max(1, ceil(n/k)) blocks |
| SplitModel.CutLosesNothing | pkg/splitter/splitter.go:257-293 | the blocks put together are the text |
| SplitModel.CompressedWhenShorter | pkg/splitter/splitter.go:266-293 | a block travels compressed exactly when the compressor succeeds with fewer bytes, and is never longer than the block; flag 2 tells so, flag 1 the last block, and the checksum is that of the bytes that travel |
| SplitModel.AnnouncedIff | pkg/splitter/splitter.go:57-63 | the count announced with one chunk size is the number of chunks made with another if and only if the stream is not empty, the sum does not overflow and both put the last byte into a block of the same index |
| SplitModel.LaterChoice | pkg/splitter/splitter.go:41-64 | each option finds what the options before it left: sizes that are not positive are ignored, a negative total leaves the count as it was |
| SplitModel.OptionOrderExample | pkg/splitter/splitter.go:41-64 | the total given before the chunk size announces 2 chunks where 128 are made, and 128 in the other order |
| SplitModel.AnnouncedIffNonEmpty | pkg/splitter/splitter.go:57-63 | with one chunk size throughout, the announced chunk count is the real one if and only if the stream is not empty and the sum does not overflow |
| Lookahead.PrimeKeepsFuture | pkg/splitter/splitter.go:185-212 | the first two reads lose nothing; after a fault in the first block only its bytes remain to be emitted |
| Lookahead.SlideRemaining | pkg/splitter/splitter.go:304-325 | sliding the window drops exactly the block emitted: buffers and reader still hold the rest of the source |
| Lookahead.CurrentIsFirstBlock | pkg/splitter/splitter.go:254-325 | with a block read ahead the current buffer is the next, full, unflagged block, and the slid window stands for the others |
| Lookahead.CurrentIsLastBlock | pkg/splitter/splitter.go:254-264 | with nothing read ahead the current buffer is the only block left, flagged last |
| Splitter.Splitter.InitLookahead | pkg/splitter/splitter.go:185-212 | the two pooled buffers, the remembered error and the reader are as the value model primes them |
| Splitter.Splitter.SlideWindow | pkg/splitter/splitter.go:304-325 | the buffers swap roles without ever being the same one |
| Splitter.Splitter.Finish | pkg/splitter/splitter.go:298-302 | each buffer that some size class can take lies in the pool afterwards, once, and nothing else was added |
| Splitter.Splitter.All | pkg/splitter/splitter.go:371-387 | all chunks of the blocks to come, each unaltered by the later calls that refill the buffers, or the fault of the first block |
| EndToEnd.PayloadOfChunk | pkg/splitter/splitter.go:266-290 | compressing only when it helps is undone by decompressing only when flagged |
| EndToEnd.EmittedIsStream | pkg/splitter/splitter.go:215-328 | what the splitter emits passes the assembler's checks, is numbered without gaps, and stands for the source |
| EndToEnd.InOrderRoundTrip | pkg/assembler/assembler.go:168-186 | in order the source comes back with a reorder buffer of any size |
| EndToEnd.EmittedText | pkg/splitter/splitter.go:278-293 | the first m chunks stand for exactly the first m blocks of the source |
| EndToEnd.WindowRoundTrip | pkg/assembler/assembler.go:159-183 | shuffled within the window, nothing is refused and the source comes back |
| EndToEnd.FaultTruncatesSilently | pkg/splitter/splitter.go:205-206 | unless the first block cannot be read the receiver completes, and has the source if and only if no answer of the reader loses bytes |
| EndToEnd.FaultExample | pkg/splitter/splitter.go:310-324 | a concrete faulty reader whose shortened stream is received as complete |
| Transport.FramesRoundTrip | pkg/core/chunk.go:173-376 | the concatenation of any list of encoded chunks decodes to that list with nothing left over |
| Transport.WireRoundTrip | pkg/transport/http/http.go:187-211 | a whole framed stream is received without error, whatever follows it, unless it is cancelled before |
| Transport.ReceiveIsPassOn | pkg/transport/http/http.go:187-211 | receiving frames is passing their chunks on one by one, as AsReader does, whenever the input ends in an end of file or a last-flagged chunk comes first |
| Transport.CancelledAfter | pkg/transport/http/http.go:188-190 | cancelled after p frames, the receiver says so and has exactly their payloads |
| Transport.NilNeedsLastChunk | pkg/transport/http/http.go:187-211 | nil is never returned unless a last-flagged frame was decoded |
| Transport.NilMeansComplete | pkg/transport/http/http.go:203-209 | frames in any order, with any losses and repetitions, in front of any destination: unless a write fails, nil is returned exactly when nothing overflows before the first last-flagged frame is through, and the output is complete exactly when every chunk was among the frames up to it; the destination always holds a prefix of the stream, and which write fails and what it leaves is exact as above |
| Transport.ReceiveMirrors | pkg/transport/http/http.go:203-205 | for every input and every destination, receiving goes exactly as in front of a destination that accepts everything until a write fails, and then the destination holds a beginning of what the other would hold |
| Transport.NilMeansCompleteIffLastComesLast | pkg/transport/http/http.go:203-209 | frames shuffled within the window are always answered with nil, but the output is complete if and only if the last-flagged frame came last |
| Transport.PartialSendReceived | pkg/transport/http/http.go:155-178 | a sender stopping between frames is noticed: the receiver has exactly the m blocks sent and reports "stream incomplete", or the fault of a broken connection, unless these were all |
| TransportLoops.StreamResponse | pkg/transport/http/http.go:155-178 | one frame per chunk, in order; how many were written and which error is returned follow from the context, the first read and the writer; a failed write leaves at most a beginning of the next frame |
| TransportLoops.ReceiveRequest | pkg/transport/http/http.go:182-212 | the loop ends in the state and with the error the specification gives, for every input and cancellation |
| TransportLoops.ReceiveAll | pkg/transport/http/http.go:108-138 | the same loop over an assembler already made, as ReadStreamResponse runs it |
| TransportLoops.Consume | pkg/assembler/assembler.go:252-279 | the consuming goroutine over any chunks its channel yields ends in the state and with the error of the specified loop |
| TransportLoops.ResponseReceived | pkg/transport/http/http.go:141-212 | under any reader, failed write and cancellation on either side, broken connection and destination, a receiver whose writes succeed has exactly the whole blocks that arrived and that it looked at, and any receiver a beginning of them; success exactly when these are all and no write failed, and then the source if and only if no answer of the reader lost bytes |
| Pipeline.StepInv | pkg/assembler/assembler.go:252-279 | every step of producer, channel, consumer, reader and cancellation keeps the pipeline's invariant |
| Pipeline.NothingLostOrRepeated | pkg/splitter/splitter.go:345-358 | at every moment the bytes delivered, in the pipe, queued, held and not yet fetched make up the source |
| Pipeline.ReaderSeesThePrefix | pkg/assembler/assembler.go:248-282 | over every run: a prefix of the source, a queue within its depth, a clean end of file only after everything, an error only after a cancellation or an unreadable first block, and then an incomplete stream |
| Pipeline.EndsTold | pkg/assembler/assembler.go:255-279 | what either goroutine reports when it has ended, over every run: no error only when it is through, its own cancellation, an unreadable first block, or an incomplete stream only behind a producer that failed |
| Pipeline.CancelledFetchesNothing | pkg/splitter/splitter.go:339-346 | once its context is cancelled the producer takes no further chunk from the splitter |
| Pipeline.CancelledMayStillDeliver | pkg/splitter/splitter.go:353-358 | cancelling is a race: a concrete run with both contexts cancelled still sends, receives and ends cleanly |
| Pipeline.RunsAreBounded | pkg/splitter/splitter.go:339-364 | no interleaving goes on for ever: a run has at most as many steps as its cost |
| Pipeline.StuckIff | pkg/splitter/splitter.go:353-358 | nothing can move if and only if the pipe is closed and drained and the producer has returned, or waits in a full channel uncancelled |
| Pipeline.ProducerWaitsForEver | pkg/splitter/splitter.go:353-358 | a concrete run into the second of these ends: only the consumer is cancelled and the producer waits for ever |
| Pipeline.EveryEndIsSeen | pkg/assembler/assembler.go:257-276 | however a run ends, cancelled or not, the far end sees end of file or an error |
| Pipeline.UncancelledRunDelivers | pkg/assembler/assembler.go:255-279 | a run without cancellation that can go no further has delivered everything, closed cleanly and emptied the channel, or ended in an error if the first block was unreadable |
| RecordModel.RecordsRoundTrip | pkg/record/record.go:102-195 | whether cut by StreamSlice or by StreamFromChannel, the chunks decode in order to exactly the input records |
| RecordModel.ChunkRoundTrip | pkg/record/record.go:197-296 | decoding a chunk gives back its batch, for line framing and every other named format |
| RecordModel.RoundTripIffFormatNamed | pkg/record/record.go:268-273 | for codecs that write slices on one line, a batch is decoded if and only if the format is not empty, or the batch is one record whose slice text also reads as that record |
| RecordModel.BitsAreLawful | pkg/record/record.go:263-296 | such a codec exists, so the laws can hold together |
| RecordModel.EmptyFormatLosesBits | pkg/record/record.go:200-215 | for a concrete codec keeping all the laws, the empty format loses every batch |
| RecordModel.LinesRoundTrip | pkg/record/record.go:200-208 | newline-terminated records split back into exactly those records |
| RecordModel.SliceBatchesKeepAll | pkg/record/record.go:175-192 | StreamSlice's cutting loses, repeats and reorders nothing |
| RecordModel.ChannelBatchesKeepAll | pkg/record/record.go:134-158 | nor does StreamFromChannel's |
| RecordModel.SliceBatchSizes | pkg/record/record.go:178-186 | every batch but the last is full, and the last is empty only for no records |
| RecordModel.ChannelBatchSizes | pkg/record/record.go:139-157 | every batch but the last is full and the last, possibly empty, is not |
| RecordModel.FullIffBatchSize | pkg/record/record.go:148-152 | the flush test, as many records as BatchSize or 128 bytes for each reaching MaxBatchBytes, is true exactly from min(BatchSize, ceil(MaxBatchBytes/128)) records on |
| RecordModel.CarriedPlaces | pkg/record/record.go:232-247 | each chunk's number and offset count the chunks and payload bytes before it, across calls, and only the final one is last |
| RecordModel.RecordHeaders | pkg/record/record.go:225-230 | the chunk names its format and its record count in decimal and keeps every other configured header |
| RecordModel.RecordFields | pkg/record/record.go:218-245 | the other fields: the payload, what the hasher makes of it, the session, number and offset given, both totals -1, and flag 1 exactly on the last chunk |
| RecordStream.RecordChecksum | pkg/record/record.go:217-245 | with the hasher of its checksum type the chunk verifies: its checksum is the CRC or the digest of its payload |
| RecordStream.RecordsAreStream | pkg/record/record.go:232-250 | the chunks of a fresh streamer, for a receiver of its session or of any, are a stream in the assembler's sense, whose text is the payloads one after the other |
| RecordStream.RecordsArrive | pkg/record/record.go:102-250 | records streamed as NDJSON, cut by slice or by channel, their chunks shuffled within the reorder window: no chunk is refused, and what the assembler writes is the lines of all records in order, which decode to the records |
| RecordStream.JoinedLines | pkg/record/record.go:200-208 | the joined payloads of the batches are the lines of all records: the cutting leaves no trace |
| RecordStream.LinesConcat | pkg/record/record.go:201-208 | the lines of some records followed by others are those of the first followed by those of the others, and one record that cannot be encoded leaves none |
| RecordStream.OneLine | pkg/record/record.go:202-207 | the line of a record is its encoding and a line feed |
| Basics.WrapIsCongruent | pkg/record/record.go:247-248 | the counters move by the amount added, up to a multiple of 2^64 that keeps them in the range of int64 |
| RecordModel.Framing | pkg/record/record.go:263-296 | no data is no records; a chunk without the "format" entry, with an empty one or with "ndjson" is read line by line, any other as one slice |
| RecordModel.Words | pkg/record/record.go:20-23 | the header words of the model are "ndjson", "format" and "record_count", the line feed is byte 10 |
| RecordModel.LinesAreSplit | pkg/record/record.go:275 | the lines hold no line feed, and joined by line feeds they are the data |
| RecordModel.DecodeInOrder | pkg/record/record.go:276-286 | the records of some lines followed by others are those of the first followed by those of the others, and one spoilt part spoils all |
| RecordModel.SpoiltIff | pkg/record/record.go:276-285 | a chunk of lines is rejected exactly when some line is not blank and does not read as a record |
| Record.Streamer.EncodeBatch | pkg/record/record.go:197-250 | the chunk of a batch and the advanced counters, or no change when a record cannot be encoded |
| Record.Streamer.StreamSlice | pkg/record/record.go:166-195 | the chunks of the slice's batches, or a batch that cannot be encoded; the counters end where the batches put them |
| Record.Streamer.StreamFromChannel | pkg/record/record.go:102-163 | how the run ends, how many chunks it sends and where the counters stand are those of HowFar for the given records and cancellations: the chunks sent are those of the first batches, the last one flagged only if the channel closed, and the counters have counted exactly them, and one more if a chunk was dropped at its send |
| Record.ChannelReach | pkg/record/record.go:110-158 | the end of such a run in closed form: of the receive cancellation behind r records (r / batch size chunks), the first batch that cannot be encoded and the cancelled send, the first in the order of the loop ends it, and only without any of them are all n / batch size + 1 chunks sent and the run finished |
| Record.DecodeChunk | pkg/record/record.go:263-296 | the loop decodes as specified: blank lines skipped, the first bad line spoiling the chunk |

## Left out

- Nil chunk pointers (`pkg/assembler/assembler.go:124-126`) and the difference between nil and empty slices or maps; a batch of no records is one value, though JSON may write it as `null` or `[]`.
- The metadata map that all chunks of one splitter share is a value: writing to it through one chunk is not modelled. Frames are encoded from the value of a chunk at that moment.
- Mutexes, goroutine scheduling inside one call, metrics, clocks and generated session identifiers; every locked method is one atomic step.
- Overflow of the 64-bit counters of splitter and assembler: sources are shorter than 2^63 bytes and the assembler counts without bound. The record streamer's counters do wrap in the model.
- SHA-256 and gzip themselves: any function, and any pair with the inverse law. Assembler.Assembler.CumulativeHash is the digest of the bytes fed, an incremental digest being taken to equal the one-shot one.
- The tables of Go's CRC library: the registers of the model take one bit at a time, eight of which a table step does at once.
- Hashers and buffer pools other than those of the repository, and buffers put back as parts of larger ones.
- Readers that themselves report an unexpected end of file, which the splitter takes for a clean one, and readers that never deliver anything.
- TransportLoops.StreamResponse: does not model headers, flushing and the missing-flusher error, nor the pipe and retry of the client's StreamPost, whose loop is the same.
- Pipeline.StepInv: the far reader keeps reading; closing it early is not a step of the model, and the channel of the interleaved model holds a splitter's chunks in order. A channel in any order is TransportLoops.Consume.
- Record.Streamer.StreamFromChannel: does not model waiting on its channels; it is given the records the input channel yields and the places where it finds the context cancelled. ConsumeChannel is the decoding of its chunks in order.
- JSON and `bytes.TrimSpace`: a record codec with stated laws; the JSON form of a chunk is not modelled.
- Guards of the option functions (sizes, depths and batch sizes above zero) appear as preconditions, except in SplitModel.Choose.
- gRPC, file and raw handlers, retry policy, command-line tools and demos: plumbing around the same loops, or easy counting.
