/** The splitter's chunks are a stream the assembler turns back into the source, in any order. */
module EndToEnd {
  import opened Basics
  import opened Core
  import opened Checksum
  import Split = SplitModel
  import opened AssemblerModel
  import opened Reassembly
  import opened Recovery
  import opened Sources
  import opened Lookahead

  /** Both ends agree: session, hasher, and a decompressor that undoes the compressor. */
  ghost predicate Compatible(sc: Split.Config, ac: Config) {
    && sc.chunkSize > 0
    && (ac.sessionID == [] || sc.sessionID == [] || sc.sessionID == ac.sessionID)
    && Split.HasherFits(sc, ac.sha)
    && (sc.compressor.Some? ==>
          && ac.decompressor.Some?
          && forall x :: sc.compressor.value(x).Some? ==>
               ac.decompressor.value(sc.compressor.value(x).value) == Some(x))
  }

  ghost function Emitted(sc: Split.Config, text: Bytes): (chunks: seq<Chunk>)
    requires sc.chunkSize > 0 && |text| <= MAX_INT64
  {
    Split.Chunks(sc, Split.Cut(text, sc.chunkSize, 0, 0))
  }

  /** Compressing when it helps is undone by decompressing when flagged. */
  lemma PayloadOfChunk(sc: Split.Config, ac: Config, b: Split.Block)
    requires Compatible(sc, ac)
    ensures Payload(ac, Split.ChunkOf(sc, b)).0 == Some(b.bytes)
    ensures IsLast(Split.ChunkOf(sc, b)) <==> b.last || b.bytes == []
  {
    if b.bytes != [] {
      var p := Split.Pack(sc, b.bytes);
      assert p.compressed ==> p.data == sc.compressor.value(b.bytes).value;
    }
  }

  lemma ChunkOfVerifies(sc: Split.Config, ac: Config, b: Split.Block)
    requires Compatible(sc, ac)
    ensures ChecksumMatches(ac, Split.ChunkOf(sc, b)) && SessionMatches(ac, Split.ChunkOf(sc, b))
  {
    var c := Split.ChunkOf(sc, b);
    assert sc.hasher(c.data) == Compute(ac.sha, sc.checksumType, c.data);
    ComputedChecksumVerifies(ac.sha, c);
  }

  lemma BlockIsStreamChunk(sc: Split.Config, ac: Config, text: Bytes, i: nat)
    requires Compatible(sc, ac) && |text| <= MAX_INT64
    requires i < |Split.Cut(text, sc.chunkSize, 0, 0)|
    ensures var blocks := Split.Cut(text, sc.chunkSize, 0, 0);
            && IsStreamChunk(ac, Split.ChunkOf(sc, blocks[i]), i, |blocks|)
            && Payload(ac, Split.ChunkOf(sc, blocks[i])).0 == Some(blocks[i].bytes)
  {
    var k := sc.chunkSize;
    var blocks := Split.Cut(text, k, 0, 0);
    var b := blocks[i];
    Split.CutByIndex(text, k, 0, 0, i);
    PayloadOfChunk(sc, ac, b);
    ChunkOfVerifies(sc, ac, b);
    if b.bytes == [] {
      Split.EmptyBlockIsAlone(text, k, i);
    }
  }

  /** What the splitter emits is a stream in the assembler's sense, and its text is the source. */
  lemma EmittedIsStream(sc: Split.Config, ac: Config, text: Bytes)
    requires Compatible(sc, ac) && |text| <= MAX_INT64
    ensures IsStream(ac, Emitted(sc, text))
    ensures Whole(ac, Emitted(sc, text)) == text
    ensures |Emitted(sc, text)| == Split.BlockCount(|text|, sc.chunkSize)
  {
    var k := sc.chunkSize;
    var blocks := Split.Cut(text, k, 0, 0);
    var fam := Emitted(sc, text);
    forall i | 0 <= i < |fam|
      ensures IsStreamChunk(ac, fam[i], i, |fam|) && Payload(ac, fam[i]).0 == Some(blocks[i].bytes)
    {
      BlockIsStreamChunk(sc, ac, text, i);
    }
    assert Payloads(ac, fam) == Split.BytesOf(blocks);
    Split.JoinedIsFlatten(blocks);
    Split.CutLosesNothing(text, k, 0, 0);
    Split.CutCount(text, k, 0, 0);
  }

  /** The first m * k bytes, or all if there are fewer. */
  function FirstBytes(text: Bytes, m: nat, k: nat): (b: Bytes)
    ensures b <= text
  {
    text[..Min(m * k, |text|)]
  }

  lemma FirstBytesStep(text: Bytes, i: nat, k: nat)
    requires i * k <= |text|
    ensures FirstBytes(text, i, k) + text[i * k..Min(i * k + k, |text|)] == FirstBytes(text, i + 1, k)
  {
    Split.MulStep(i + 1, k);
    NextSlice(text, i * k, k);
  }

  lemma EmittedPayload(sc: Split.Config, ac: Config, text: Bytes, i: nat)
    requires Compatible(sc, ac) && |text| <= MAX_INT64 && i < |Emitted(sc, text)|
    ensures HoldsSlice(ac, Emitted(sc, text)[i], text, sc.chunkSize, i)
  {
    BlockIsStreamChunk(sc, ac, text, i);
    Split.CutByIndex(text, sc.chunkSize, 0, 0, i);
  }

  ghost predicate HoldsSlice(cfg: Config, c: Chunk, text: Bytes, k: nat, i: nat) {
    i * k <= |text| && Payload(cfg, c).0 == Some(text[i * k..Min(i * k + k, |text|)])
  }

  lemma {:induction false} TextOfSlices(cfg: Config, fam: seq<Chunk>, text: Bytes, k: nat, m: nat)
    requires IsStream(cfg, fam) && m <= |fam|
    requires forall i :: 0 <= i < m ==> HoldsSlice(cfg, fam[i], text, k, i)
    ensures Text(cfg, fam, m) == FirstBytes(text, m, k)
  {
    if m == 0 {
      assert Text(cfg, fam, 0) == [];
    } else {
      TextOfSlices(cfg, fam, text, k, m - 1);
      TextStep(cfg, fam, m - 1);
      assert HoldsSlice(cfg, fam[m - 1], text, k, m - 1);
      FirstBytesStep(text, m - 1, k);
    }
  }

  /** The payloads of the first m chunks are the first m * k bytes of the source. */
  lemma EmittedText(sc: Split.Config, ac: Config, text: Bytes, m: nat)
    requires Compatible(sc, ac) && |text| <= MAX_INT64
    requires IsStream(ac, Emitted(sc, text)) && m <= |Emitted(sc, text)|
    ensures Text(ac, Emitted(sc, text), m) == FirstBytes(text, m, sc.chunkSize)
  {
    forall i | 0 <= i < m
      ensures HoldsSlice(ac, Emitted(sc, text)[i], text, sc.chunkSize, i)
    {
      EmittedPayload(sc, ac, text, i);
    }
    TextOfSlices(ac, Emitted(sc, text), text, sc.chunkSize, m);
  }

  lemma NextSlice(text: Bytes, lo: nat, k: nat)
    requires lo <= |text|
    ensures text[..lo] + text[lo..Min(lo + k, |text|)] == text[..Min(lo + k, |text|)]
  {
  }

  /**
   * The law of the repository: splitting, delivering in any order with any repetitions, and assembling.
   * The output is always a prefix of the source; the stream is complete exactly when every chunk was
   * accepted once, and then the output is the source.
   */
  lemma SplitAssembleRoundTrip(sc: Split.Config, ac: Config, text: Bytes, calls: seq<Chunk>)
    requires Compatible(sc, ac) && |text| <= MAX_INT64
    requires forall c :: c in calls ==> c in Emitted(sc, text)
    ensures var s := Run(ac, START, calls);
            && s.writer.contents <= text
            && (s.completed <==> Accepted(ac, START, calls) == Range(0, |Emitted(sc, text)|))
            && (s.completed ==> s.writer.contents == text && s.total == |text| && s.hashed == text)
  {
    EmittedIsStream(sc, ac, text);
    AnyOrderDelivers(ac, Emitted(sc, text), calls);
  }

  /** In order, every call succeeds and the source comes back, whatever the size of the reorder buffer. */
  lemma InOrderRoundTrip(sc: Split.Config, ac: Config, text: Bytes)
    requires Compatible(sc, ac) && |text| <= MAX_INT64
    ensures var s := Run(ac, START, Emitted(sc, text)); s.completed && s.writer.contents == text
  {
    EmittedIsStream(sc, ac, text);
    assert [] <= Emitted(sc, text);
    assert Run(ac, START, []) == START;
    ResendCompletes(ac, Emitted(sc, text), [], []);
  }

  /** Shuffled within the reorder window, nothing is refused and the source comes back. */
  lemma WindowRoundTrip(sc: Split.Config, ac: Config, text: Bytes, order: seq<nat>, calls: seq<Chunk>)
    requires Compatible(sc, ac) && |text| <= MAX_INT64
    requires Delivers(Emitted(sc, text), order, calls) && WithinWindow(ac, order)
    ensures NeverRefused(ac, calls)
    ensures var s := Run(ac, START, calls); s.completed && s.writer.contents == text
  {
    EmittedIsStream(sc, ac, text);
    WindowTheorem(ac, Emitted(sc, text), order, calls);
  }

  lemma BlockOfSource(k: nat, src: Source, blocks: seq<Split.Block>, i: nat)
    requires k > 0 && FaultFree(src) && |src.rest| <= MAX_INT64
    requires blocks == FutureOfSource(src, k) && i < |blocks|
    ensures |blocks| == Split.BlockCount(|src.rest|, k)
    ensures Split.IsBlock(src.rest, k, 0, 0, blocks[i], i, i * k)
    ensures blocks[i].last <==> i == |blocks| - 1
    ensures if src.rest == [] then i == 0 && blocks[i].bytes == [] else blocks[i].bytes != []
  {
    HarvestFacts(src, k);
    assert Split.Fits(src.rest, 0, 0) && blocks == Split.Cut(src.rest, k, 0, 0);
    Split.CutCount(src.rest, k, 0, 0);
    Split.CutByIndex(src.rest, k, 0, 0, i);
    Split.CutHasNoEmptyBlock(src.rest, k, 0, 0, i);
  }

  /**
   * Over a fault-free reader, whatever its short reads, the splitter emits max(1, ceil(n / k)) chunks:
   * chunk i is number i, placed at i * k, made from the bytes of the source there, and only the final one is last.
   */
  lemma SplitterCutsSource(sc: Split.Config, src: Source, blocks: seq<Split.Block>, i: nat)
    requires sc.chunkSize > 0 && FaultFree(src) && |src.rest| <= MAX_INT64
    requires blocks == FutureOfSource(src, sc.chunkSize) && i < |blocks|
    ensures var k, c := sc.chunkSize, Split.ChunkOf(sc, blocks[i]);
            && |blocks| == Split.BlockCount(|src.rest|, k)
            && c.sequence == i && c.offset == i * k
            && (IsLast(c) <==> i == |blocks| - 1)
            && c.totalChunks == (if src.rest == [] then 1 else sc.totalChunks)
            && c.totalBytes == (if src.rest == [] then 0 else sc.totalBytes)
            && c.sessionID == sc.sessionID && c.metadata == sc.metadata && c.checksumType == sc.checksumType
            && i * k <= |src.rest| && blocks[i].bytes == src.rest[i * k..Min(i * k + k, |src.rest|)]
  {
    BlockOfSource(sc.chunkSize, src, blocks, i);
  }

  // ------------------------------------------------------------ faulty readers

  /**
   * A reader that faults after the first block is cut short without an error: the chunks are those of
   * the bytes obtained so far, the last of them flagged last, and they reassemble to a completed stream.
   * It is the whole source exactly when no answer of the reader loses bytes: no fault comes, with bytes
   * left, before the block in hand is full.
   */
  lemma FaultTruncatesSilently(sc: Split.Config, ac: Config, src: Source)
    requires Compatible(sc, ac) && |src.rest| <= MAX_INT64
    requires ReadFull(src, sc.chunkSize).error != Some(ReadFailed)
    ensures var h := Harvest(src, sc.chunkSize);
            && h.got <= src.rest
            && FutureOfSource(src, sc.chunkSize) == Split.Cut(h.got, sc.chunkSize, 0, 0)
            && Run(ac, START, Split.Chunks(sc, FutureOfSource(src, sc.chunkSize))).completed
            && (Run(ac, START, Split.Chunks(sc, FutureOfSource(src, sc.chunkSize))).writer.contents == src.rest
                <==> !Loses(src.script, |src.rest|, sc.chunkSize, sc.chunkSize))
  {
    var h := Harvest(src, sc.chunkSize);
    HarvestFacts(src, sc.chunkSize);
    HarvestWholeIff(src, sc.chunkSize);
    assert Split.Fits(h.got, 0, 0);
    InOrderRoundTrip(sc, ac, h.got);
  }

  /** It happens: one full block, then a fault, and the receiver completes with one byte of three. */
  lemma FaultExample(sc: Split.Config, ac: Config, src: Source)
    requires Compatible(sc, ac) && sc.chunkSize == 1
    requires src == Source([1, 2, 3], [Deliver(1, false), Fault(0)])
    ensures ReadFull(src, sc.chunkSize).error == None
    ensures var s := Run(ac, START, Split.Chunks(sc, FutureOfSource(src, sc.chunkSize)));
            s.completed && s.writer.contents != src.rest
  {
    assert src.rest[..1] == [1] && src.script[1..] == [Fault(0)];
    assert Loses([Fault(0)], 2, 1, 1);
    FaultTruncatesSilently(sc, ac, src);
  }

  // ------------------------------------------------------------ pattern source

  /** Byte j of block i is the source byte at the block's offset plus j, whatever the short reads. */
  lemma BlocksCarrySource(sc: Split.Config, src: Source, blocks: seq<Split.Block>, i: nat, j: nat)
    requires sc.chunkSize > 0 && FaultFree(src) && |src.rest| <= MAX_INT64
    requires blocks == FutureOfSource(src, sc.chunkSize) && i < |blocks| && j < |blocks[i].bytes|
    ensures blocks[i].offset == i * sc.chunkSize && blocks[i].offset + j < |src.rest|
    ensures blocks[i].bytes[j] == src.rest[blocks[i].offset + j]
  {
    BlockOfSource(sc.chunkSize, src, blocks, i);
    var lo: int := blocks[i].offset;
    assert lo == i * sc.chunkSize && blocks[i].bytes == src.rest[lo..Min(lo + sc.chunkSize, |src.rest|)];
  }

  /** Over a pattern reader, every byte carried is the pattern at its position, wherever the cuts fall. */
  lemma PatternComesThrough(sc: Split.Config, pattern: Bytes, src: Source, blocks: seq<Split.Block>, i: nat, j: nat)
    requires sc.chunkSize > 0 && pattern != [] && FaultFree(src) && |src.rest| <= MAX_INT64
    requires src.rest == PatternText(pattern, |src.rest|)
    requires blocks == FutureOfSource(src, sc.chunkSize) && i < |blocks| && j < |blocks[i].bytes|
    ensures blocks[i].bytes[j] == pattern[(i * sc.chunkSize + j) % |pattern|]
  {
    BlocksCarrySource(sc, src, blocks, i, j);
    PatternAt(pattern, |src.rest|, blocks[i].offset + j);
  }

  lemma PatternAt(pattern: Bytes, total: nat, p: nat)
    requires pattern != [] && p < total
    ensures PatternText(pattern, total)[p] == pattern[p % |pattern|]
  {
  }
}
