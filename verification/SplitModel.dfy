/** What a splitter must emit: the byte stream cut into blocks, one chunk a block. */
module SplitModel {
  import opened Basics
  import opened Core
  import opened Checksum

  // Compress may fail; None as a whole stands for the pass-through compressor.
  type Compressor = Bytes -> Option<Bytes>

  datatype Config = Config(
    chunkSize: nat,
    sessionID: Bytes,
    totalChunks: int64,
    totalBytes: int64,
    checksumType: byte,
    hasher: Bytes -> Sum,
    compressor: Option<Compressor>,
    metadata: map<Bytes, Bytes>)

  /** New gives the splitter the hasher of its checksum type. */
  ghost predicate HasherFits(cfg: Config, sha: Sha256) {
    forall data :: cfg.hasher(data) == Compute(sha, cfg.checksumType, data)
  }

  datatype Packed = Packed(data: Bytes, compressed: bool)

  /** Compression is used only when it succeeds and makes the block smaller. */
  function Pack(cfg: Config, block: Bytes): Packed {
    if cfg.compressor.None? then Packed(block, false)
    else
      match cfg.compressor.value(block)
      case Some(c) => if |c| < |block| then Packed(c, true) else Packed(block, false)
      case None => Packed(block, false)
  }

  /** A block of the source: its index, its position, its bytes and whether it is the final one. */
  datatype Block = Block(sequence: int64, offset: int64, bytes: Bytes, last: bool)

  /** The envelope of a block. The block of an empty stream announces its totals and is never compressed. */
  function ChunkOf(cfg: Config, b: Block): Chunk {
    if b.bytes == [] then
      var sum := cfg.hasher([]);
      Chunk(cfg.sessionID, 0, 0, 1, 0, [], sum.low, sum.full, cfg.checksumType, FLAG_IS_LAST, cfg.metadata)
    else
      var packed := Pack(cfg, b.bytes);
      var sum := cfg.hasher(packed.data);
      Chunk(cfg.sessionID, b.sequence, b.offset, cfg.totalChunks, cfg.totalBytes, packed.data,
            sum.low, sum.full, cfg.checksumType,
            (if b.last then FLAG_IS_LAST else 0) + (if packed.compressed then FLAG_IS_COMPRESSED else 0),
            cfg.metadata)
  }

  /** The compressor has something shorter to say than the block. */
  predicate Shortens(cfg: Config, block: Bytes) {
    && cfg.compressor.Some?
    && cfg.compressor.value(block).Some?
    && |cfg.compressor.value(block).value| < |block|
  }

  /**
   * A block travels compressed exactly when that succeeds with fewer bytes, and never longer than it is. The flag
   * of value 2 says so, that of value 1 marks the last block, and the checksum is that of the bytes that travel.
   */
  lemma CompressedWhenShorter(cfg: Config, b: Block)
    ensures var c := ChunkOf(cfg, b);
            && c.data == (if Shortens(cfg, b.bytes) then cfg.compressor.value(b.bytes).value else b.bytes)
            && |c.data| <= |b.bytes|
            && c.flags == (if Shortens(cfg, b.bytes) then 2 else 0) + (if b.last || b.bytes == [] then 1 else 0)
            && Sum(c.checksum, c.checksumBytes) == cfg.hasher(c.data)
  {
  }

  function Chunks(cfg: Config, blocks: seq<Block>): (chunks: seq<Chunk>)
    ensures |chunks| == |blocks|
    ensures forall i :: 0 <= i < |blocks| ==> chunks[i] == ChunkOf(cfg, blocks[i])
  {
    seq(|blocks|, i requires 0 <= i < |blocks| => ChunkOf(cfg, blocks[i]))
  }

  predicate Fits(text: Bytes, sequence: nat, offset: nat) {
    sequence + |text| <= MAX_INT64 && offset + |text| <= MAX_INT64
  }

  function FirstBlock(text: Bytes, k: nat, sequence: nat, offset: nat): Block
    requires k > 0 && Fits(text, sequence, offset)
  {
    if |text| <= k then Block(sequence, offset, text, true)
    else Block(sequence, offset, text[..k], false)
  }

  /** The text cut into blocks of k bytes, the last one shorter if need be; an empty text is one empty block. */
  function Cut(text: Bytes, k: nat, sequence: nat, offset: nat): (blocks: seq<Block>)
    requires k > 0 && Fits(text, sequence, offset)
    ensures |blocks| > 0
    decreases |text|
  {
    [FirstBlock(text, k, sequence, offset)] +
    if |text| <= k then [] else Cut(text[k..], k, sequence + 1, offset + k)
  }

  // --------------------------------------------------- the blocks, index by index

  /** max(1, ceil(n / k)) */
  function BlockCount(n: nat, k: nat): nat
    requires k > 0
  {
    if n == 0 then 1 else (n + k - 1) / k
  }

  lemma BlockCountStep(n: nat, k: nat)
    requires 0 < k < n
    ensures BlockCount(n, k) == 1 + BlockCount(n - k, k)
  {
    assert n + k - 1 == (n - k + k - 1) + k;
    DivAddOne(n - k + k - 1, k);
  }

  lemma QuotientUnique(x: nat, k: nat, q: nat, r: nat)
    requires 0 <= r < k && x == q * k + r
    ensures x / k == q
  {
    var p := x / k;
    assert x == p * k + x % k;
    if p < q {
      MulGap(p, q, k);
    } else if q < p {
      MulGap(q, p, k);
    }
  }

  lemma {:induction false} MulGap(a: nat, b: nat, k: nat)
    requires a < b
    ensures a * k + k <= b * k
    decreases b
  {
    MulStep(b, k);
    if a < b - 1 {
      MulGap(a, b - 1, k);
    }
  }

  lemma MulStep(i: nat, k: nat)
    requires i >= 1
    ensures (i - 1) * k + k == i * k
  {
  }

  lemma DivAddOne(a: nat, k: nat)
    requires k > 0
    ensures (a + k) / k == a / k + 1
  {
    var q := a / k;
    assert a == q * k + a % k;
    assert (q + 1) * k == q * k + k;
    QuotientUnique(a + k, k, q + 1, a % k);
  }

  lemma SmallBlockCount(n: nat, k: nat)
    requires 0 < n <= k
    ensures BlockCount(n, k) == 1
  {
    QuotientUnique(n + k - 1, k, 1, n - 1);
  }

  /** Block i of a text starts at byte i * k. */
  ghost predicate IsBlock(text: Bytes, k: nat, sequence: nat, offset: nat, b: Block, i: nat, lo: nat) {
    && lo <= |text|
    && b.sequence == sequence + i
    && b.offset == offset + lo
    && b.bytes == text[lo..Min(lo + k, |text|)]
    && (b.last <==> lo + k >= |text|)
  }

  lemma {:induction false} CutCount(text: Bytes, k: nat, sequence: nat, offset: nat)
    requires k > 0 && Fits(text, sequence, offset)
    ensures |Cut(text, k, sequence, offset)| == BlockCount(|text|, k)
    decreases |text|
  {
    if |text| > k {
      CutCount(text[k..], k, sequence + 1, offset + k);
      BlockCountStep(|text|, k);
    } else if text != [] {
      SmallBlockCount(|text|, k);
    }
  }

  /** Block i holds the bytes from i*k on, at index i and offset i*k, and only the final one is last. */
  lemma {:induction false} CutByIndex(text: Bytes, k: nat, sequence: nat, offset: nat, i: nat)
    requires k > 0 && Fits(text, sequence, offset)
    requires i < |Cut(text, k, sequence, offset)|
    ensures var blocks := Cut(text, k, sequence, offset);
            && IsBlock(text, k, sequence, offset, blocks[i], i, i * k)
            && (blocks[i].last <==> i == |blocks| - 1)
    decreases i
  {
    if i > 0 {
      var rest := Cut(text[k..], k, sequence + 1, offset + k);
      assert Cut(text, k, sequence, offset) == [FirstBlock(text, k, sequence, offset)] + rest;
      CutByIndex(text[k..], k, sequence + 1, offset + k, i - 1);
      MulStep(i, k);
      ShiftBlock(text, k, sequence, offset, rest[i - 1], i, (i - 1) * k, i * k);
    }
  }

  /** An empty block occurs only as the one block of an empty text. */
  lemma EmptyBlockIsAlone(text: Bytes, k: nat, i: nat)
    requires k > 0 && Fits(text, 0, 0) && i < |Cut(text, k, 0, 0)|
    requires Cut(text, k, 0, 0)[i].bytes == []
    ensures text == [] && i == 0 && |Cut(text, k, 0, 0)| == 1
  {
    CutHasNoEmptyBlock(text, k, 0, 0, i);
  }

  lemma {:induction false} BlockSize(text: Bytes, k: nat, sequence: nat, offset: nat, i: nat)
    requires k > 0 && Fits(text, sequence, offset) && i < |Cut(text, k, sequence, offset)|
    ensures |Cut(text, k, sequence, offset)[i].bytes| <= k
    decreases i
  {
    if i > 0 {
      BlockSize(text[k..], k, sequence + 1, offset + k, i - 1);
    }
  }

  lemma {:induction false} CutHasNoEmptyBlock(text: Bytes, k: nat, sequence: nat, offset: nat, i: nat)
    requires k > 0 && Fits(text, sequence, offset) && i < |Cut(text, k, sequence, offset)|
    ensures text != [] ==> Cut(text, k, sequence, offset)[i].bytes != []
    decreases i
  {
    if i > 0 {
      CutHasNoEmptyBlock(text[k..], k, sequence + 1, offset + k, i - 1);
    }
  }

  lemma ShiftBlock(text: Bytes, k: nat, sequence: nat, offset: nat, b: Block, i: nat, lo: nat, hi: nat)
    requires k < |text| && i >= 1 && hi == lo + k
    requires IsBlock(text[k..], k, sequence + 1, offset + k, b, i - 1, lo)
    ensures IsBlock(text, k, sequence, offset, b, i, hi)
  {
    SliceOfSuffix(text, k, lo, Min(lo + k, |text| - k));
  }

  lemma SliceOfSuffix(text: Bytes, k: nat, lo: nat, hi: nat)
    requires lo <= hi && k + hi <= |text|
    ensures text[k..][lo..hi] == text[k + lo..k + hi]
  {
  }

  function Joined(blocks: seq<Block>): Bytes {
    if blocks == [] then [] else blocks[0].bytes + Joined(blocks[1..])
  }

  lemma JoinedCons(b: Block, rest: seq<Block>)
    ensures Joined([b] + rest) == b.bytes + Joined(rest)
  {
    var blocks := [b] + rest;
    assert |blocks| == 1 + |rest|;
    assert blocks[1..] == rest;
  }

  /** Put together again, the blocks are the text. */
  lemma {:induction false} CutLosesNothing(text: Bytes, k: nat, sequence: nat, offset: nat)
    requires k > 0 && Fits(text, sequence, offset)
    ensures Joined(Cut(text, k, sequence, offset)) == text
    decreases |text|
  {
    var first := FirstBlock(text, k, sequence, offset);
    if |text| <= k {
      JoinedCons(first, []);
    } else {
      var rest := Cut(text[k..], k, sequence + 1, offset + k);
      CutLosesNothing(text[k..], k, sequence + 1, offset + k);
      TwoPieces(first, rest, text, k);
    }
  }

  lemma TwoPieces(first: Block, rest: seq<Block>, text: Bytes, k: nat)
    requires k <= |text| && first.bytes == text[..k] && Joined(rest) == text[k..]
    ensures Joined([first] + rest) == text
  {
    JoinedCons(first, rest);
    assert text[..k] + text[k..] == text;
  }

  function BytesOf(blocks: seq<Block>): (parts: seq<Bytes>)
    ensures |parts| == |blocks|
  {
    seq(|blocks|, i requires 0 <= i < |blocks| => blocks[i].bytes)
  }

  lemma {:induction false} JoinedIsFlatten(blocks: seq<Block>)
    ensures Joined(blocks) == Flatten(BytesOf(blocks))
    decreases |blocks|
  {
    if blocks != [] {
      JoinedIsFlatten(blocks[1..]);
      assert BytesOf(blocks) == [blocks[0].bytes] + BytesOf(blocks[1..]);
      FlattenCons(blocks[0].bytes, BytesOf(blocks[1..]));
    }
  }

  // ------------------------------------------------------------- the options

  const DEFAULT_CHUNK_SIZE: nat := 65536

  /** The two options that decide the announced number of chunks. */
  datatype Choice = WithChunkSize(size: int64) | WithTotalBytes(total: int64)

  /** Go's division of int64 values truncates toward zero. */
  function Quotient(a: int, k: nat): int
    requires k > 0
  {
    if a >= 0 then a / k else -(-a / k)
  }

  /** WithTotalBytes' chunk count for a chunk size of k. */
  function AnnouncedChunks(total: int64, k: nat): int64
    requires 0 < k <= MAX_INT64
  {
    QuotientRange(Wrap64(Wrap64(total + k) - 1), k);
    Quotient(Wrap64(Wrap64(total + k) - 1), k)
  }

  lemma QuotientRange(a: int, k: nat)
    requires k > 0 && -0x8000_0000_0000_0000 <= a <= MAX_INT64
    ensures -0x8000_0000_0000_0000 <= Quotient(a, k) <= MAX_INT64
    ensures a < 0 ==> Quotient(a, k) <= 0
  {
    DivAtMost(if a >= 0 then a else -a, k);
  }

  lemma DivAtMost(a: nat, k: nat)
    requires k > 0
    ensures 0 <= a / k <= a
  {
    var q := a / k;
    assert a == q * k + a % k;
    AtLeastOneEach(q, k);
  }

  lemma {:induction false} AtLeastOneEach(q: nat, k: nat)
    requires k > 0
    ensures q * k >= q
    decreases q
  {
    if q > 0 {
      AtLeastOneEach(q - 1, k);
      MulStep(q, k);
    }
  }

  datatype Announcement = Announcement(chunkSize: nat, totalBytes: int64, totalChunks: int64)

  /** One option: the count is made with the chunk size set so far. */
  function ChooseOne(a: Announcement, c: Choice): (b: Announcement)
    requires 0 < a.chunkSize <= MAX_INT64
    ensures 0 < b.chunkSize <= MAX_INT64
  {
    match c
    case WithChunkSize(size) => if size > 0 then a.(chunkSize := size) else a
    case WithTotalBytes(total) =>
      if total >= 0 then a.(totalBytes := total, totalChunks := AnnouncedChunks(total, a.chunkSize))
      else a.(totalBytes := total)
  }

  /** Options take effect one after the other. */
  function Choose(a: Announcement, choices: seq<Choice>): (b: Announcement)
    requires 0 < a.chunkSize <= MAX_INT64
    ensures 0 < b.chunkSize <= MAX_INT64
    decreases |choices|
  {
    if choices == [] then a else Choose(ChooseOne(a, choices[0]), choices[1..])
  }

  /**
   * A later option finds what the earlier ones left. A chunk size that is not positive is ignored; a negative
   * total is announced, but leaves the number of chunks as it was.
   */
  lemma {:induction false} LaterChoice(a: Announcement, choices: seq<Choice>, c: Choice)
    requires 0 < a.chunkSize <= MAX_INT64
    ensures var b, d := Choose(a, choices), Choose(a, choices + [c]);
            match c
            case WithChunkSize(size) => d == b.(chunkSize := if size > 0 then size else b.chunkSize)
            case WithTotalBytes(total) =>
              && d.chunkSize == b.chunkSize && d.totalBytes == total
              && d.totalChunks == if total < 0 then b.totalChunks else AnnouncedChunks(total, b.chunkSize)
    decreases |choices|
  {
    var all := choices + [c];
    if choices == [] {
      assert all == [c] && all[1..] == [];
    } else {
      assert all[0] == choices[0] && all[1..] == choices[1..] + [c];
      LaterChoice(ChooseOne(a, choices[0]), choices[1..], c);
    }
  }

  const DEFAULTS: Announcement := Announcement(DEFAULT_CHUNK_SIZE, -1, -1)

  /** ceil(n / k) for a non-empty text, by the block its last byte is in. */
  lemma LastByteDecides(n: nat, k: nat)
    requires n > 0 && k > 0
    ensures BlockCount(n, k) == (n - 1) / k + 1
  {
    DivAddOne(n - 1, k);
  }

  /** What the count comes to: overflow makes it negative or zero. */
  lemma AnnouncedValue(n: nat, k: nat)
    requires n <= MAX_INT64 && 0 < k <= MAX_INT64
    ensures n + k - 1 <= MAX_INT64 ==> AnnouncedChunks(n, k) == (n + k - 1) / k
    ensures n + k - 1 > MAX_INT64 ==> AnnouncedChunks(n, k) <= 0
  {
    var a := Wrap64(Wrap64(n + k) - 1);
    if n + k - 1 <= MAX_INT64 {
      assert a == n + k - 1;
    } else {
      assert a == n + k - 1 - 0x1_0000_0000_0000_0000;
      QuotientRange(a, k);
    }
  }

  /**
   * The count announced with chunk size k0 is the number of chunks made with chunk size k exactly when the
   * stream is not empty, the sum in the count does not overflow, and both sizes put the last byte into a
   * block of the same index.
   */
  lemma AnnouncedIff(text: Bytes, k0: nat, k: nat)
    requires 0 < k0 <= MAX_INT64 && k > 0 && Fits(text, 0, 0)
    ensures AnnouncedChunks(|text|, k0) == |Cut(text, k, 0, 0)|
            <==> |text| > 0 && |text| + k0 - 1 <= MAX_INT64 && (|text| - 1) / k0 == (|text| - 1) / k
  {
    CutCount(text, k, 0, 0);
    AnnouncedValue(|text|, k0);
    if text == [] {
      QuotientUnique(k0 - 1, k0, 0, k0 - 1);
    } else {
      LastByteDecides(|text|, k0);
      LastByteDecides(|text|, k);
    }
  }

  /** With one size throughout, only the empty stream and the overflow are left. */
  lemma AnnouncedIffNonEmpty(text: Bytes, k: nat)
    requires 0 < k <= MAX_INT64 && Fits(text, 0, 0)
    ensures AnnouncedChunks(|text|, k) == |Cut(text, k, 0, 0)| <==> text != [] && |text| + k - 1 <= MAX_INT64
  {
    AnnouncedIff(text, k, k);
  }

  /** The total given before the chunk size announces two chunks for what becomes 128; the other order is right. */
  lemma OptionOrderExample(text: Bytes)
    requires |text| == 131072
    ensures Choose(DEFAULTS, [WithTotalBytes(131072), WithChunkSize(1024)]) == Announcement(1024, 131072, 2)
    ensures Choose(DEFAULTS, [WithChunkSize(1024), WithTotalBytes(131072)]) == Announcement(1024, 131072, 128)
    ensures |Cut(text, 1024, 0, 0)| == 128
  {
    CutCount(text, 1024, 0, 0);
    assert [WithTotalBytes(131072), WithChunkSize(1024)][1..] == [WithChunkSize(1024)];
    assert [WithChunkSize(1024), WithTotalBytes(131072)][1..] == [WithTotalBytes(131072)];
    assert [WithChunkSize(1024)][1..] == [] && [WithTotalBytes(131072)][1..] == [];
  }
}
