/** The splitter as the code runs it: two pooled buffers, one block read ahead of the one emitted. */
module Splitter {
  import opened Basics
  import opened Core
  import opened Checksum
  import opened ChunkObject
  import opened Pool
  import opened Sources
  import opened SplitModel
  import opened Lookahead

  class Splitter {
    const cfg: Config
    const reader: SourceReader
    const pool: TieredPool
    var sequence: nat
    var offset: nat
    var currBuf: array?<byte>
    var currLen: nat
    var nextBuf: array?<byte>
    var nextLen: nat
    var initialized: bool
    var isDone: bool
    var readErr: Option<Error>
    ghost var future: seq<Block>  // the blocks still to be emitted

    /** A buffer in use: large enough for a block and not lying in the pool. */
    ghost predicate Live(b: array?<byte>)
      reads pool
    {
      b != null && b.Length >= cfg.chunkSize && b !in pool.held
    }

    ghost function Buffers(): set<array<byte>>
      reads `currBuf, `nextBuf
    {
      (if currBuf == null then {} else {currBuf}) + (if nextBuf == null then {} else {nextBuf})
    }

    /** The buffers that are this splitter's alone; once the stream is over they belong to the pool. */
    ghost function InUse(): set<array<byte>>
      reads `isDone, `currBuf, `nextBuf
    {
      if isDone then {} else Buffers()
    }

    /** Every buffer this splitter may write to: its own and those the pool may hand it. */
    ghost function Repr(): set<array<byte>>
      reads `isDone, `currBuf, `nextBuf, pool`held
    {
      InUse() + pool.held
    }

    /** The buffers in use are two different ones, and neither can be handed to anyone else. */
    ghost predicate BuffersValid()
      reads `currBuf, `currLen, `nextBuf, `nextLen, pool
    {
      && Live(currBuf) && currLen <= currBuf.Length
      && (nextBuf != null ==> Live(nextBuf) && nextBuf != currBuf && nextLen <= nextBuf.Length)
      && (nextBuf == null ==> nextLen == 0)
    }

    ghost function Abs(): View
      requires BuffersValid()
      reads `currBuf, `currLen, `nextBuf, `nextLen, `readErr, pool, reader, Buffers()
    {
      View(currBuf[..currLen], if nextBuf == null then [] else nextBuf[..nextLen], readErr, reader.Abs())
    }

    /** Nothing has been read yet. */
    ghost predicate Unread()
      reads this, reader
    {
      && currBuf == null && nextBuf == null && nextLen == 0 && readErr == None
      && sequence == offset == 0
      && future != [] && future == FutureOfSource(reader.Abs(), cfg.chunkSize)
    }

    /** The two buffers and the reader stand for the blocks still to be emitted. */
    ghost predicate Running()
      reads this, pool, reader, Buffers()
    {
      && initialized && !isDone && PoolValid()
      && BuffersValid()
      && future != [] && future == FutureOf(Abs(), cfg.chunkSize, sequence, offset)
    }

    ghost predicate PoolValid()
      reads pool
    {
      cfg.chunkSize > 0 && pool.Valid() && pool.NoDuplicates()
    }

    ghost predicate Valid()
      reads this, pool, reader, Buffers()
    {
      && PoolValid()
      && (isDone ==> initialized && future == [])
      && (!initialized ==> Unread())
      && (initialized && !isDone ==> Running())
    }

    /** The very first block cannot be read without a fault. */
    ghost predicate FirstReadFails()
      reads this, reader
    {
      !initialized && ReadFull(reader.Abs(), cfg.chunkSize).error == Some(ReadFailed)
    }

    constructor (reader: SourceReader, pool: TieredPool, cfg: Config)
      requires cfg.chunkSize > 0 && pool.Valid() && pool.NoDuplicates()
      requires |reader.rest| <= MAX_INT64
      ensures Valid() && !initialized && !isDone
      ensures this.cfg == cfg && this.reader == reader && this.pool == pool && InUse() == {}
      ensures future == FutureOfSource(reader.Abs(), cfg.chunkSize)
    {
      this.cfg, this.reader, this.pool := cfg, reader, pool;
      sequence, offset, currBuf, currLen, nextBuf, nextLen := 0, 0, null, 0, null, 0;
      initialized, isDone, readErr := false, false, None;
      new;
      HarvestFacts(reader.Abs(), cfg.chunkSize);
      future := FutureOfSource(reader.Abs(), cfg.chunkSize);
    }

    /** Take a buffer of block size from the pool and fill it as far as the reader goes. */
    method FetchBlock() returns (buf: array<byte>, n: nat, error: Option<Error>)
      requires cfg.chunkSize > 0 && pool.Valid() && pool.NoDuplicates()
      modifies pool, reader, pool.held
      ensures pool.Valid() && pool.NoDuplicates() && Live(buf)
      ensures pool.held <= old(pool.held)
      ensures fresh(buf) || buf in old(pool.held)
      ensures n <= cfg.chunkSize
      ensures Reading(buf[..n], error, reader.Abs()) == ReadFull(old(reader.Abs()), cfg.chunkSize)
    {
      var b, i := pool.Get(cfg.chunkSize);
      buf := b;
      n, error := ReadFullInto(reader, buf, cfg.chunkSize);
    }

    /** The second half of initLookahead. */
    method ReadAhead()
      requires cfg.chunkSize > 0 && pool.Valid() && pool.NoDuplicates() && BuffersValid()
      requires nextBuf == null && readErr == None
      modifies this`nextBuf, this`nextLen, this`readErr, reader, pool, pool.held
      ensures pool.Valid() && pool.NoDuplicates() && BuffersValid()
      ensures nextBuf != null && (fresh(nextBuf) || nextBuf in old(pool.held))
      ensures pool.held <= old(pool.held)
      ensures var r := ReadFull(old(reader.Abs()), cfg.chunkSize);
              Abs() == View(old(currBuf[..currLen]), r.bytes,
                            if r.error == Some(UnexpectedEOF) then None else r.error, r.src)
    {
      ghost var first := currBuf[..currLen];
      var err2: Option<Error>;
      nextBuf, nextLen, err2 := FetchBlock();
      if err2.Some? && err2 != Some(UnexpectedEOF) {
        readErr := err2;
      }
      assert currBuf[..currLen] == first;
    }

    /** initLookahead: fill the first block, and unless the stream is empty read one block ahead. */
    method InitLookahead() returns (error: Option<Error>)
      requires cfg.chunkSize > 0 && pool.Valid() && pool.NoDuplicates()
      requires nextBuf == null && nextLen == 0 && readErr == None
      modifies this`currBuf, this`currLen, this`nextBuf, this`nextLen, this`readErr, reader, pool, pool.held
      ensures pool.Valid() && pool.NoDuplicates() && BuffersValid()
      ensures fresh(currBuf) || currBuf in old(pool.held)
      ensures nextBuf == null || fresh(nextBuf) || nextBuf in old(pool.held)
      ensures pool.held <= old(pool.held)
      ensures (Abs(), error) == Prime(old(reader.Abs()), cfg.chunkSize)
    {
      ghost var r1 := ReadFull(reader.Abs(), cfg.chunkSize);
      var err1: Option<Error>;
      currBuf, currLen, err1 := FetchBlock();
      assert Abs() == View(r1.bytes, [], None, r1.src) && err1 == r1.error;
      if err1 == Some(ReadFailed) {
        return err1;
      }
      if currLen == 0 {
        readErr := Some(EOF);
      } else {
        ReadAhead();
      }
      return None;
    }

    /** The envelope around a copy of the current block: a new object with storage of its own. */
    method BuildChunk(b: Block) returns (c: ChunkCell)
      ensures c.Value() == ChunkOf(cfg, b)
      ensures fresh(c) && fresh(c.data) && fresh(c.checksumBytes)
    {
      if b.bytes == [] {
        var sum := cfg.hasher([]);
        c := new ChunkCell(Chunk(cfg.sessionID, 0, 0, 1, 0, [], 0, [], cfg.checksumType, 0, cfg.metadata));
        c.SetLast(true);
        c.SetChecksum(sum.low, sum.full);
        return;
      }
      var payload := b.bytes;
      var flags: byte := if b.last then FLAG_IS_LAST else 0;
      if cfg.compressor.Some? {
        var compressed := cfg.compressor.value(payload);
        if compressed.Some? && |compressed.value| < |payload| {
          payload := compressed.value;
          flags := flags + FLAG_IS_COMPRESSED;
        }
      }
      var sum := cfg.hasher(payload);
      c := new ChunkCell(Chunk(cfg.sessionID, b.sequence, b.offset, cfg.totalChunks, cfg.totalBytes, payload,
                               sum.low, sum.full, cfg.checksumType, flags, cfg.metadata));
    }

    /** The chunk shares no storage with this splitter, its pool or its buffers. */
    ghost predicate Apart(c: ChunkCell)
      reads c, `isDone, `currBuf, `nextBuf, pool`held
    {
      c.data !in Repr() && c.checksumBytes !in Repr()
    }

    /** The stream is over: both buffers go back to the pool, each once. */
    method Finish()
      requires PoolValid() && BuffersValid()
      modifies this`isDone, pool
      ensures pool.Valid() && pool.NoDuplicates() && isDone
      ensures old(pool.held) <= pool.held <= old(pool.held) + old(Buffers())
      ensures forall b :: b in old(Buffers()) && HasClass(pool.sizes, b.Length) ==> b in pool.held
    {
      isDone := true;
      var _ := pool.Put(currBuf);
      if nextBuf != null {
        var _ := pool.Put(nextBuf);
      }
    }

    /** The window slides over the block read ahead; the buffer just emitted is refilled. */
    method SlideWindow()
      requires cfg.chunkSize > 0 && pool.Valid() && pool.NoDuplicates() && BuffersValid() && nextBuf != null
      modifies this`currBuf, this`currLen, this`nextBuf, this`nextLen, this`readErr, reader, Buffers()
      ensures BuffersValid() && Buffers() <= old(Buffers())
      ensures Abs() == Slide(old(Abs()), cfg.chunkSize)
    {
      var temp := currBuf;
      ghost var next := nextBuf[..nextLen];
      currBuf, currLen := nextBuf, nextLen;
      if readErr.None? {
        var n, err := ReadFullInto(reader, temp, cfg.chunkSize);
        nextBuf, nextLen := temp, n;
        if err.Some? {
          readErr := if err == Some(EOF) || err == Some(UnexpectedEOF) then Some(EOF) else err;
        }
      } else {
        nextBuf, nextLen := null, 0;
      }
      assert currBuf[..currLen] == next;
    }

    /** What the splitter will emit after its first reads. */
    ghost function FutureAfterStart(): seq<Block>
      reads this, reader
    {
      if FirstReadFails() then BlocksOf(ReadFull(reader.Abs(), cfg.chunkSize).bytes, cfg.chunkSize, 0, 0)
      else future
    }

    /** InitLookahead: its buffers come from the pool or are new. */
    method PrimeBuffers() returns (error: Option<Error>)
      requires PoolValid() && nextBuf == null && nextLen == 0 && readErr == None && currBuf == null && !isDone
      modifies this`currBuf, this`currLen, this`nextBuf, this`nextLen, this`readErr, reader, pool, pool.held
      ensures PoolValid() && BuffersValid() && fresh(Repr() - old(Repr()))
      ensures (Abs(), error) == Prime(old(reader.Abs()), cfg.chunkSize)
    {
      error := InitLookahead();
    }

    /** The first call: prime the lookahead. */
    method Start() returns (error: Option<Error>)
      requires Valid() && !initialized
      modifies this, reader, pool, Repr()
      ensures Running() && fresh(Repr() - old(Repr()))
      ensures error == if old(FirstReadFails()) then Some(ReadFailed) else None
      ensures future == old(FutureAfterStart())
    {
      PrimeKeepsFuture(reader.Abs(), cfg.chunkSize);
      ghost var v := Prime(reader.Abs(), cfg.chunkSize).0;
      initialized, future := true, FutureAfterStart();
      assert future == FutureOf(v, cfg.chunkSize, 0, 0);
      error := PrimeBuffers();
    }

    /** The rest of Next when nothing was read ahead: emit the last block and hand the buffers back. */
    method EmitLast() returns (chunk: ChunkCell)
      requires Running() && nextLen == 0
      modifies this, pool
      ensures Valid() && initialized && isDone && Repr() <= old(Repr())
      ensures future == old(future)[1..] && chunk.Value() == ChunkOf(cfg, old(future)[0])
      ensures fresh(chunk) && fresh(chunk.data) && fresh(chunk.checksumBytes)
      ensures forall b :: b in old(Buffers()) && HasClass(pool.sizes, b.Length) ==> b in pool.held
    {
      CurrentIsLastBlock(Abs(), cfg.chunkSize, sequence, offset);
      future := [];
      if currLen == 0 {
        chunk := BuildChunk(Block(0, 0, [], true));
      } else {
        var payload := currBuf[..currLen];
        chunk := BuildChunk(Block(sequence, offset, payload, true));
        sequence := sequence + 1;
        offset := offset + currLen;
      }
      Finish();
    }

    /** Count the current block as emitted and slide. */
    method Advance()
      requires Running() && nextLen > 0
      modifies this, reader, Buffers()
      ensures Valid() && initialized && Repr() <= old(Repr()) && future == old(future)[1..]
    {
      CurrentIsFirstBlock(Abs(), cfg.chunkSize, sequence, offset);
      future := future[1..];
      sequence := sequence + 1;
      offset := offset + currLen;
      SlideWindow();
    }

    /** The rest of Next when a block was read ahead: emit the current block and slide. */
    method EmitMore() returns (chunk: ChunkCell)
      requires Running() && nextLen > 0
      modifies this, reader, Buffers()
      ensures Valid() && initialized && Repr() <= old(Repr())
      ensures future == old(future)[1..] && chunk.Value() == ChunkOf(cfg, old(future)[0])
      ensures fresh(chunk) && fresh(chunk.data) && fresh(chunk.checksumBytes)
    {
      CurrentIsFirstBlock(Abs(), cfg.chunkSize, sequence, offset);
      chunk := BuildChunk(Block(sequence, offset, currBuf[..currLen], false));
      Advance();
    }

    /** The lookahead is primed once. */
    method Prepare() returns (error: Option<Error>)
      requires Valid() && !isDone
      modifies this, reader, pool, Repr()
      ensures Running() && fresh(Repr() - old(Repr()))
      ensures error == if old(FirstReadFails()) then Some(ReadFailed) else None
      ensures future == old(FutureAfterStart())
    {
      error := None;
      if !initialized {
        error := Start();
      }
    }

    /** The rest of Next once the lookahead is primed. */
    method EmitBlock() returns (chunk: ChunkCell)
      requires Running()
      modifies this, reader, pool, Buffers()
      ensures Valid() && initialized && Repr() <= old(Repr())
      ensures future == old(future)[1..] && chunk.Value() == ChunkOf(cfg, old(future)[0])
      ensures fresh(chunk) && fresh(chunk.data) && fresh(chunk.checksumBytes)
    {
      if nextLen == 0 {
        chunk := EmitLast();
        return;
      }
      chunk := EmitMore();
    }

    /** New storage is neither this splitter's nor the pool's. */
    method Emit() returns (chunk: ChunkCell)
      requires Running()
      modifies this, reader, pool, Buffers()
      ensures Valid() && initialized && Repr() <= old(Repr())
      ensures future == old(future)[1..] && chunk.Value() == ChunkOf(cfg, old(future)[0])
      ensures fresh(chunk) && fresh(chunk.data) && fresh(chunk.checksumBytes) && Apart(chunk)
    {
      chunk := EmitBlock();
    }

    /**
     * Next. A finished splitter reports end of file. A fault in the very first block is reported, but
     * the splitter stays usable and then treats the bytes it got as the whole stream. Any other call
     * emits the first of the blocks to come.
     */
    method Next() returns (chunk: Option<ChunkCell>, error: Option<Error>)
      requires Valid()
      modifies this, reader, pool, Repr()
      ensures Valid() && fresh(Repr() - old(Repr()))
      ensures old(isDone) ==> chunk == None && error == Some(EOF) && isDone
      ensures !old(isDone) && old(FirstReadFails()) ==>
                && chunk == None && error == Some(ReadFailed) && !isDone && !FirstReadFails()
                && future == old(FutureAfterStart())
      ensures !old(isDone) && !old(FirstReadFails()) ==>
                && old(future) != [] && future == old(future)[1..]
                && chunk.Some? && error == None && !FirstReadFails()
                && chunk.value.Value() == ChunkOf(cfg, old(future)[0])
                && fresh(chunk.value) && fresh(chunk.value.data) && fresh(chunk.value.checksumBytes)
                && Apart(chunk.value)
    {
      if isDone {
        return None, Some(EOF);
      }
      error := Prepare();
      if error.Some? {
        return None, error;
      }
      var c := Emit();
      return Some(c), None;
    }

    /** The chunks are those of the blocks, each with storage of its own that nothing has written to since. */
    ghost predicate Emitted(chunks: seq<ChunkCell>, blocks: seq<Block>)
      reads this, pool`held, set c | c in chunks
      reads set c | c in chunks :: c.data, set c | c in chunks :: c.checksumBytes
    {
      && |chunks| == |blocks|
      && forall i :: 0 <= i < |chunks| ==> Apart(chunks[i]) && chunks[i].Value() == ChunkOf(cfg, blocks[i])
    }

    /** Next, while the chunks collected before keep their contents. */
    method NextKeeping(ghost chunks: seq<ChunkCell>, ghost blocks: seq<Block>)
      returns (chunk: Option<ChunkCell>, error: Option<Error>)
      requires Valid() && !isDone && Emitted(chunks, blocks)
      modifies this, reader, pool, Repr()
      ensures Valid() && fresh(Repr() - old(Repr())) && !FirstReadFails() && Emitted(chunks, blocks)
      ensures error == if old(FirstReadFails()) then Some(ReadFailed) else None
      ensures error.None? ==>
                && old(future) != [] && future == old(future)[1..]
                && chunk.Some? && fresh(chunk.value) && Apart(chunk.value)
                && chunk.value.Value() == ChunkOf(cfg, old(future)[0])
    {
      chunk, error := Next();
    }

    /** One turn of All. */
    method Collect(chunks: seq<ChunkCell>, ghost all: seq<Block>) returns (more: seq<ChunkCell>, error: Option<Error>)
      requires Valid() && !isDone && |chunks| < |all| && future == all[|chunks|..]
      requires Emitted(chunks, all[..|chunks|])
      modifies this, reader, pool, Repr()
      ensures Valid() && fresh(Repr() - old(Repr()))
      ensures error == if old(FirstReadFails()) then Some(ReadFailed) else None
      ensures error.None? ==>
                && !FirstReadFails() && |more| == |chunks| + 1 && future == all[|more|..]
                && chunks < more && fresh(more[|chunks|]) && Emitted(more, all[..|more|])
    {
      var c, e := NextKeeping(chunks, all[..|chunks|]);
      if e.Some? {
        return [], e;
      }
      return chunks + [c.value], None;
    }

    /**
     * All: every chunk up to the last one, or the fault of the first block. The chunks collected keep their
     * contents while the buffers they were copied from are refilled.
     */
    method All() returns (chunks: seq<ChunkCell>, error: Option<Error>)
      requires Valid()
      modifies this, reader, pool, Repr()
      ensures Valid()
      ensures !old(isDone) && old(FirstReadFails()) ==> chunks == [] && error == Some(ReadFailed)
      ensures old(isDone) || !old(FirstReadFails()) ==>
                Emitted(chunks, old(future)) && error == None && isDone
    {
      chunks := [];
      ghost var failing, all := !isDone && FirstReadFails(), future;
      while !isDone
        invariant Valid() && fresh(Repr() - old(Repr()))
        invariant failing <==> !isDone && FirstReadFails()
        invariant |chunks| <= |all| && future == all[|chunks|..]
        invariant Emitted(chunks, all[..|chunks|])
        decreases |future|
      {
        chunks, error := Collect(chunks, all);
        if error.Some? {
          return [], error;
        }
      }
      assert all[..|chunks|] == all;
      return chunks, None;
    }
  }
}
