/** StreamResponse and ReceiveRequest as loops over a splitter, an assembler and two byte streams. */
module TransportLoops {
  import opened Basics
  import opened Core
  import opened ChunkObject
  import opened Delivery
  import opened Codec
  import opened ChunkIO
  import AM = AssemblerModel
  import Assembler
  import opened Reassembly
  import opened Pool
  import opened Sources
  import opened Lookahead
  import Split = SplitModel
  import Splitter
  import opened Transport
  import opened EndToEnd

  /** The frames so far encode the first blocks and are what has been written. */
  ghost predicate Sent(cfg: Split.Config, blocks: seq<Split.Block>, frames: seq<Bytes>, start: Bytes, written: Bytes) {
    && |frames| <= |blocks|
    && Encodes(frames, Split.Chunks(cfg, blocks[..|frames|]))
    && written == start + Join(frames)
  }

  lemma SentSnoc(cfg: Split.Config, blocks: seq<Split.Block>, frames: seq<Bytes>, start: Bytes, written: Bytes,
                 f: Bytes)
    requires |frames| < |blocks| && Sent(cfg, blocks, frames, start, written)
    requires IsFrameOf(f, Split.ChunkOf(cfg, blocks[|frames|]))
    ensures Sent(cfg, blocks, frames + [f], start, written + f)
  {
    JoinSnoc(frames, f);
    Regroup(start, Join(frames), f);
    var n := |frames|;
    forall i | 0 <= i < n + 1
      ensures IsFrameOf((frames + [f])[i], Split.Chunks(cfg, blocks[..n + 1])[i])
    {
      if i < n {
        assert IsFrameOf(frames[i], Split.Chunks(cfg, blocks[..n])[i]);
      }
    }
  }

  /** The same, and behind them the beginning of a frame of the next block, left by a write that failed. */
  ghost predicate SentPart(cfg: Split.Config, blocks: seq<Split.Block>, frames: seq<Bytes>, part: Bytes, start: Bytes,
                           written: Bytes) {
    && |frames| <= |blocks|
    && Encodes(frames, Split.Chunks(cfg, blocks[..|frames|]))
    && written == start + Join(frames) + part
    && (part != [] ==> |frames| < |blocks| && BeginsFrame(part, Split.ChunkOf(cfg, blocks[|frames|])))
  }

  ghost predicate BeginsFrame(part: Bytes, c: Chunk) {
    exists f :: IsFrameOf(f, c) && part <= f
  }

  /** Write one chunk; on failure only a beginning of its frame may have been written. */
  method SendFrame(c: Chunk, w: ByteSink, ghost cfg: Split.Config, ghost blocks: seq<Split.Block>,
                   ghost frames: seq<Bytes>, ghost start: Bytes)
    returns (ok: bool, ghost frames': seq<Bytes>, ghost part: Bytes)
    requires |frames| < |blocks| && Sent(cfg, blocks, frames, start, w.written)
    requires c == Split.ChunkOf(cfg, blocks[|frames|])
    modifies w
    ensures ok ==> |frames'| == |frames| + 1 && Sent(cfg, blocks, frames', start, w.written)
    ensures !ok ==> frames' == frames && SentPart(cfg, blocks, frames, part, start, w.written)
    ensures w.reliable ==> ok
  {
    ghost var before := w.written;
    ghost var order;
    ok, order := EncodeBinary(c, w);
    ghost var f := Frame(c, order);
    assert IsFrameOf(f, c);
    if ok {
      SentSnoc(cfg, blocks, frames, start, before, f);
      frames', part := frames + [f], [];
    } else {
      frames', part := frames, w.written[|before|..];
      assert w.written == before + part;
      assert part == (before + f)[|before|..][..|part|] && (before + f)[|before|..] == f;
    }
  }

  /** Among the blocks still to be sent exactly the final one becomes a chunk flagged last. */
  ghost predicate LastOnlyAtEnd(cfg: Split.Config, blocks: seq<Split.Block>) {
    forall i :: 0 <= i < |blocks| ==> (IsLast(Split.ChunkOf(cfg, blocks[i])) <==> i == |blocks| - 1)
  }

  lemma SourceEndsOnce(cfg: Split.Config, src: Source)
    requires cfg.chunkSize > 0
    ensures LastOnlyAtEnd(cfg, FutureOfSource(src, cfg.chunkSize))
  {
    var k := cfg.chunkSize;
    var text := Harvest(src, k).got;
    var blocks := FutureOfSource(src, k);
    forall i | 0 <= i < |blocks|
      ensures IsLast(Split.ChunkOf(cfg, blocks[i])) <==> i == |blocks| - 1
    {
      Split.CutByIndex(text, k, 0, 0, i);
      if blocks[i].bytes == [] {
        Split.EmptyBlockIsAlone(text, k, i);
      }
    }
  }

  /** The result of the send loop from what was to be sent, the frames written, the context and the writer. */
  ghost predicate SendOutcome(blocks: seq<Split.Block>, frames: seq<Bytes>, faulty: bool, patience: Patience,
                              reliable: bool, error: Option<Error>) {
    if error == Some(WriteFailed) then
      !reliable && !faulty && |frames| < |blocks| && (patience.Some? ==> |frames| < patience.value)
    else if patience.Some? && patience.value == 0 then error == Some(Cancelled) && frames == []
    else if faulty then error == Some(ReadFailed) && frames == []
    else if patience.Some? && patience.value < |blocks| then error == Some(Cancelled) && |frames| == patience.value
    else error == None && |frames| == |blocks|
  }

  /** Writing a frame leaves the splitter it came from alone. */
  method SendBeside(s: Splitter.Splitter, c: Chunk, w: ByteSink, ghost blocks: seq<Split.Block>,
                    ghost frames: seq<Bytes>, ghost start: Bytes)
    returns (ok: bool, ghost frames': seq<Bytes>, ghost part: Bytes)
    requires s.Valid()
    requires |frames| < |blocks| && Sent(s.cfg, blocks, frames, start, w.written)
    requires c == Split.ChunkOf(s.cfg, blocks[|frames|])
    modifies w
    ensures s.Valid() && s.Repr() == old(s.Repr()) && s.future == old(s.future)
    ensures s.FirstReadFails() == old(s.FirstReadFails())
    ensures ok ==> |frames'| == |frames| + 1 && Sent(s.cfg, blocks, frames', start, w.written)
    ensures !ok ==> frames' == frames && SentPart(s.cfg, blocks, frames, part, start, w.written)
    ensures w.reliable ==> ok
  {
    ok, frames', part := SendFrame(c, w, s.cfg, blocks, frames, start);
  }

  /** One turn of the send loop: the next chunk, framed and written. */
  method SendNext(s: Splitter.Splitter, w: ByteSink, ghost blocks: seq<Split.Block>, ghost frames: seq<Bytes>,
                  ghost start: Bytes)
    returns (error: Option<Error>, last: bool, ghost frames': seq<Bytes>, ghost part: Bytes)
    requires s.Valid() && |frames| < |blocks| && s.future == blocks[|frames|..]
    requires Sent(s.cfg, blocks, frames, start, w.written) && LastOnlyAtEnd(s.cfg, blocks)
    modifies s, s.reader, s.pool, s.Repr(), w
    ensures s.Valid() && (forall b :: b in s.Repr() ==> b in old(s.Repr()) || fresh(b)) && !s.FirstReadFails()
    ensures error.None? ==> |frames'| == |frames| + 1 && s.future == blocks[|frames'|..]
                            && Sent(s.cfg, blocks, frames', start, w.written) && !old(s.FirstReadFails())
                            && (last <==> |frames'| == |blocks|)
    ensures error.Some? ==> frames' == frames && SentPart(s.cfg, blocks, frames, part, start, w.written)
    ensures error.Some? ==> if old(s.FirstReadFails()) then error == Some(ReadFailed) && part == []
                            else error == Some(WriteFailed) && !w.reliable
  {
    var c, e := s.Next();
    if e.Some? {
      assert start + Join(frames) + [] == start + Join(frames);
      return e, false, frames, [];
    }
    var chunk := c.value.Value();
    var ok;
    ok, frames', part := SendBeside(s, chunk, w, blocks, frames, start);
    return if ok then None else Some(WriteFailed), IsLast(chunk), frames', part;
  }

  /** The loop of StreamResponse, which is also that of StreamPost. */
  method SendAll(s: Splitter.Splitter, w: ByteSink, patience: Patience)
    returns (error: Option<Error>, ghost frames: seq<Bytes>, ghost part: Bytes)
    requires s.Valid() && s.future != [] && LastOnlyAtEnd(s.cfg, s.future)
    modifies s, s.reader, s.pool, s.Repr(), w
    ensures s.pool.Valid() && s.pool.NoDuplicates()
    ensures SentPart(s.cfg, old(s.future), frames, part, old(w.written), w.written)
    ensures error != Some(WriteFailed) ==> part == []
    ensures SendOutcome(old(s.future), frames, old(s.FirstReadFails()), patience, w.reliable, error)
  {
    ghost var blocks, faulty, start := s.future, s.FirstReadFails(), w.written;
    frames, part := [], [];
    var polls := 0;
    while true
      invariant s.Valid() && forall b :: b in s.Repr() ==> b in old(s.Repr()) || fresh(b)
      invariant |frames| < |blocks| && s.future == blocks[|frames|..]
      invariant Sent(s.cfg, blocks, frames, start, w.written)
      invariant faulty == s.FirstReadFails() && (faulty ==> frames == [])
      invariant polls == |frames| && (patience.Some? ==> polls <= patience.value)
      decreases |blocks| - |frames|
    {
      if patience.Some? && patience.value == polls {
        SentWhole(s.cfg, blocks, frames, start, w.written);
        return Some(Cancelled), frames, [];
      }
      var last: bool;
      error, last, frames, part := SendNext(s, w, blocks, frames, start);
      if error.Some? {
        return;
      }
      polls := polls + 1;
      if last {
        SentWhole(s.cfg, blocks, frames, start, w.written);
        return None, frames, [];
      }
    }
  }

  lemma SentWhole(cfg: Split.Config, blocks: seq<Split.Block>, frames: seq<Bytes>, start: Bytes, written: Bytes)
    requires Sent(cfg, blocks, frames, start, written)
    ensures SentPart(cfg, blocks, frames, [], start, written)
  {
    assert start + Join(frames) + [] == start + Join(frames);
  }

  /**
   * StreamResponse: one frame per chunk, in order. It ends early only when the context is cancelled before
   * the last frame, when the first block of the source cannot be read at all, or when a write fails, which
   * can leave a beginning of the next frame behind.
   */
  method StreamResponse(w: ByteSink, src: SourceReader, pool: TieredPool, cfg: Split.Config, patience: Patience)
    returns (error: Option<Error>, ghost frames: seq<Bytes>, ghost part: Bytes)
    requires cfg.chunkSize > 0 && pool.Valid() && pool.NoDuplicates() && |src.rest| <= MAX_INT64
    modifies w, src, pool, pool.held
    ensures pool.Valid() && pool.NoDuplicates()
    ensures SentPart(cfg, FutureOfSource(old(src.Abs()), cfg.chunkSize), frames, part, old(w.written), w.written)
    ensures error != Some(WriteFailed) ==> part == []
    ensures SendOutcome(FutureOfSource(old(src.Abs()), cfg.chunkSize), frames,
                        old(ReadFull(src.Abs(), cfg.chunkSize).error == Some(ReadFailed)), patience, w.reliable, error)
  {
    SourceEndsOnce(cfg, src.Abs());
    var s := new Splitter.Splitter(src, pool, cfg);
    error, frames, part := SendAll(s, w, patience);
  }

  /** What is left of the receiver's patience after some frames. */
  function Left(patience: Patience, polls: nat): Patience {
    if patience.Some? then Some(if polls <= patience.value then patience.value - polls else 0) else None
  }

  /** The decoded chunk is an object of its own. */
  method PassChunk(asm: Assembler.Assembler, c: Chunk) returns (error: Option<Error>)
    requires asm.Valid()
    modifies asm, asm.writer, asm.cumulativeHasher
    ensures asm.Valid() && AM.Reply(asm.Abs(), error) == AM.Step(asm.cfg, old(asm.Abs()), c)
  {
    var chunk := new ChunkCell(c);
    error := asm.WriteChunk(chunk);
  }

  /** One turn of the receive loop; `done` says that it was the last. */
  method ReceiveNext(body: ByteSource, asm: Assembler.Assembler, ghost patience: Patience)
    returns (done: bool, error: Option<Error>)
    requires patience != Some(0) && asm.Valid()
    modifies body, asm, asm.writer, asm.cumulativeHasher
    ensures asm.Valid()
    ensures var before := ReceiveFrames(asm.cfg, old(asm.Abs()), old(body.rest), patience, body.faulty);
            if done then before == AM.Reply(asm.Abs(), error)
            else before == ReceiveFrames(asm.cfg, asm.Abs(), body.rest, Less(patience), body.faulty)
                 && |body.rest| < old(|body.rest|)
  {
    DecodeConsumes(body.rest);
    var c := DecodeBinary(body);
    if c.Err? {
      if c.error == EOF {
        var completed := asm.IsCompleted();
        return true, if completed then None else Some(StreamIncomplete);
      }
      return true, Some(c.error);
    }
    error := PassChunk(asm, c.value);
    return error.Some? || IsLast(c.value), error;
  }

  lemma LeftStep(patience: Patience, polls: nat)
    requires patience.Some? ==> polls < patience.value
    ensures Left(patience, polls) != Some(0) && Less(Left(patience, polls)) == Left(patience, polls + 1)
  {
  }

  lemma NoneLeft(cfg: AM.Config, s: AM.State, bytes: Bytes, faulty: bool)
    ensures ReceiveFrames(cfg, s, bytes, Some(0), faulty) == AM.Reply(s, Some(Cancelled))
  {
  }

  /** The loop of ReceiveRequest: decode and assemble until the last-flagged frame or an error. */
  method ReceiveAll(body: ByteSource, asm: Assembler.Assembler, patience: Patience) returns (error: Option<Error>)
    requires asm.Valid()
    modifies body, asm, asm.writer, asm.cumulativeHasher
    ensures asm.Valid()
    ensures AM.Reply(asm.Abs(), error) == ReceiveFrames(asm.cfg, old(asm.Abs()), old(body.rest), patience, body.faulty)
  {
    var polls := 0;
    ghost var left := patience;
    ghost var whole := ReceiveFrames(asm.cfg, asm.Abs(), body.rest, patience, body.faulty);
    while true
      invariant asm.Valid() && left == Left(patience, polls) && (patience.Some? ==> polls <= patience.value)
      invariant ReceiveFrames(asm.cfg, asm.Abs(), body.rest, left, body.faulty) == whole
      decreases |body.rest|
    {
      if patience.Some? && patience.value == polls {
        NoneLeft(asm.cfg, asm.Abs(), body.rest, body.faulty);
        return Some(Cancelled);
      }
      LeftStep(patience, polls);
      var done;
      done, error := ReceiveNext(body, asm, left);
      if done {
        return;
      }
      polls, left := polls + 1, Less(left);
    }
  }

  /** ReceiveRequest and ReadStreamResponse: a new assembler in front of dst. */
  method ReceiveRequest(body: ByteSource, dst: Assembler.Destination, cfg: AM.Config, patience: Patience)
    returns (error: Option<Error>, ghost final: AM.State)
    modifies body, dst
    ensures AM.Reply(final, error)
         == ReceiveFrames(cfg, AM.Initial(old(dst.Abs())), old(body.rest), patience, body.faulty)
    ensures final.writer == dst.Abs()
  {
    var asm := new Assembler.Assembler(dst, cfg);
    error := ReceiveAll(body, asm, patience);
    final := asm.Abs();
  }

  /** The chunks a consumer receives from a channel, in order. */
  ghost function Values(chunks: seq<ChunkCell>): (values: seq<Chunk>)
    reads set c | c in chunks, set c | c in chunks :: c.data, set c | c in chunks :: c.checksumBytes
    ensures |values| == |chunks| && forall i :: 0 <= i < |chunks| ==> values[i] == chunks[i].Value()
  {
    seq(|chunks|, i requires 0 <= i < |chunks|
                    reads set c | c in chunks, set c | c in chunks :: c.data, set c | c in chunks :: c.checksumBytes
                  => chunks[i].Value())
  }

  /** One chunk from the channel; those still to come keep their contents. */
  method ConsumeNext(chunks: seq<ChunkCell>, i: nat, asm: Assembler.Assembler) returns (error: Option<Error>)
    requires asm.Valid() && i < |chunks|
    modifies asm, asm.writer, asm.cumulativeHasher
    ensures asm.Valid() && Values(chunks) == old(Values(chunks))
    ensures AM.Reply(asm.Abs(), error) == AM.Step(asm.cfg, old(asm.Abs()), old(chunks[i].Value()))
  {
    error := asm.WriteChunk(chunks[i]);
  }

  /**
   * The consuming goroutine of AsReader over the chunks its channel yields before it is closed, in whatever
   * order they were sent: no error closes the pipe cleanly, so the reader sees end of file.
   */
  method Consume(chunks: seq<ChunkCell>, asm: Assembler.Assembler) returns (error: Option<Error>)
    requires asm.Valid()
    modifies asm, asm.writer, asm.cumulativeHasher
    ensures asm.Valid()
    ensures AM.Reply(asm.Abs(), error) == PassOn(asm.cfg, old(asm.Abs()), Values(chunks))
  {
    ghost var values := Values(chunks);
    for i := 0 to |chunks|
      invariant asm.Valid() && Values(chunks) == values
      invariant PassOn(asm.cfg, asm.Abs(), values[i..]) == PassOn(asm.cfg, old(asm.Abs()), values)
    {
      assert values[i..][0] == chunks[i].Value() && values[i..][1..] == values[i + 1..];
      error := ConsumeNext(chunks, i, asm);
      if error.Some? || IsLast(chunks[i].Value()) {
        return;
      }
    }
    var done := asm.IsCompleted();
    return if done then None else Some(StreamIncomplete);
  }

  /** The wire as it would have gone on. */
  lemma WholeWire(sc: Split.Config, text: Bytes, frames: seq<Bytes>, part: Bytes) returns (full: seq<Bytes>)
    requires sc.chunkSize > 0 && |text| <= MAX_INT64
    requires SentPart(sc, Split.Cut(text, sc.chunkSize, 0, 0), frames, part, [], Join(frames) + part)
    ensures Encodes(full, Emitted(sc, text)) && frames <= full
    ensures part != [] ==> |frames| < |full| && part <= full[|frames|]
  {
    var blocks, n := Split.Cut(text, sc.chunkSize, 0, 0), |frames|;
    FirstChunks(sc, blocks, n);
    if part == [] {
      full := CompleteFrames(frames, Emitted(sc, text));
    } else {
      var f :| IsFrameOf(f, Split.ChunkOf(sc, blocks[n])) && part <= f;
      full := OneFrameMore(Emitted(sc, text), frames, f);
    }
  }

  lemma OneFrameMore(chunks: seq<Chunk>, frames: seq<Bytes>, f: Bytes) returns (full: seq<Bytes>)
    requires |frames| < |chunks| && Encodes(frames, chunks[..|frames|]) && IsFrameOf(f, chunks[|frames|])
    ensures Encodes(full, chunks) && frames <= full && |frames| < |full| && full[|frames|] == f
  {
    var n := |frames|;
    forall i | 0 <= i < n + 1
      ensures IsFrameOf((frames + [f])[i], chunks[..n + 1][i])
    {
      if i < n {
        assert IsFrameOf(frames[i], chunks[..n][i]);
      }
    }
    full := CompleteFrames(frames + [f], chunks);
  }

  lemma WithinWhole(full: seq<Bytes>, frames: seq<Bytes>, part: Bytes)
    requires frames <= full && (part != [] ==> |frames| < |full| && part <= full[|frames|])
    ensures Join(frames) + part <= Join(full) && full[..|frames|] == frames
  {
    var n := |frames|;
    StopsBehind(frames, full);
    if part == [] {
      assert Join(frames) + [] == Join(frames);
    } else {
      JoinStep(full, n);
      JoinSplit(full, n + 1);
      LongerPrefix(Join(frames), part, full[n], Join(full[n + 1..]));
    }
  }

  lemma LongerPrefix(a: Bytes, part: Bytes, f: Bytes, rest: Bytes)
    requires part <= f
    ensures a + part <= a + f + rest
  {
  }

  /** q of n frames were looked at, and the destination of a receiver whose writes succeed holds what they carry. */
  ghost predicate Arrived(r: AM.Reply, script: seq<AM.Outcome>, n: nat, q: nat, got: Bytes) {
    && r.state.writer.contents <= got
    && (AlwaysAccepts(script) ==> r.error != Some(WriteFailed))
    && (r.error != Some(WriteFailed) ==> r.state.writer.contents == got && (r.error == None <==> q == n))
    && (r.error == None ==> r.state.completed)
  }

  lemma ReceivedArrived(r: AM.Reply, script: seq<AM.Outcome>, n: nat, q: nat, atEnd: Error, patience: Patience,
                        got: Bytes)
    requires Received(r, script, n, q, atEnd, patience, got)
    ensures Arrived(r, script, n, q, got)
  {
  }

  lemma WireArrives(sc: Split.Config, ac: AM.Config, script: seq<AM.Outcome>, text: Bytes, full: seq<Bytes>,
                    wire: Bytes, patience: Patience, faulty: bool)
    returns (m: nat, part: Bytes)
    requires Compatible(sc, ac) && WireReady(sc) && |text| <= MAX_INT64
    requires Encodes(full, Emitted(sc, text)) && wire <= Join(full)
    ensures EndsAt(full, wire, m, part)
    ensures var r, n, q := ReceiveFrames(ac, Fresh(script), wire, patience, faulty), |full|, Looked(m, patience);
            && Arrived(r, script, n, q, FirstBytes(text, q, sc.chunkSize))
            && (r.error == None ==> r.state.writer.contents == text)
  {
    m, part := SourceToSink(sc, ac, script, text, full, wire, patience, faulty);
    var r, q := ReceiveFrames(ac, Fresh(script), wire, patience, faulty), Looked(m, patience);
    ReceivedArrived(r, script, |full|, q, CutAnswer(faulty, CleanEnd(full, Emitted(sc, text), m, part)), patience,
                    FirstBytes(text, q, sc.chunkSize));
  }

  /** What the receiver makes of a wire that ends anywhere, for the blocks of a text. */
  lemma WireReceived(sc: Split.Config, ac: AM.Config, script: seq<AM.Outcome>, text: Bytes, frames: seq<Bytes>,
                     part: Bytes, patience: Patience, faulty: bool)
    returns (m: nat)
    requires Compatible(sc, ac) && WireReady(sc) && |text| <= MAX_INT64
    requires SentPart(sc, Split.Cut(text, sc.chunkSize, 0, 0), frames, part, [], Join(frames) + part)
    ensures |frames| <= m <= |frames| + 1 && (part == [] ==> m == |frames|)
    ensures var r, q := ReceiveFrames(ac, Fresh(script), Join(frames) + part, patience, faulty), Looked(m, patience);
            && Arrived(r, script, |Emitted(sc, text)|, q, FirstBytes(text, q, sc.chunkSize))
            && (r.error == None ==> r.state.writer.contents == text)
  {
    var full := WholeWire(sc, text, frames, part);
    WithinWhole(full, frames, part);
    var rest;
    m, rest := WireArrives(sc, ac, script, text, full, Join(frames) + part, patience, faulty);
    FramesNotEmpty(full, Emitted(sc, text));
    PartEnd(full, |frames|, part, m, rest);
  }

  /**
   * StreamResponse into ReceiveRequest. Whatever the reader does, whenever sender or receiver is cancelled
   * and wherever a write of the sender fails or the connection breaks, a receiver whose writes succeed has
   * exactly the bytes of the frames that arrived whole and that it looked at; any receiver has a beginning of
   * them. It reports success exactly when these are all frames and no write fails, and the output is then the
   * whole source exactly when no answer of the reader lost bytes.
   */
  lemma ResponseReceived(sc: Split.Config, ac: AM.Config, script: seq<AM.Outcome>, src: Source, frames: seq<Bytes>,
                         part: Bytes, wire: Bytes, patience: Patience, faulty: bool)
    returns (m: nat)
    requires Compatible(sc, ac) && WireReady(sc) && |src.rest| <= MAX_INT64
    requires SentPart(sc, FutureOfSource(src, sc.chunkSize), frames, part, [], wire)
    ensures |frames| <= m <= |frames| + 1 && (part == [] ==> m == |frames|)
    ensures var r, k, q := ReceiveFrames(ac, Fresh(script), wire, patience, faulty), sc.chunkSize, Looked(m, patience);
            && Arrived(r, script, |FutureOfSource(src, k)|, q, FirstBytes(Harvest(src, k).got, q, k))
            && FirstBytes(Harvest(src, k).got, q, k) <= src.rest
            && (r.error == None ==>
                  (r.state.writer.contents == src.rest <==> !Loses(src.script, |src.rest|, k, k)))
  {
    var text := Harvest(src, sc.chunkSize).got;
    HarvestFacts(src, sc.chunkSize);
    HarvestWholeIff(src, sc.chunkSize);
    assert Split.Fits(text, 0, 0);
    assert [] + Join(frames) == Join(frames);
    m := WireReceived(sc, ac, script, text, frames, part, patience, faulty);
  }

  /** Behind n whole frames, a beginning of the next one counts only if it is all of it. */
  lemma PartEnd(full: seq<Bytes>, n: nat, part: Bytes, m: nat, rest: Bytes)
    requires n <= |full| && (forall i :: 0 <= i < |full| ==> full[i] != [])
    requires part != [] ==> n < |full| && part <= full[n]
    requires EndsAt(full, Join(full[..n]) + part, m, rest)
    ensures n <= m <= n + 1 && (part == [] ==> m == n)
  {
    if part == [] {
      assert Join(full[..n]) + [] == Join(full[..n]);
      WholeFramesEnd(full, n, m, rest);
    } else if m < n {
      MoreFramesLonger(full, m, n, rest);
      assert false;
    } else if n + 1 < m {
      JoinStep(full, n);
      MoreFramesLonger(full, n + 1, m, []);
      assert false;
    }
  }

  lemma JoinStep(frames: seq<Bytes>, n: nat)
    requires n < |frames|
    ensures Join(frames[..n + 1]) == Join(frames[..n]) + frames[n]
  {
    assert frames[..n + 1] == frames[..n] + [frames[n]];
    JoinSnoc(frames[..n], frames[n]);
  }

  lemma FirstChunks(cfg: Split.Config, blocks: seq<Split.Block>, m: nat)
    requires m <= |blocks|
    ensures Split.Chunks(cfg, blocks[..m]) == Split.Chunks(cfg, blocks)[..m]
  {
  }
}
