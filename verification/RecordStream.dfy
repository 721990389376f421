/** Record chunks through the assembler: they are a stream like any other, and NDJSON forgets the batches. */
module RecordStream {
  import opened Basics
  import opened BigEndian
  import opened Core
  import opened Checksum
  import Crc32c
  import opened AssemblerModel
  import opened Reassembly
  import opened Rec = RecordModel

  /** The streamer's hasher is the one of its checksum type, and the receiver expects its session, or any. */
  ghost predicate Fits(cfg: Rec.Config, ac: AssemblerModel.Config) {
    && (ac.sessionID == [] || cfg.sessionID == [] || cfg.sessionID == ac.sessionID)
    && forall d :: cfg.hasher(d) == Compute(ac.sha, cfg.checksumType, d)
  }

  /** The checksum of a record chunk is that of its payload, in the form of its type, and verifies. */
  lemma RecordChecksum(cfg: Rec.Config, ac: AssemblerModel.Config, payload: Bytes, count: nat, last: bool,
                       sequence: int64, offset: int64)
    requires Fits(cfg, ac)
    ensures var c := BatchChunk(cfg, payload, count, last, sequence, offset);
            && Verify(ac.sha, c)
            && (cfg.checksumType == 1 ==>
                  c.checksum == Crc32c.CRC32(payload) == GetUint(c.checksumBytes) && |c.checksumBytes| == 4)
            && (cfg.checksumType == 2 ==> c.checksumBytes == ac.sha(payload))
            && (cfg.checksumType != 1 && cfg.checksumType != 2 ==> c.checksum == 0 && c.checksumBytes == [])
  {
    ComputedChecksumVerifies(ac.sha, BatchChunk(cfg, payload, count, last, sequence, offset));
    Crc32BytesAgree(ac.sha, payload);
  }

  /** What the batches become, one payload each. */
  ghost function BatchPayloads<T>(cfg: Rec.Config, rc: RecordCodec<T>, bs: seq<seq<T>>): seq<Bytes>
    requires forall b :: b in bs ==> EncodePayload(cfg, rc, b).Some?
  {
    seq(|bs|, i requires 0 <= i < |bs| => EncodePayload(cfg, rc, bs[i]).value)
  }

  /** Chunk i carries batch i, under number sequence + i. */
  lemma {:induction false} CarriedChunk<T>(cfg: Rec.Config, rc: RecordCodec<T>, bs: seq<seq<T>>, chunks: seq<Chunk>,
                                           sequence: int64, offset: int64, i: nat) returns (at: int64)
    requires Carries(cfg, rc, bs, chunks, sequence, offset, true) && i < |bs|
    requires 0 <= sequence && sequence + |bs| <= MAX_INT64
    ensures |chunks| == |bs| && EncodePayload(cfg, rc, bs[i]).Some?
    ensures chunks[i]
         == BatchChunk(cfg, EncodePayload(cfg, rc, bs[i]).value, |bs[i]|, i == |bs| - 1, sequence + i, at)
    decreases |bs|
  {
    var next := Wrap64(offset + |EncodePayload(cfg, rc, bs[0]).value|);
    WrapInRange(sequence + 1);
    at := offset;
    if |bs| > 1 {
      var later := CarriedChunk(cfg, rc, bs[1..], chunks[1..], sequence + 1, next, if i > 0 then i - 1 else 0);
      at := if i > 0 then later else offset;
    }
  }

  lemma RecordStreamChunk<T>(cfg: Rec.Config, rc: RecordCodec<T>, ac: AssemblerModel.Config, bs: seq<seq<T>>,
                             chunks: seq<Chunk>, i: nat)
    requires Fits(cfg, ac) && Carries(cfg, rc, bs, chunks, 0, 0, true) && i < |bs| <= MAX_INT64
    ensures |chunks| == |bs| && IsStreamChunk(ac, chunks[i], i, |bs|)
    ensures EncodePayload(cfg, rc, bs[i]).Some?
    ensures Payload(ac, chunks[i]).0 == EncodePayload(cfg, rc, bs[i])
  {
    var at := CarriedChunk(cfg, rc, bs, chunks, 0, 0, i);
    var p := EncodePayload(cfg, rc, bs[i]).value;
    RecordChecksum(cfg, ac, p, |bs[i]|, i == |bs| - 1, i, at);
  }

  /** The chunks of all batches, numbered from 0 and closed, are a stream whose text is the joined payloads. */
  lemma RecordsAreStream<T>(cfg: Rec.Config, rc: RecordCodec<T>, ac: AssemblerModel.Config, bs: seq<seq<T>>,
                            chunks: seq<Chunk>)
    requires Fits(cfg, ac) && Carries(cfg, rc, bs, chunks, 0, 0, true) && 0 < |bs| <= MAX_INT64
    ensures IsStream(ac, chunks) && forall b :: b in bs ==> EncodePayload(cfg, rc, b).Some?
    ensures Whole(ac, chunks) == Flatten(BatchPayloads(cfg, rc, bs))
  {
    forall i | 0 <= i < |bs|
      ensures |chunks| == |bs| && IsStreamChunk(ac, chunks[i], i, |bs|)
      ensures EncodePayload(cfg, rc, bs[i]).Some? && Payload(ac, chunks[i]).0 == EncodePayload(cfg, rc, bs[i])
    {
      RecordStreamChunk(cfg, rc, ac, bs, chunks, i);
    }
    RecordStreamChunk(cfg, rc, ac, bs, chunks, 0);
    assert Payloads(ac, chunks) == BatchPayloads(cfg, rc, bs);
  }

  // ------------------------------------------------------------------ NDJSON

  /** Lines of more records are more lines: each record is its text and a line feed. */
  lemma {:induction false} LinesConcat<T>(rc: RecordCodec<T>, a: seq<T>, b: seq<T>)
    ensures EncodeLines(rc, a + b)
         == if EncodeLines(rc, a).Some? && EncodeLines(rc, b).Some?
            then Some(EncodeLines(rc, a).value + EncodeLines(rc, b).value) else None
    decreases |b|
  {
    if b == [] {
      assert a + b == a;
      assert EncodeLines(rc, a).Some? ==> EncodeLines(rc, a).value + [] == EncodeLines(rc, a).value;
    } else {
      var front, x := b[..|b| - 1], b[|b| - 1];
      LinesConcat(rc, a, front);
      assert (a + b)[..|a + b| - 1] == a + front && (a + b)[|a + b| - 1] == x;
      if EncodeLines(rc, a).Some? && EncodeLines(rc, b).Some? {
        var p, q, l := EncodeLines(rc, a).value, EncodeLines(rc, front).value, rc.marshal(x).value;
        assert p + q + l + [NEWLINE] == p + (q + l + [NEWLINE]);
      }
    }
  }

  lemma OneLine<T>(rc: RecordCodec<T>, x: T)
    ensures EncodeLines(rc, [x]) == if rc.marshal(x).Some? then Some(rc.marshal(x).value + [10]) else None
  {
    assert [x][..0] == [];
    assert EncodeLines(rc, []) == Some([]);
    if rc.marshal(x).Some? {
      assert [] + rc.marshal(x).value == rc.marshal(x).value;
    }
  }

  /** Joined, the batches' lines are the lines of all records: the cutting leaves no trace in the text. */
  lemma {:induction false} JoinedLines<T>(cfg: Rec.Config, rc: RecordCodec<T>, bs: seq<seq<T>>)
    requires cfg.format == NDJSON && forall b :: b in bs ==> EncodePayload(cfg, rc, b).Some?
    ensures EncodeLines(rc, Concat(bs)) == Some(Flatten(BatchPayloads(cfg, rc, bs)))
    decreases |bs|
  {
    if bs == [] {
      assert BatchPayloads(cfg, rc, bs) == [];
    } else {
      assert bs == [bs[0]] + bs[1..];
      var ps, later := BatchPayloads(cfg, rc, bs), BatchPayloads(cfg, rc, bs[1..]);
      JoinedLines(cfg, rc, bs[1..]);
      LinesConcat(rc, bs[0], Concat(bs[1..]));
      assert ps == [ps[0]] + later;
      FlattenCons(ps[0], later);
    }
  }

  /** The lines of some encoded records decode to those records. */
  lemma LinesDecode<T(!new)>(rc: RecordCodec<T>, items: seq<T>)
    requires Lawful(rc) && EncodeLines(rc, items).Some?
    ensures DecodeLines(rc, Lines(EncodeLines(rc, items).value)) == Some(items)
  {
    LinesRoundTrip(rc, items);
    var ls := Lines(EncodeLines(rc, items).value);
    assert ls == ls[..|ls| - 1] + [[]];
    DecodeLinesSnoc(rc, ls[..|ls| - 1], []);
  }

  /** Slice or channel: the chunks are those of batches that hold the records in order. */
  ghost predicate Streamed<T>(cfg: Rec.Config, rc: RecordCodec<T>, items: seq<T>, chunks: seq<Chunk>)
    requires cfg.batchSize > 0 && cfg.maxBatchBytes > 0
  {
    || Carries(cfg, rc, SliceBatches(items, cfg.batchSize), chunks, 0, 0, true)
    || Carries(cfg, rc, ChannelBatches(items, ChannelBatchSize(cfg)), chunks, 0, 0, true)
  }

  lemma {:induction false} SliceBatchCount<T>(items: seq<T>, size: nat)
    requires size > 0
    ensures |SliceBatches(items, size)| <= |items| + 1
    decreases |items|
  {
    if |items| > size {
      SliceBatchCount(items[size..], size);
    }
  }

  lemma {:induction false} ChannelBatchBound<T>(items: seq<T>, size: nat)
    requires size > 0
    ensures 0 < |ChannelBatches(items, size)| <= |items| + 1
    decreases |items|
  {
    if |items| >= size {
      ChannelBatchBound(items[size..], size);
    }
  }

  lemma StreamedBatches<T>(cfg: Rec.Config, rc: RecordCodec<T>, items: seq<T>, chunks: seq<Chunk>)
    returns (bs: seq<seq<T>>)
    requires cfg.batchSize > 0 && cfg.maxBatchBytes > 0 && Streamed(cfg, rc, items, chunks)
    ensures Concat(bs) == items && 0 < |bs| <= |items| + 1 && Carries(cfg, rc, bs, chunks, 0, 0, true)
  {
    if Carries(cfg, rc, SliceBatches(items, cfg.batchSize), chunks, 0, 0, true) {
      bs := SliceBatches(items, cfg.batchSize);
      SliceBatchesKeepAll(items, cfg.batchSize);
      SliceBatchCount(items, cfg.batchSize);
    } else {
      bs := ChannelBatches(items, ChannelBatchSize(cfg));
      ChannelBatchesKeepAll(items, ChannelBatchSize(cfg));
      ChannelBatchBound(items, ChannelBatchSize(cfg));
    }
  }

  /**
   * Records streamed as NDJSON, however they were batched, and their chunks delivered in any order within the
   * reorder window: the assembler writes the lines of all records, in order, and these decode to the records.
   */
  lemma RecordsArrive<T(!new)>(cfg: Rec.Config, rc: RecordCodec<T>, ac: AssemblerModel.Config, items: seq<T>,
                               chunks: seq<Chunk>, order: seq<nat>, calls: seq<Chunk>)
    requires Lawful(rc) && cfg.format == Ascii("ndjson") && cfg.batchSize > 0 && cfg.maxBatchBytes > 0
    requires Fits(cfg, ac) && |items| < MAX_INT64 && Streamed(cfg, rc, items, chunks)
    requires Delivers(chunks, order, calls) && WithinWindow(ac, order)
    ensures var s := Run(ac, START, calls);
            && NeverRefused(ac, calls) && s.completed
            && EncodeLines(rc, items) == Some(s.writer.contents)
            && DecodeLines(rc, Lines(s.writer.contents)) == Some(items)
  {
    Words();
    var bs := StreamedBatches(cfg, rc, items, chunks);
    RecordsAreStream(cfg, rc, ac, bs, chunks);
    WindowTheorem(ac, chunks, order, calls);
    JoinedLines(cfg, rc, bs);
    LinesDecode(rc, items);
  }
}
