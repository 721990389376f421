/** Typed records in chunks (pkg/record/record.go): batching, line framing and decoding, over any record codec. */
module RecordModel {
  import opened Basics
  import opened Core
  import opened Checksum

  const NEWLINE: byte := 10
  const NDJSON: Bytes := [110, 100, 106, 115, 111, 110]
  const FORMAT_KEY: Bytes := [102, 111, 114, 109, 97, 116]
  const COUNT_KEY: Bytes := [114, 101, 99, 111, 114, 100, 95, 99, 111, 117, 110, 116]

  /** The bytes of an ASCII string. */
  function Ascii(s: string): Bytes {
    seq(|s|, i requires 0 <= i < |s| => if s[i] < 128 as char then s[i] as int else 0)
  }

  /** The words that travel in the headers, and the line feed. */
  lemma Words()
    ensures NDJSON == Ascii("ndjson") && FORMAT_KEY == Ascii("format") && COUNT_KEY == Ascii("record_count")
    ensures NEWLINE == 0x0A
  {
  }

  /** json.Marshal and json.Unmarshal for one record and for a slice, and bytes.TrimSpace. */
  datatype RecordCodec<!T> = RecordCodec(
    marshal: T -> Option<Bytes>,
    unmarshal: Bytes -> Option<T>,
    marshalAll: seq<T> -> Option<Bytes>,
    unmarshalAll: Bytes -> Option<seq<T>>,
    trim: Bytes -> Bytes)

  /** Encodings of records are non-empty, trimmed, on one line and invertible; so are, as a whole, those of slices. */
  ghost predicate Lawful<T(!new)>(rc: RecordCodec<T>) {
    && rc.trim([]) == []
    && (forall x :: rc.marshal(x).Some? ==>
          var b := rc.marshal(x).value;
          b != [] && NEWLINE !in b && rc.trim(b) == b && rc.unmarshal(b) == Some(x))
    && (forall xs :: rc.marshalAll(xs).Some? ==>
          rc.marshalAll(xs).value != [] && rc.unmarshalAll(rc.marshalAll(xs).value) == Some(xs))
  }

  datatype Config = Config(
    batchSize: nat,
    maxBatchBytes: nat,
    format: Bytes,
    sessionID: Bytes,
    checksumType: byte,
    hasher: Bytes -> Sum,
    metadata: map<Bytes, Bytes>)

  // --------------------------------------------------------------- encoding

  function EncodeLines<T>(rc: RecordCodec<T>, batch: seq<T>): Option<Bytes>
    decreases |batch|
  {
    if batch == [] then Some([])
    else
      match (EncodeLines(rc, batch[..|batch| - 1]), rc.marshal(batch[|batch| - 1]))
      case (Some(before), Some(line)) => Some(before + line + [NEWLINE])
      case _ => None
  }

  function EncodePayload<T>(cfg: Config, rc: RecordCodec<T>, batch: seq<T>): Option<Bytes> {
    if cfg.format == NDJSON then EncodeLines(rc, batch) else rc.marshalAll(batch)
  }

  /** strconv.Itoa for a count. */
  function Decimal(n: nat): Bytes {
    if n < 10 then [48 + n] else Decimal(n / 10) + [48 + n % 10]
  }

  function Meta(cfg: Config, count: nat): map<Bytes, Bytes> {
    cfg.metadata[FORMAT_KEY := cfg.format][COUNT_KEY := Decimal(count)]
  }

  function BatchChunk(cfg: Config, payload: Bytes, count: nat, last: bool, sequence: int64, offset: int64): Chunk {
    var sum := cfg.hasher(payload);
    Chunk(cfg.sessionID, sequence, offset, -1, -1, payload, sum.low, sum.full, cfg.checksumType,
          if last then FLAG_IS_LAST else 0, Meta(cfg, count))
  }

  function FromDecimal(digits: Bytes): int {
    if digits == [] then 0
    else
      var digit: int := digits[|digits| - 1];
      10 * FromDecimal(digits[..|digits| - 1]) + digit - 48
  }

  lemma {:induction false} DecimalRoundTrip(n: nat)
    ensures FromDecimal(Decimal(n)) == n
    ensures forall d :: d in Decimal(n) ==> 48 <= d <= 57
    ensures Decimal(n) != [] && (Decimal(n)[0] == 48 ==> n == 0)
  {
    if n >= 10 {
      DecimalRoundTrip(n / 10);
      assert Decimal(n)[..|Decimal(n)| - 1] == Decimal(n / 10);
    } else {
      assert FromDecimal([48 + n][..0]) == 0;
    }
  }

  /** A record chunk names its format and its number of records, and keeps every other header of the configuration. */
  lemma RecordHeaders(cfg: Config, payload: Bytes, count: nat, last: bool, sequence: int64, offset: int64, key: Bytes)
    ensures var m, f, n := BatchChunk(cfg, payload, count, last, sequence, offset).metadata, Ascii("format"),
                           Ascii("record_count");
            && f in m && m[f] == cfg.format
            && n in m && FromDecimal(m[n]) == count
            && (key != f && key != n ==>
                  (key in m <==> key in cfg.metadata) && (key in m ==> m[key] == cfg.metadata[key]))
  {
    Words();
    DecimalRoundTrip(count);
    assert |FORMAT_KEY| != |COUNT_KEY|;
  }

  /**
   * The other fields of a record chunk: the payload, the session, the position, both totals unknown, and
   * what the hasher makes of that payload.
   */
  lemma RecordFields(cfg: Config, payload: Bytes, count: nat, last: bool, sequence: int64, offset: int64)
    ensures var c := BatchChunk(cfg, payload, count, last, sequence, offset);
            && c.data == payload && c.sessionID == cfg.sessionID
            && c.sequence == sequence && c.offset == offset && c.totalChunks == -1 && c.totalBytes == -1
            && c.flags == (if last then 1 else 0) && c.checksumType == cfg.checksumType
            && c.checksum == cfg.hasher(payload).low && c.checksumBytes == cfg.hasher(payload).full
  {
  }

  // --------------------------------------------------------------- decoding

  /** bytes.Split at newlines: one piece more than there are newlines. */
  function Lines(data: Bytes): (ls: seq<Bytes>)
    ensures |ls| > 0
    decreases |data|
  {
    if data == [] then [[]]
    else
      var before := Lines(data[..|data| - 1]);
      var b := data[|data| - 1];
      if b == NEWLINE then before + [[]]
      else before[..|before| - 1] + [before[|before| - 1] + [b]]
  }

  /** The lines with `more` added to the last of them. */
  function Glue(lines: seq<Bytes>, more: Bytes): (r: seq<Bytes>)
    requires |lines| > 0
    ensures |r| == |lines|
  {
    lines[..|lines| - 1] + [lines[|lines| - 1] + more]
  }

  function JoinLines(ls: seq<Bytes>): Bytes
    requires |ls| > 0
    decreases |ls|
  {
    if |ls| == 1 then ls[0] else JoinLines(ls[..|ls| - 1]) + [10] + ls[|ls| - 1]
  }

  lemma JoinSnoc(ls: seq<Bytes>, l: Bytes)
    requires |ls| > 0
    ensures JoinLines(ls + [l]) == JoinLines(ls) + [10] + l
  {
    assert (ls + [l])[..|ls|] == ls;
  }

  lemma JoinGlued(front: seq<Bytes>, last: Bytes, b: byte)
    ensures JoinLines(front + [last + [b]]) == JoinLines(front + [last]) + [b]
  {
    if front == [] {
      assert front + [last] == [last] && front + [last + [b]] == [last + [b]];
    } else {
      var before := JoinLines(front) + [10];
      JoinSnoc(front, last);
      JoinSnoc(front, last + [b]);
      assert before + (last + [b]) == before + last + [b];
    }
  }

  /** Joined by line feeds, the lines are the data. */
  lemma {:induction false} LinesJoin(data: Bytes)
    ensures JoinLines(Lines(data)) == data
    decreases |data|
  {
    if data != [] {
      var front, b := data[..|data| - 1], data[|data| - 1];
      LinesJoin(front);
      assert data == front + [b];
      if b == NEWLINE {
        JoinSnoc(Lines(front), []);
      } else {
        var ls := Lines(front);
        JoinGlued(ls[..|ls| - 1], ls[|ls| - 1], b);
        assert ls[..|ls| - 1] + [ls[|ls| - 1]] == ls;
      }
    }
  }

  /** And none of them holds a line feed: they are what splitting at line feeds has to give. */
  lemma {:induction false} LinesAreSplit(data: Bytes)
    ensures JoinLines(Lines(data)) == data && forall l :: l in Lines(data) ==> 10 !in l
    decreases |data|
  {
    LinesJoin(data);
    if data != [] {
      var ls, b := Lines(data[..|data| - 1]), data[|data| - 1];
      LinesAreSplit(data[..|data| - 1]);
      assert ls[|ls| - 1] in ls;
    }
  }

  /** The lines one by one, blank ones skipped; the first bad line spoils the chunk. */
  function DecodeLines<T>(rc: RecordCodec<T>, lines: seq<Bytes>): Option<seq<T>>
    decreases |lines|
  {
    if lines == [] then Some([])
    else
      match DecodeLines(rc, lines[..|lines| - 1])
      case None => None
      case Some(items) =>
        var line := rc.trim(lines[|lines| - 1]);
        if line == [] then Some(items)
        else
          match rc.unmarshal(line)
          case None => None
          case Some(x) => Some(items + [x])
  }

  /** A missing or empty format entry means line framing. */
  function FormatOf(c: Chunk): Bytes {
    if FORMAT_KEY in c.metadata && c.metadata[FORMAT_KEY] != [] then c.metadata[FORMAT_KEY] else NDJSON
  }

  function Decode<T>(rc: RecordCodec<T>, c: Chunk): Option<seq<T>> {
    if c.data == [] then Some([])
    else if FormatOf(c) == NDJSON then DecodeLines(rc, Lines(c.data))
    else rc.unmarshalAll(c.data)
  }

  /** Line by line, in order: a line gives its record, a blank one nothing, and one that does not read spoils all. */
  lemma {:induction false} DecodeInOrder<T>(rc: RecordCodec<T>, a: seq<Bytes>, b: seq<Bytes>)
    ensures DecodeLines(rc, a + b)
         == if DecodeLines(rc, a).Some? && DecodeLines(rc, b).Some?
            then Some(DecodeLines(rc, a).value + DecodeLines(rc, b).value) else None
    decreases |b|
  {
    if b == [] {
      assert a + b == a;
      assert DecodeLines(rc, a).Some? ==> DecodeLines(rc, a).value + [] == DecodeLines(rc, a).value;
    } else {
      var front, l := b[..|b| - 1], b[|b| - 1];
      DecodeInOrder(rc, a, front);
      assert (a + b)[..|a + b| - 1] == a + front && (a + b)[|a + b| - 1] == l;
      if DecodeLines(rc, a).Some? && DecodeLines(rc, b).Some? && rc.trim(l) != [] {
        var p, q, x := DecodeLines(rc, a).value, DecodeLines(rc, front).value, rc.unmarshal(rc.trim(l)).value;
        assert p + q + [x] == p + (q + [x]);
      }
    }
  }

  lemma DecodeSingle<T>(rc: RecordCodec<T>, line: Bytes)
    ensures DecodeLines(rc, [line])
         == if rc.trim(line) == [] then Some([])
            else match rc.unmarshal(rc.trim(line)) case None => None case Some(x) => Some([x])
  {
    var lines := [line];
    assert lines[..0] == [];
    var none: seq<T> := [];
    assert DecodeLines(rc, lines[..0]) == Some(none);
    if rc.unmarshal(rc.trim(line)).Some? {
      assert none + [rc.unmarshal(rc.trim(line)).value] == [rc.unmarshal(rc.trim(line)).value];
    }
  }

  /** Only a line that is not blank and does not read as a record spoils the chunk. */
  lemma {:induction false} SpoiltIff<T>(rc: RecordCodec<T>, lines: seq<Bytes>)
    ensures DecodeLines(rc, lines).None?
            <==> exists l :: l in lines && rc.trim(l) != [] && rc.unmarshal(rc.trim(l)).None?
    decreases |lines|
  {
    if lines != [] {
      var front, last := lines[..|lines| - 1], lines[|lines| - 1];
      SpoiltIff(rc, front);
      assert lines == front + [last];
    }
  }

  /** Lines are the framing of a chunk with no format entry, with an empty one, and with the one for lines. */
  lemma Framing<T>(rc: RecordCodec<T>, c: Chunk)
    ensures var f := Ascii("format");
            Decode(rc, c) == if c.data == [] then Some([])
                             else if f !in c.metadata || c.metadata[f] == [] || c.metadata[f] == Ascii("ndjson")
                             then DecodeLines(rc, Lines(c.data))
                             else rc.unmarshalAll(c.data)
  {
    Words();
  }

  // ------------------------------------------------------------- round trip

  lemma GlueTwice(lines: seq<Bytes>, a: Bytes, b: Bytes)
    requires |lines| > 0
    ensures Glue(Glue(lines, a), b) == Glue(lines, a + b)
  {
    assert lines[|lines| - 1] + a + b == lines[|lines| - 1] + (a + b);
  }

  lemma LinesOfByte(data: Bytes, b: byte)
    requires b != NEWLINE
    ensures Lines(data + [b]) == Glue(Lines(data), [b])
  {
    assert (data + [b])[..|data|] == data;
  }

  lemma {:induction false} LinesOfLine(data: Bytes, line: Bytes)
    requires NEWLINE !in line
    ensures Lines(data + line) == Glue(Lines(data), line)
    decreases |line|
  {
    if line == [] {
      var last := Lines(data)[|Lines(data)| - 1];
      assert data + line == data && last + line == last;
    } else {
      var front, b := line[..|line| - 1], line[|line| - 1];
      LinesOfLine(data, front);
      LinesOfByte(data + front, b);
      GlueTwice(Lines(data), front, [b]);
      assert line == front + [b];
      assert data + line == data + front + [b];
    }
  }

  /** Appending a newline-terminated line to text that ends in a newline adds exactly that line. */
  lemma LinesSnoc(data: Bytes, line: Bytes)
    requires NEWLINE !in line && Lines(data)[|Lines(data)| - 1] == []
    ensures var before := Lines(data);
            Lines(data + line + [NEWLINE]) == before[..|before| - 1] + [line, []]
  {
    var before := Lines(data);
    LinesOfLine(data, line);
    assert [] + line == line;
    var all := data + line + [NEWLINE];
    assert all[..|all| - 1] == data + line;
    assert before[..|before| - 1] + [line] + [[]] == before[..|before| - 1] + [line, []];
  }

  lemma DecodeLinesSnoc<T>(rc: RecordCodec<T>, lines: seq<Bytes>, line: Bytes)
    ensures DecodeLines(rc, lines + [line]) ==
            match DecodeLines(rc, lines)
            case None => None
            case Some(items) =>
              var l := rc.trim(line);
              if l == [] then Some(items)
              else match rc.unmarshal(l) case None => None case Some(x) => Some(items + [x])
  {
    assert (lines + [line])[..|lines|] == lines;
  }

  /** The text is newline-terminated and its lines decode to the batch. */
  ghost predicate HoldsLines<T>(rc: RecordCodec<T>, data: Bytes, batch: seq<T>) {
    var lines := Lines(data);
    lines[|lines| - 1] == [] && DecodeLines(rc, lines[..|lines| - 1]) == Some(batch)
  }

  lemma AddLine<T>(rc: RecordCodec<T>, data: Bytes, batch: seq<T>, line: Bytes, x: T)
    requires HoldsLines(rc, data, batch)
    requires line != [] && NEWLINE !in line && rc.trim(line) == line && rc.unmarshal(line) == Some(x)
    ensures HoldsLines(rc, data + line + [NEWLINE], batch + [x])
  {
    LinesSnoc(data, line);
    var before, lines := Lines(data), Lines(data + line + [NEWLINE]);
    assert lines[..|lines| - 1] == before[..|before| - 1] + [line];
    DecodeLinesSnoc(rc, before[..|before| - 1], line);
  }

  lemma LawfulLine<T(!new)>(rc: RecordCodec<T>, x: T)
    requires Lawful(rc) && rc.marshal(x).Some?
    ensures var b := rc.marshal(x).value;
            b != [] && NEWLINE !in b && rc.trim(b) == b && rc.unmarshal(b) == Some(x)
  {
  }

  lemma {:induction false} LinesRoundTrip<T(!new)>(rc: RecordCodec<T>, batch: seq<T>)
    requires Lawful(rc) && EncodeLines(rc, batch).Some?
    ensures HoldsLines(rc, EncodeLines(rc, batch).value, batch)
    decreases |batch|
  {
    if batch != [] {
      var front, x := batch[..|batch| - 1], batch[|batch| - 1];
      LinesRoundTrip(rc, front);
      LawfulLine(rc, x);
      AddLine(rc, EncodeLines(rc, front).value, front, rc.marshal(x).value, x);
      assert front + [x] == batch;
    }
  }

  /** Decoding a chunk gives back the batch it was made from, for every format but the empty string. */
  lemma ChunkRoundTrip<T(!new)>(cfg: Config, rc: RecordCodec<T>, batch: seq<T>, last: bool, sequence: int64,
                                offset: int64)
    requires Lawful(rc) && cfg.format != [] && EncodePayload(cfg, rc, batch).Some?
    ensures Decode(rc, BatchChunk(cfg, EncodePayload(cfg, rc, batch).value, |batch|, last, sequence, offset))
         == Some(batch)
  {
    var payload := EncodePayload(cfg, rc, batch).value;
    var c := BatchChunk(cfg, payload, |batch|, last, sequence, offset);
    assert FORMAT_KEY != COUNT_KEY;
    assert FormatOf(c) == cfg.format;
    if cfg.format == NDJSON {
      LinesRoundTrip(rc, batch);
      var lines := Lines(payload);
      assert lines == lines[..|lines| - 1] + [[]];
      DecodeLinesSnoc(rc, lines[..|lines| - 1], []);
    }
  }

  /** Slices are written on one line and trimmed, as json.Marshal writes arrays and null. */
  ghost predicate SlicesOnOneLine<T(!new)>(rc: RecordCodec<T>) {
    forall xs :: rc.marshalAll(xs).Some? ==>
      var b := rc.marshalAll(xs).value; NEWLINE !in b && rc.trim(b) == b
  }

  lemma LinesOfOneLine(line: Bytes)
    requires NEWLINE !in line
    ensures Lines(line) == [line]
  {
    LinesOfLine([], line);
    assert [] + line == line;
    assert Lines([]) == [[]];
  }

  /**
   * With the empty format the sender writes a slice and the receiver reads lines. Decoding works exactly
   * when the format is not empty, or when the slice holds one record and its text also reads as that record.
   */
  lemma RoundTripIffFormatNamed<T(!new)>(cfg: Config, rc: RecordCodec<T>, batch: seq<T>, last: bool,
                                         sequence: int64, offset: int64)
    requires Lawful(rc) && EncodePayload(cfg, rc, batch).Some? && SlicesOnOneLine(rc)
    ensures var payload := EncodePayload(cfg, rc, batch).value;
            Decode(rc, BatchChunk(cfg, payload, |batch|, last, sequence, offset)) == Some(batch)
            <==> cfg.format != [] || (|batch| == 1 && rc.unmarshal(payload) == Some(batch[0]))
  {
    if cfg.format != [] {
      ChunkRoundTrip(cfg, rc, batch, last, sequence, offset);
    } else {
      var payload := EncodePayload(cfg, rc, batch).value;
      assert FORMAT_KEY != COUNT_KEY;
      assert FormatOf(BatchChunk(cfg, payload, |batch|, last, sequence, offset)) == NDJSON;
      LinesOfOneLine(payload);
      DecodeSingle(rc, payload);
      if |batch| == 1 {
        assert batch == [batch[0]];
      }
    }
  }

  // Truth values as the records 0 and 1 and slices of them in brackets: a codec that keeps all the laws.
  function MarshalBit(b: bool): Option<Bytes> {
    Some([if b then 49 else 48])
  }

  function UnmarshalBit(b: Bytes): Option<bool> {
    if b == [48] then Some(false) else if b == [49] then Some(true) else None
  }

  function MarshalBits(bs: seq<bool>): Option<Bytes> {
    Some([91] + seq(|bs|, i requires 0 <= i < |bs| => if bs[i] then 49 else 48) + [93])
  }

  function UnmarshalBits(b: Bytes): Option<seq<bool>> {
    if |b| < 2 then None else Some(seq(|b| - 2, i requires 0 <= i < |b| - 2 => b[i + 1] == 49))
  }

  function Untouched(b: Bytes): Bytes {
    b
  }

  const BITS: RecordCodec<bool> := RecordCodec(MarshalBit, UnmarshalBit, MarshalBits, UnmarshalBits, Untouched)

  lemma BitsAreLawful()
    ensures Lawful(BITS) && SlicesOnOneLine(BITS)
  {
    forall bs: seq<bool>
      ensures UnmarshalBits(MarshalBits(bs).value) == Some(bs)
    {
      assert UnmarshalBits(MarshalBits(bs).value).value == bs;
    }
  }

  /** For that codec the empty format loses every batch, the empty one and single records included. */
  lemma EmptyFormatLosesBits(cfg: Config, batch: seq<bool>, sequence: int64, offset: int64)
    requires cfg.format == []
    ensures Decode(BITS, BatchChunk(cfg, MarshalBits(batch).value, |batch|, true, sequence, offset)) != Some(batch)
  {
    BitsAreLawful();
    RoundTripIffFormatNamed(cfg, BITS, batch, true, sequence, offset);
    assert |MarshalBits(batch).value| >= 2;
  }

  // ----------------------------------------------------------------- batches

  /** How StreamSlice cuts: full batches, then the rest; no records make one empty batch. */
  function SliceBatches<T>(items: seq<T>, size: nat): (bs: seq<seq<T>>)
    requires size > 0
    ensures |bs| > 0
    decreases |items|
  {
    if |items| <= size then [items] else [items[..size]] + SliceBatches(items[size..], size)
  }

  /** How StreamFromChannel cuts: a full batch goes out at once, and what is left, even nothing, goes out last. */
  function ChannelBatches<T>(items: seq<T>, size: nat): (bs: seq<seq<T>>)
    requires size > 0
    ensures |bs| > 0
    decreases |items|
  {
    if |items| < size then [items] else [items[..size]] + ChannelBatches(items[size..], size)
  }

  function Concat<T>(bs: seq<seq<T>>): seq<T>
    decreases |bs|
  {
    if bs == [] then [] else bs[0] + Concat(bs[1..])
  }

  lemma ConcatCons<T>(b: seq<T>, bs: seq<seq<T>>)
    ensures Concat([b] + bs) == b + Concat(bs)
  {
    var all := [b] + bs;
    assert all[1..] == bs;
  }

  /** The two cuttings differ, but neither loses, repeats or reorders a record. */
  lemma {:induction false} SliceBatchesKeepAll<T>(items: seq<T>, size: nat)
    requires size > 0
    ensures Concat(SliceBatches(items, size)) == items
    decreases |items|
  {
    if |items| <= size {
      ConcatCons(items, []);
    } else {
      SliceBatchesKeepAll(items[size..], size);
      ConcatCons(items[..size], SliceBatches(items[size..], size));
      assert items == items[..size] + items[size..];
    }
  }

  lemma {:induction false} ChannelBatchesKeepAll<T>(items: seq<T>, size: nat)
    requires size > 0
    ensures Concat(ChannelBatches(items, size)) == items
    decreases |items|
  {
    if |items| < size {
      ConcatCons(items, []);
    } else {
      ChannelBatchesKeepAll(items[size..], size);
      ConcatCons(items[..size], ChannelBatches(items[size..], size));
      assert items == items[..size] + items[size..];
    }
  }

  /** Every batch but the last is full, and the last is not. */
  lemma {:induction false} ChannelBatchSizes<T>(items: seq<T>, size: nat, i: nat)
    requires size > 0 && i < |ChannelBatches(items, size)|
    ensures var bs := ChannelBatches(items, size);
            if i < |bs| - 1 then |bs[i]| == size else |bs[i]| < size
    decreases i
  {
    if i > 0 {
      ChannelBatchSizes(items[size..], size, i - 1);
    }
  }

  /** StreamSlice sends no empty batch unless there is nothing to send. */
  lemma {:induction false} SliceBatchSizes<T>(items: seq<T>, size: nat, i: nat)
    requires size > 0 && i < |SliceBatches(items, size)|
    ensures var bs := SliceBatches(items, size);
            if i < |bs| - 1 then |bs[i]| == size else |bs[i]| <= size && (bs[i] == [] ==> items == [])
    decreases i
  {
    if i > 0 {
      SliceBatchSizes(items[size..], size, i - 1);
    }
  }

  /** The flush test of StreamFromChannel: 128 estimated bytes a record. */
  predicate Full(cfg: Config, count: nat) {
    count >= cfg.batchSize || 128 * count >= cfg.maxBatchBytes
  }

  /** min(BatchSize, ceil(MaxBatchBytes / 128)) */
  function ChannelBatchSize(cfg: Config): nat {
    Min(cfg.batchSize, (cfg.maxBatchBytes + 127) / 128)
  }

  lemma FullIffBatchSize(cfg: Config, count: nat)
    ensures Full(cfg, count) <==> count >= ChannelBatchSize(cfg)
    ensures Full(cfg, count) <==> count >= cfg.batchSize || count * 128 >= cfg.maxBatchBytes
  {
  }

  /** A batch is flushed when it holds this many records, and not before. */
  ghost predicate FlushesAt(cfg: Config, size: nat) {
    size > 0 && forall count: nat :: Full(cfg, count) <==> count >= size
  }

  lemma BatchSizeFlushes(cfg: Config)
    requires cfg.batchSize > 0 && cfg.maxBatchBytes > 0
    ensures FlushesAt(cfg, ChannelBatchSize(cfg))
  {
    forall count: nat
      ensures Full(cfg, count) <==> count >= ChannelBatchSize(cfg)
    {
      FullIffBatchSize(cfg, count);
    }
  }

  // ----------------------------------------------------------- whole streams

  /** The sequence number and offset after the chunks of some batches. */
  function EndOf<T>(cfg: Config, rc: RecordCodec<T>, bs: seq<seq<T>>, sequence: int64, offset: int64): (int64, int64)
    decreases |bs|
  {
    if bs == [] then (sequence, offset)
    else
      match EncodePayload(cfg, rc, bs[0])
      case Some(p) => EndOf(cfg, rc, bs[1..], Wrap64(sequence + 1), Wrap64(offset + |p|))
      case None => (sequence, offset)
  }

  /**
   * Chunk after chunk for the batches, numbered from `sequence` and placed from `offset` on; the chunk of
   * the final batch is flagged last if the stream is closed with it.
   */
  ghost predicate Carries<T>(cfg: Config, rc: RecordCodec<T>, bs: seq<seq<T>>, chunks: seq<Chunk>,
                             sequence: int64, offset: int64, closed: bool)
    decreases |bs|
  {
    if bs == [] then chunks == []
    else
      && chunks != []
      && EncodePayload(cfg, rc, bs[0]).Some?
      && var payload := EncodePayload(cfg, rc, bs[0]).value;
         && chunks[0] == BatchChunk(cfg, payload, |bs[0]|, closed && |bs| == 1, sequence, offset)
         && Carries(cfg, rc, bs[1..], chunks[1..], Wrap64(sequence + 1), Wrap64(offset + |payload|), closed)
  }

  /** One more batch, the last one or not. */
  lemma {:induction false} CarriesSnoc<T>(cfg: Config, rc: RecordCodec<T>, bs: seq<seq<T>>, chunks: seq<Chunk>,
                                          sequence: int64, offset: int64, b: seq<T>, closed: bool)
    requires Carries(cfg, rc, bs, chunks, sequence, offset, false) && EncodePayload(cfg, rc, b).Some?
    ensures var p := EncodePayload(cfg, rc, b).value;
            var (s, o) := EndOf(cfg, rc, bs, sequence, offset);
            && Carries(cfg, rc, bs + [b], chunks + [BatchChunk(cfg, p, |b|, closed, s, o)], sequence, offset, closed)
            && EndOf(cfg, rc, bs + [b], sequence, offset) == (Wrap64(s + 1), Wrap64(o + |p|))
    decreases |bs|
  {
    var all := bs + [b];
    if bs == [] {
      assert all[1..] == [];
    } else {
      var p0 := EncodePayload(cfg, rc, bs[0]).value;
      var (s, o) := EndOf(cfg, rc, bs, sequence, offset);
      var c := BatchChunk(cfg, EncodePayload(cfg, rc, b).value, |b|, closed, s, o);
      assert all[1..] == bs[1..] + [b] && (chunks + [c])[1..] == chunks[1..] + [c];
      CarriesSnoc(cfg, rc, bs[1..], chunks[1..], Wrap64(sequence + 1), Wrap64(offset + |p0|), b, closed);
    }
  }

  /** A batch that cannot be encoded leaves the counters where the batches before it put them. */
  lemma {:induction false} EndOfStops<T>(cfg: Config, rc: RecordCodec<T>, bs: seq<seq<T>>, chunks: seq<Chunk>,
                                         sequence: int64, offset: int64, b: seq<T>, rest: seq<seq<T>>)
    requires Carries(cfg, rc, bs, chunks, sequence, offset, false) && EncodePayload(cfg, rc, b).None?
    ensures EndOf(cfg, rc, bs + ([b] + rest), sequence, offset) == EndOf(cfg, rc, bs, sequence, offset)
    decreases |bs|
  {
    var all := bs + ([b] + rest);
    if bs != [] {
      assert all[1..] == bs[1..] + ([b] + rest);
      var n := |EncodePayload(cfg, rc, bs[0]).value|;
      EndOfStops(cfg, rc, bs[1..], chunks[1..], Wrap64(sequence + 1), Wrap64(offset + n), b, rest);
    }
  }

  /** The receiver's ConsumeChannel: the records of the chunks one after the other. */
  ghost function DecodeAll<T>(rc: RecordCodec<T>, chunks: seq<Chunk>): Option<seq<T>>
    decreases |chunks|
  {
    if chunks == [] then Some([])
    else
      match (Decode(rc, chunks[0]), DecodeAll(rc, chunks[1..]))
      case (Some(a), Some(b)) => Some(a + b)
      case _ => None
  }

  lemma {:induction false} CarriedRecords<T(!new)>(cfg: Config, rc: RecordCodec<T>, bs: seq<seq<T>>, chunks: seq<Chunk>,
                                                   sequence: int64, offset: int64, closed: bool)
    requires Lawful(rc) && cfg.format != [] && Carries(cfg, rc, bs, chunks, sequence, offset, closed)
    ensures DecodeAll(rc, chunks) == Some(Concat(bs))
    decreases |bs|
  {
    if bs != [] {
      ChunkRoundTrip(cfg, rc, bs[0], closed && |bs| == 1, sequence, offset);
      CarriedRecords(cfg, rc, bs[1..], chunks[1..], Wrap64(sequence + 1),
                     Wrap64(offset + |EncodePayload(cfg, rc, bs[0]).value|), closed);
    }
  }

  function DataSize(chunks: seq<Chunk>): nat
    decreases |chunks|
  {
    if chunks == [] then 0 else |chunks[0].data| + DataSize(chunks[1..])
  }

  /**
   * As long as the 64-bit counters do not wrap: chunk i is numbered sequence + i, sits where the payloads
   * before it end, and only the final one is flagged last; the next call goes on where this one ended.
   */
  lemma {:induction false} CarriedPlaces<T>(cfg: Config, rc: RecordCodec<T>, bs: seq<seq<T>>, chunks: seq<Chunk>,
                                            sequence: int64, offset: int64, i: nat)
    requires Carries(cfg, rc, bs, chunks, sequence, offset, true) && i < |bs|
    requires 0 <= sequence && sequence + |bs| <= MAX_INT64
    requires 0 <= offset && offset + DataSize(chunks) <= MAX_INT64
    ensures |chunks| == |bs|
    ensures chunks[i].sequence == sequence + i
    ensures chunks[i].offset == offset + DataSize(chunks[..i])
    ensures IsLast(chunks[i]) <==> i == |bs| - 1
    ensures EndOf(cfg, rc, bs, sequence, offset) == (sequence + |bs|, offset + DataSize(chunks))
    decreases |bs|
  {
    var payload := EncodePayload(cfg, rc, bs[0]).value;
    WrapInRange(sequence + 1);
    WrapInRange(offset + |payload|);
    if |bs| > 1 {
      CarriedPlaces(cfg, rc, bs[1..], chunks[1..], sequence + 1, offset + |payload|, if i > 0 then i - 1 else 0);
    }
    if i > 0 {
      assert chunks[..i][1..] == chunks[1..][..i - 1];
    }
  }

  /** Slice or channel, what is streamed is what is received. */
  lemma RecordsRoundTrip<T(!new)>(cfg: Config, rc: RecordCodec<T>, items: seq<T>, chunks: seq<Chunk>,
                                  sequence: int64, offset: int64)
    requires Lawful(rc) && cfg.format != [] && cfg.batchSize > 0 && cfg.maxBatchBytes > 0
    requires Carries(cfg, rc, SliceBatches(items, cfg.batchSize), chunks, sequence, offset, true)
          || Carries(cfg, rc, ChannelBatches(items, ChannelBatchSize(cfg)), chunks, sequence, offset, true)
    ensures DecodeAll(rc, chunks) == Some(items)
  {
    if Carries(cfg, rc, SliceBatches(items, cfg.batchSize), chunks, sequence, offset, true) {
      CarriedRecords(cfg, rc, SliceBatches(items, cfg.batchSize), chunks, sequence, offset, true);
      SliceBatchesKeepAll(items, cfg.batchSize);
    } else {
      CarriedRecords(cfg, rc, ChannelBatches(items, ChannelBatchSize(cfg)), chunks, sequence, offset, true);
      ChannelBatchesKeepAll(items, ChannelBatchSize(cfg));
    }
  }
}

/** Streamer and Receiver as the code runs them. */
module Record {
  import opened Basics
  import opened Core
  import opened Checksum
  import opened RecordModel
  import SplitModel

  /**
   * How StreamFromChannel ends: the channel was closed, a batch could not be encoded, or the context was found
   * cancelled, at a receive or at the send of a chunk, which is then dropped.
   */
  datatype Ending = Finished | NotEncoded | Stopped(dropped: bool)

  class Streamer<T> {
    const cfg: Config
    const rc: RecordCodec<T>
    var sequence: int64
    var offset: int64

    constructor (cfg: Config, rc: RecordCodec<T>)
      ensures this.cfg == cfg && this.rc == rc && sequence == 0 && offset == 0
    {
      this.cfg, this.rc := cfg, rc;
      sequence, offset := 0, 0;
    }

    /** The lines of a batch, or nothing if one record cannot be encoded. */
    method WriteLines(batch: seq<T>) returns (r: Option<Bytes>)
      ensures r == EncodeLines(rc, batch)
    {
      var buf: Bytes := [];
      for i := 0 to |batch|
        invariant EncodeLines(rc, batch[..i]) == Some(buf)
      {
        assert batch[..i + 1][..i] == batch[..i];
        var data := rc.marshal(batch[i]);
        if data.None? {
          FailedPrefix(rc, batch, i + 1);
          return None;
        }
        buf := buf + data.value + [NEWLINE];
      }
      assert batch[..|batch|] == batch;
      return Some(buf);
    }

    method EncodeBatch(batch: seq<T>, last: bool) returns (c: Option<Chunk>)
      modifies this
      ensures match EncodePayload(cfg, rc, batch)
              case None => c == None && sequence == old(sequence) && offset == old(offset)
              case Some(p) =>
                && c == Some(BatchChunk(cfg, p, |batch|, last, old(sequence), old(offset)))
                && sequence == Wrap64(old(sequence) + 1) && offset == Wrap64(old(offset) + |p|)
    {
      var payload: Option<Bytes>;
      if cfg.format == NDJSON {
        payload := WriteLines(batch);
      } else {
        payload := rc.marshalAll(batch);
      }
      if payload.None? {
        return None;
      }
      c := Some(BatchChunk(cfg, payload.value, |batch|, last, sequence, offset));
      sequence := Wrap64(sequence + 1);
      offset := Wrap64(offset + |payload.value|);
    }

    /** What the batches done so far have become: their chunks, the counters, and the batches still to do. */
    ghost predicate Underway(all: seq<seq<T>>, bs: seq<seq<T>>, rest: seq<seq<T>>, chunks: seq<Chunk>,
                             s0: int64, o0: int64)
      reads this
    {
      && all == bs + rest
      && |chunks| == |bs|
      && Carries(cfg, rc, bs, chunks, s0, o0, false)
      && (sequence, offset) == EndOf(cfg, rc, bs, s0, o0)
    }

    /** Encode one more batch and append its chunk; the last batch closes the stream. */
    method Push(chunks: seq<Chunk>, b: seq<T>, last: bool, ghost all: seq<seq<T>>, ghost bs: seq<seq<T>>,
                ghost rest: seq<seq<T>>, ghost s0: int64, ghost o0: int64)
      returns (more: Option<seq<Chunk>>)
      requires Underway(all, bs, [b] + rest, chunks, s0, o0)
      modifies this
      ensures more.None? ==> all[|bs|] == b && EncodePayload(cfg, rc, b).None?
      ensures more.None? || rest == [] ==> (sequence, offset) == EndOf(cfg, rc, all, s0, o0)
      ensures more.Some? && !last ==> Underway(all, bs + [b], rest, more.value, s0, o0)
      ensures more.Some? && last && rest == [] ==> Carries(cfg, rc, all, more.value, s0, o0, true)
    {
      assert all[|bs|] == b;
      assert all == bs + [b] + rest && (rest == [] ==> all == bs + [b]);
      var c := EncodeBatch(b, last);
      if c.None? {
        EndOfStops(cfg, rc, bs, chunks, s0, o0, b, rest);
        return None;
      }
      CarriesSnoc(cfg, rc, bs, chunks, s0, o0, b, last);
      return Some(chunks + [c.value]);
    }

    /** StreamSlice: the chunks of the slice's batches, or nothing if a batch cannot be encoded. */
    method StreamSlice(items: seq<T>) returns (chunks: Option<seq<Chunk>>)
      requires cfg.batchSize > 0
      modifies this
      ensures chunks.Some? ==>
                Carries(cfg, rc, SliceBatches(items, cfg.batchSize), chunks.value, old(sequence), old(offset), true)
      ensures chunks.None? ==>
                exists b :: b in SliceBatches(items, cfg.batchSize) && EncodePayload(cfg, rc, b).None?
      ensures (sequence, offset) == EndOf(cfg, rc, SliceBatches(items, cfg.batchSize), old(sequence), old(offset))
    {
      ghost var s0, o0 := sequence, offset;
      ghost var bs: seq<seq<T>> := [];
      ghost var all := SliceBatches(items, cfg.batchSize);
      chunks := Some([]);
      if items == [] {
        assert all == [[]] + [];
        chunks := Push([], [], true, all, [], [], s0, o0);
        return;
      }
      var i := 0;
      while i < |items|
        invariant chunks.Some? && i <= |items|
        invariant i < |items| ==> Underway(all, bs, SliceBatches(items[i..], cfg.batchSize), chunks.value, s0, o0)
        invariant i == |items| ==> Carries(cfg, rc, all, chunks.value, s0, o0, true)
                                   && (sequence, offset) == EndOf(cfg, rc, all, s0, o0)
      {
        var end, last := i + cfg.batchSize, false;
        if end >= |items| {
          end, last := |items|, true;
        }
        var batch := items[i..end];
        NextSliceBatch(items, cfg.batchSize, i);
        ghost var rest := if last then [] else SliceBatches(items[end..], cfg.batchSize);
        assert SliceBatches(items[i..], cfg.batchSize) == [batch] + rest;
        chunks := Push(chunks.value, batch, last, all, bs, rest, s0, o0);
        if chunks.None? {
          return;
        }
        bs := bs + [batch];
        i := end;
      }
    }

    /** The encoded chunk is sent, unless the context is found cancelled first; then it is lost. */
    method SendChunk(chunks: seq<Chunk>, b: seq<T>, c: Chunk, last: bool, sendStop: Option<nat>,
                     ghost all: seq<seq<T>>, ghost bs: seq<seq<T>>, ghost rest: seq<seq<T>>, ghost s0: int64,
                     ghost o0: int64, ghost from: (int64, int64), ghost to: (int64, int64))
      returns (more: seq<Chunk>, ending: Option<Ending>)
      requires all == bs + ([b] + rest) && |chunks| == |bs| && (last <==> rest == [])
      requires Carries(cfg, rc, bs, chunks, s0, o0, false) && NextChunk(cfg, rc, bs, b, last, c, s0, o0, from, to)
      ensures ending == FlushEnding(cfg, rc, b, last, sendStop, |bs|)
      ensures ending.None? ==>
                && all == bs + [b] + rest && |more| == |bs + [b]|
                && Carries(cfg, rc, bs + [b], more, s0, o0, false) && to == EndOf(cfg, rc, bs + [b], s0, o0)
      ensures ending.Some? ==>
                EndedAt(cfg, rc, all, more, Reach(ChunksSent(ending.value, |bs|), ending.value), s0, o0, to)
    {
      if sendStop == Some(|chunks|) {
        EndedDropped(cfg, rc, all, bs, b, last, rest, c, chunks, s0, o0, from, to);
        return chunks, Some(Stopped(true));
      }
      more := chunks + [c];
      if last {
        EndedFinished(cfg, rc, all, bs, b, c, chunks, s0, o0, from, to);
        return more, Some(Finished);
      }
      SentOne(cfg, rc, bs, b, false, c, chunks, s0, o0, from, to);
      return more, None;
    }

    /** flushBatch: encode, then send. */
    method FlushBatch(chunks: seq<Chunk>, b: seq<T>, last: bool, sendStop: Option<nat>, ghost all: seq<seq<T>>,
                      ghost bs: seq<seq<T>>, ghost rest: seq<seq<T>>, ghost s0: int64, ghost o0: int64)
      returns (more: seq<Chunk>, ending: Option<Ending>)
      requires Underway(all, bs, [b] + rest, chunks, s0, o0) && (last <==> rest == [])
      modifies this
      ensures ending == FlushEnding(cfg, rc, b, last, sendStop, |bs|)
      ensures ending.None? ==> Underway(all, bs + [b], rest, more, s0, o0)
      ensures ending.Some? ==>
                EndedAt(cfg, rc, all, more, Reach(ChunksSent(ending.value, |bs|), ending.value), s0, o0,
                        (sequence, offset))
    {
      ghost var from := (sequence, offset);
      var c := EncodeBatch(b, last);
      if c.None? {
        EndedNotEncoded(cfg, rc, all, bs, b, rest, chunks, s0, o0);
        return chunks, Some(NotEncoded);
      }
      more, ending :=
        SendChunk(chunks, b, c.value, last, sendStop, all, bs, rest, s0, o0, from, (sequence, offset));
    }

    /** The batch being filled after i records, and the batches it begins. */
    ghost predicate Filling(items: seq<T>, size: nat, i: nat, batch: seq<T>, currentBytes: nat, rest: seq<seq<T>>)
      requires size > 0
    {
      && i <= |items| && |batch| < size && currentBytes == 128 * |batch|
      && rest == ChannelBatches(batch + items[i..], size)
    }

    /** One record from the channel: appended, and the batch flushed if it is full. */
    method TakeRecord(items: seq<T>, i: nat, batch: seq<T>, currentBytes: nat, chunks: seq<Chunk>,
                      recvStop: Option<nat>, sendStop: Option<nat>, ghost size: nat, ghost limit: Option<nat>,
                      ghost all: seq<seq<T>>, ghost bs: seq<seq<T>>, ghost rest: seq<seq<T>>, ghost s0: int64,
                      ghost o0: int64)
      returns (batch': seq<T>, currentBytes': nat, more: seq<Chunk>, ending: Option<Ending>,
               ghost bs': seq<seq<T>>, ghost rest': seq<seq<T>>)
      requires FlushesAt(cfg, size) && i < |items| && all == ChannelBatches(items, size)
      requires Filling(items, size, i, batch, currentBytes, rest) && Underway(all, bs, rest, chunks, s0, o0)
      requires LimitAhead(|items|, size, recvStop, limit) && (recvStop.Some? ==> i < recvStop.value)
      modifies this
      ensures ending.None? ==> Filling(items, size, i + 1, batch', currentBytes', rest')
                               && Underway(all, bs', rest', more, s0, o0)
                               && HowFar(cfg, rc, all, limit, sendStop, |bs'|)
                                  == HowFar(cfg, rc, all, limit, sendStop, |bs|)
      ensures ending.Some? ==>
                && EndedAt(cfg, rc, all, more, Reach(|bs|, ending.value), s0, o0, (sequence, offset))
                && Reach(|bs|, ending.value) == HowFar(cfg, rc, all, limit, sendStop, |bs|)
    {
      assert batch + items[i..] == batch + [items[i]] + items[i + 1..];
      batch', currentBytes', more, ending, bs', rest' := batch + [items[i]], currentBytes + 128, chunks, None, bs, rest;
      assert Full(cfg, |batch'|) <==> |batch'| >= size;
      if |batch'| >= cfg.batchSize || currentBytes' >= cfg.maxBatchBytes {
        rest' := FirstChannelBatch(batch', items[i + 1..], size);
        BatchAt(all, bs, batch', rest');
        Counted(items, size, i, bs, batch, rest);
        more, ending := FlushBatch(chunks, batch', false, sendStop, all, bs, rest', s0, o0);
        bs' := bs + [batch'];
        batch', currentBytes' := [], 0;
      }
    }

    /** The channel is closed: the last batch goes out, whatever it holds. */
    method FlushRest(chunks: seq<Chunk>, batch: seq<T>, sendStop: Option<nat>, ghost limit: Option<nat>,
                     ghost all: seq<seq<T>>, ghost bs: seq<seq<T>>, ghost s0: int64, ghost o0: int64)
      returns (more: seq<Chunk>, ending: Ending)
      requires Underway(all, bs, [batch], chunks, s0, o0) && limit != Some(|bs|)
      modifies this
      ensures Reach(ChunksSent(ending, |bs|), ending) == HowFar(cfg, rc, all, limit, sendStop, |bs|)
      ensures EndedAt(cfg, rc, all, more, Reach(ChunksSent(ending, |bs|), ending), s0, o0, (sequence, offset))
    {
      assert [batch] == [batch] + [];
      BatchAt(all, bs, batch, []);
      var end;
      more, end := FlushBatch(chunks, batch, true, sendStop, all, bs, [], s0, o0);
      return more, end.value;
    }

    /** The receive loop: until the channel is closed, the context found cancelled or a flush ends it. */
    method TakeRecords(items: seq<T>, recvStop: Option<nat>, sendStop: Option<nat>, ghost size: nat,
                       ghost limit: Option<nat>, ghost all: seq<seq<T>>, ghost s0: int64, ghost o0: int64)
      returns (i: nat, batch: seq<T>, chunks: seq<Chunk>, ending: Option<Ending>, ghost bs: seq<seq<T>>,
               ghost rest: seq<seq<T>>)
      requires FlushesAt(cfg, size) && all == ChannelBatches(items, size)
      requires LimitAhead(|items|, size, recvStop, limit)
      requires Underway(all, [], all, [], s0, o0)
      modifies this
      ensures ending.None? ==>
                && Filling(items, size, i, batch, 128 * |batch|, rest)
                && (recvStop.Some? ==> i <= recvStop.value) && (i == |items| || recvStop == Some(i))
                && Underway(all, bs, rest, chunks, s0, o0)
                && HowFar(cfg, rc, all, limit, sendStop, |bs|) == HowFar(cfg, rc, all, limit, sendStop, 0)
      ensures ending.Some? ==>
                && EndedAt(cfg, rc, all, chunks, Reach(|bs|, ending.value), s0, o0, (sequence, offset))
                && Reach(|bs|, ending.value) == HowFar(cfg, rc, all, limit, sendStop, 0)
    {
      var currentBytes := 0;
      i, batch, chunks, ending, bs, rest := 0, [], [], None, [], all;
      NothingTaken(items, size);
      while i < |items| && recvStop != Some(i)
        invariant ending.None? && i <= |items| && (recvStop.Some? ==> i <= recvStop.value)
        invariant Filling(items, size, i, batch, currentBytes, rest)
        invariant Underway(all, bs, rest, chunks, s0, o0)
        invariant HowFar(cfg, rc, all, limit, sendStop, |bs|) == HowFar(cfg, rc, all, limit, sendStop, 0)
      {
        ghost var next, left;
        batch, currentBytes, chunks, ending, next, left :=
          TakeRecord(items, i, batch, currentBytes, chunks, recvStop, sendStop, size, limit, all, bs, rest, s0, o0);
        if ending.Some? {
          return;
        }
        bs, rest, i := next, left, i + 1;
      }
    }

    lemma NothingTaken(items: seq<T>, size: nat)
      requires size > 0
      ensures Filling(items, size, 0, [], 0, ChannelBatches(items, size))
    {
      assert [] + items[0..] == items;
    }

    lemma LoopLeft(items: seq<T>, size: nat, i: nat, bs: seq<seq<T>>, batch: seq<T>, rest: seq<seq<T>>,
                   recvStop: Option<nat>)
      requires size > 0 && Filling(items, size, i, batch, 128 * |batch|, rest)
      requires ChannelBatches(items, size) == bs + rest && (recvStop.Some? ==> i <= recvStop.value)
      ensures rest != []
      ensures recvStop == Some(i) ==> ReceiveLimit(|items|, size, recvStop) == Some(|bs|)
      ensures i == |items| && recvStop != Some(i) ==>
                rest == [batch] && ReceiveLimit(|items|, size, recvStop) == None
    {
      Counted(items, size, i, bs, batch, rest);
      SplitModel.QuotientUnique(i, size, |bs|, |batch|);
      assert i == |items| ==> batch + items[i..] == batch;
    }

    /**
     * StreamFromChannel over the records the channel yields before it is closed. The context may be found
     * cancelled before a record is taken (recvStop of them were) or a chunk is sent (sendStop of them were).
     * How far it gets, how it ends and what the counters then count is what HowFar says.
     */
    method StreamFromChannel(items: seq<T>, recvStop: Option<nat>, sendStop: Option<nat>)
      returns (chunks: seq<Chunk>, ending: Ending)
      requires cfg.batchSize > 0 && cfg.maxBatchBytes > 0
      modifies this
      ensures var size := ChannelBatchSize(cfg);
              var all := ChannelBatches(items, size);
              var far := HowFar(cfg, rc, all, ReceiveLimit(|items|, size, recvStop), sendStop, 0);
              && ending == far.ending
              && EndedAt(cfg, rc, all, chunks, far, old(sequence), old(offset), (sequence, offset))
    {
      ghost var s0, o0, size := sequence, offset, ChannelBatchSize(cfg);
      ghost var all, limit := ChannelBatches(items, size), ReceiveLimit(|items|, size, recvStop);
      BatchSizeFlushes(cfg);
      ReceiveLimitAhead(|items|, size, recvStop);
      ghost var bs, rest;
      var i, batch, end;
      i, batch, chunks, end, bs, rest := TakeRecords(items, recvStop, sendStop, size, limit, all, s0, o0);
      if end.Some? {
        return chunks, end.value;
      }
      LoopLeft(items, size, i, bs, batch, rest, recvStop);
      if recvStop == Some(i) {
        EndedWaiting(cfg, rc, all, bs, rest, chunks, limit, sendStop, s0, o0);
        return chunks, Stopped(false);
      }
      chunks, ending := FlushRest(chunks, batch, sendStop, limit, all, bs, s0, o0);
    }
  }

  // ------------------------------------------------- how far a channel gets

  /** Cancelled at a receive after r records, the loop has completed r / size batches. */
  function ReceiveLimit(n: nat, size: nat, recvStop: Option<nat>): Option<nat>
    requires size > 0
  {
    if recvStop.Some? && recvStop.value <= n then Some(recvStop.value / size) else None
  }

  /** i records are k full batches and a remainder. */
  ghost predicate Taken(i: nat, size: nat, k: nat, filled: nat) {
    i == k * size + filled
  }

  /** When the batches bs are done and the next one is being filled, that many records have been taken. */
  lemma Counted<T>(items: seq<T>, size: nat, i: nat, bs: seq<seq<T>>, batch: seq<T>, rest: seq<seq<T>>)
    requires size > 0 && i <= |items| && ChannelBatches(items, size) == bs + rest
    requires rest == ChannelBatches(batch + items[i..], size)
    ensures Taken(i, size, |bs|, |batch|)
  {
    ChannelBatchesKeepAll(items, size);
    ChannelBatchesKeepAll(batch + items[i..], size);
    var all := bs + rest;
    forall j | 0 <= j < |bs|
      ensures |bs[j]| == size
    {
      ChannelBatchSizes(items, size, j);
      assert all[j] == bs[j];
    }
    ConcatLength(bs, rest, size);
  }

  lemma {:induction false} ConcatLength<T>(bs: seq<seq<T>>, rest: seq<seq<T>>, size: nat)
    requires forall b :: b in bs ==> |b| == size
    ensures |Concat(bs + rest)| == |bs| * size + |Concat(rest)|
  {
    if bs == [] {
      assert bs + rest == rest;
    } else {
      ConcatLength(bs[1..], rest, size);
      assert bs + rest == [bs[0]] + (bs[1..] + rest);
      ConcatCons(bs[0], bs[1..] + rest);
      SplitModel.MulStep(|bs|, size);
    }
  }

  /** As long as no receive was cancelled, the record that completes a batch comes before the limit. */
  ghost predicate LimitAhead(n: nat, size: nat, recvStop: Option<nat>, limit: Option<nat>) {
    forall i: nat, k: nat, filled: nat ::
      Taken(i, size, k, filled) && filled + 1 == size && i < n && (recvStop.Some? ==> i < recvStop.value) ==>
        limit != Some(k)
  }

  lemma ReceiveLimitAhead(n: nat, size: nat, recvStop: Option<nat>)
    requires size > 0
    ensures LimitAhead(n, size, recvStop, ReceiveLimit(n, size, recvStop))
  {
    if recvStop.Some? {
      forall i: nat, k: nat, filled: nat | Taken(i, size, k, filled) && filled + 1 == size && i < recvStop.value
        ensures recvStop.value / size != k
      {
        SplitModel.MulStep(k + 1, size);
        QuotientAbove(recvStop.value, size, k + 1);
      }
    }
  }

  lemma QuotientAbove(r: nat, size: nat, q: nat)
    requires size > 0 && r >= q * size
    ensures r / size >= q
  {
    var p := r / size;
    assert r == p * size + r % size;
    if p < q {
      SplitModel.MulGap(p, q, size);
    }
  }

  /** How flushing batch k ends the loop, if it does. */
  ghost function FlushEnding<T>(cfg: Config, rc: RecordCodec<T>, b: seq<T>, last: bool, sendStop: Option<nat>, k: nat)
    : Option<Ending>
  {
    if EncodePayload(cfg, rc, b).None? then Some(NotEncoded)
    else if sendStop == Some(k) then Some(Stopped(true))
    else if last then Some(Finished)
    else None
  }

  /** How a run ends, behind how many chunks sent. */
  datatype Reach = Reach(sent: nat, ending: Ending)

  /** The flush of batch k sends a chunk and ends the run only if it is the last. */
  function ChunksSent(ending: Ending, k: nat): nat {
    if ending == Finished then k + 1 else k
  }

  /** Batch by batch from the k-th on: cancelled while waiting for records, or ended by the flush, or on to the next. */
  ghost function HowFar<T>(cfg: Config, rc: RecordCodec<T>, all: seq<seq<T>>, limit: Option<nat>,
                           sendStop: Option<nat>, k: nat): Reach
    requires k < |all|
    decreases |all| - k
  {
    if limit == Some(k) then Reach(k, Stopped(false))
    else
      match FlushEnding(cfg, rc, all[k], k + 1 == |all|, sendStop, k)
      case Some(e) => Reach(ChunksSent(e, k), e)
      case None => HowFar(cfg, rc, all, limit, sendStop, k + 1)
  }

  /**
   * What ends a run, in the order in which the loop looks: the receive limit, then the first batch that cannot be
   * encoded (batch u, or none if u == |all|), then the send at which the context is found cancelled.
   */
  ghost function FirstStop(limit: Option<nat>, u: nat, sendStop: Option<nat>, n: nat): Reach {
    var s := if sendStop.Some? then sendStop.value else n;
    if limit.Some? && limit.value <= u && limit.value <= s then Reach(limit.value, Stopped(false))
    else if u < n && u <= s then Reach(u, NotEncoded)
    else if s < n then Reach(s, Stopped(true))
    else Reach(n, Finished)
  }

  lemma {:induction false} HowFarIs<T>(cfg: Config, rc: RecordCodec<T>, all: seq<seq<T>>, limit: Option<nat>,
                                       sendStop: Option<nat>, u: nat, k: nat)
    requires k <= u <= |all| && k < |all|
    requires forall i :: k <= i < u ==> EncodePayload(cfg, rc, all[i]).Some?
    requires u < |all| ==> EncodePayload(cfg, rc, all[u]).None?
    requires limit.Some? ==> k <= limit.value < |all|
    requires sendStop.Some? ==> k <= sendStop.value
    ensures HowFar(cfg, rc, all, limit, sendStop, k) == FirstStop(limit, u, sendStop, |all|)
    decreases |all| - k
  {
    if limit != Some(k) && FlushEnding(cfg, rc, all[k], k + 1 == |all|, sendStop, k).None? {
      HowFarIs(cfg, rc, all, limit, sendStop, u, k + 1);
    }
  }

  lemma {:induction false} ChannelBatchCount<T>(items: seq<T>, size: nat)
    requires size > 0
    ensures |ChannelBatches(items, size)| == |items| / size + 1
    decreases |items|
  {
    if |items| < size {
      SplitModel.QuotientUnique(|items|, size, 0, |items|);
    } else {
      ChannelBatchCount(items[size..], size);
      SplitModel.DivAddOne(|items| - size, size);
    }
  }

  /**
   * How a channel's run ends and how many chunks it sends: r / size of them if it is cancelled behind r records,
   * and otherwise as many as come before the first batch that cannot be encoded or the cancelled send. A
   * cancelled send within the stream never goes unnoticed.
   */
  lemma ChannelReach<T>(cfg: Config, rc: RecordCodec<T>, items: seq<T>, recvStop: Option<nat>, sendStop: Option<nat>,
                        u: nat)
    requires cfg.batchSize > 0 && cfg.maxBatchBytes > 0
    requires var all := ChannelBatches(items, ChannelBatchSize(cfg));
             && u <= |all| && (u < |all| ==> EncodePayload(cfg, rc, all[u]).None?)
             && forall i :: 0 <= i < u ==> EncodePayload(cfg, rc, all[i]).Some?
    ensures var size := ChannelBatchSize(cfg);
            var all, limit := ChannelBatches(items, size), ReceiveLimit(|items|, size, recvStop);
            var far := HowFar(cfg, rc, all, limit, sendStop, 0);
            && far == FirstStop(limit, u, sendStop, |items| / size + 1)
            && (far.ending == Finished ==> u == |all| && (sendStop.Some? ==> sendStop.value >= |all|)
                                           && (recvStop.Some? ==> recvStop.value > |items|))
  {
    var size := ChannelBatchSize(cfg);
    ChannelBatchCount(items, size);
    if recvStop.Some? && recvStop.value <= |items| {
      QuotientGrows(recvStop.value, |items|, size);
    }
    HowFarIs(cfg, rc, ChannelBatches(items, size), ReceiveLimit(|items|, size, recvStop), sendStop, u, 0);
  }

  lemma QuotientGrows(a: nat, b: nat, size: nat)
    requires size > 0 && a <= b
    ensures a / size <= b / size
  {
    assert a == a / size * size + a % size;
    QuotientAbove(b, size, a / size);
  }

  /**
   * The chunks of the first batches, in full; the last flag only where the channel was closed. The counters stand
   * behind the chunks sent, and behind the chunk dropped at its send.
   */
  ghost predicate EndedAt<T>(cfg: Config, rc: RecordCodec<T>, all: seq<seq<T>>, chunks: seq<Chunk>, far: Reach,
                             s0: int64, o0: int64, at: (int64, int64))
  {
    var n := far.sent;
    && |chunks| == n <= |all|
    && Carries(cfg, rc, all[..n], chunks, s0, o0, far.ending == Finished)
    && match far.ending
       case Finished => n == |all| && at == EndOf(cfg, rc, all[..n], s0, o0)
       case NotEncoded => n < |all| && EncodePayload(cfg, rc, all[n]).None? && at == EndOf(cfg, rc, all[..n], s0, o0)
       case Stopped(true) => n < |all| && at == EndOf(cfg, rc, all[..n + 1], s0, o0)
       case Stopped(false) => at == EndOf(cfg, rc, all[..n], s0, o0)
  }

  lemma EndedNotEncoded<T>(cfg: Config, rc: RecordCodec<T>, all: seq<seq<T>>, bs: seq<seq<T>>, b: seq<T>,
                           rest: seq<seq<T>>, chunks: seq<Chunk>, s0: int64, o0: int64)
    requires all == bs + ([b] + rest) && |chunks| == |bs|
    requires Carries(cfg, rc, bs, chunks, s0, o0, false) && EncodePayload(cfg, rc, b).None?
    ensures EndedAt(cfg, rc, all, chunks, Reach(|bs|, NotEncoded), s0, o0, EndOf(cfg, rc, bs, s0, o0))
  {
    BatchAt(all, bs, b, rest);
  }

  lemma EndedWaiting<T>(cfg: Config, rc: RecordCodec<T>, all: seq<seq<T>>, bs: seq<seq<T>>, rest: seq<seq<T>>,
                        chunks: seq<Chunk>, limit: Option<nat>, sendStop: Option<nat>, s0: int64, o0: int64)
    requires all == bs + rest && |chunks| == |bs| && Carries(cfg, rc, bs, chunks, s0, o0, false)
    requires rest != [] && limit == Some(|bs|)
    ensures HowFar(cfg, rc, all, limit, sendStop, |bs|) == Reach(|bs|, Stopped(false))
    ensures EndedAt(cfg, rc, all, chunks, Reach(|bs|, Stopped(false)), s0, o0, EndOf(cfg, rc, bs, s0, o0))
  {
    assert all[..|bs|] == bs;
  }

  /** c is the chunk of batch b made when the counters stand at `from`, behind the batches bs; `to` is behind it. */
  ghost predicate NextChunk<T>(cfg: Config, rc: RecordCodec<T>, bs: seq<seq<T>>, b: seq<T>, last: bool, c: Chunk,
                               s0: int64, o0: int64, from: (int64, int64), to: (int64, int64))
  {
    && from == EndOf(cfg, rc, bs, s0, o0)
    && EncodePayload(cfg, rc, b).Some?
    && var p := EncodePayload(cfg, rc, b).value;
       c == BatchChunk(cfg, p, |b|, last, from.0, from.1) && to == (Wrap64(from.0 + 1), Wrap64(from.1 + |p|))
  }

  lemma SentOne<T>(cfg: Config, rc: RecordCodec<T>, bs: seq<seq<T>>, b: seq<T>, last: bool, c: Chunk,
                   chunks: seq<Chunk>, s0: int64, o0: int64, from: (int64, int64), to: (int64, int64))
    requires Carries(cfg, rc, bs, chunks, s0, o0, false) && NextChunk(cfg, rc, bs, b, last, c, s0, o0, from, to)
    ensures Carries(cfg, rc, bs + [b], chunks + [c], s0, o0, last) && to == EndOf(cfg, rc, bs + [b], s0, o0)
  {
    CarriesSnoc(cfg, rc, bs, chunks, s0, o0, b, last);
  }

  lemma EndedDropped<T>(cfg: Config, rc: RecordCodec<T>, all: seq<seq<T>>, bs: seq<seq<T>>, b: seq<T>, last: bool,
                        rest: seq<seq<T>>, c: Chunk, chunks: seq<Chunk>, s0: int64, o0: int64,
                        from: (int64, int64), to: (int64, int64))
    requires all == bs + ([b] + rest) && |chunks| == |bs|
    requires Carries(cfg, rc, bs, chunks, s0, o0, false) && NextChunk(cfg, rc, bs, b, last, c, s0, o0, from, to)
    ensures EndedAt(cfg, rc, all, chunks, Reach(|bs|, Stopped(true)), s0, o0, to)
  {
    BatchAt(all, bs, b, rest);
    assert to == EndOf(cfg, rc, bs + [b], s0, o0) by {
      SentOne(cfg, rc, bs, b, last, c, chunks, s0, o0, from, to);
    }
  }

  lemma EndedFinished<T>(cfg: Config, rc: RecordCodec<T>, all: seq<seq<T>>, bs: seq<seq<T>>, b: seq<T>,
                         c: Chunk, chunks: seq<Chunk>, s0: int64, o0: int64, from: (int64, int64), to: (int64, int64))
    requires all == bs + ([b] + []) && |chunks| == |bs|
    requires Carries(cfg, rc, bs, chunks, s0, o0, false) && NextChunk(cfg, rc, bs, b, true, c, s0, o0, from, to)
    ensures EndedAt(cfg, rc, all, chunks + [c], Reach(|bs| + 1, Finished), s0, o0, to)
  {
    BatchAt(all, bs, b, []);
    SentOne(cfg, rc, bs, b, true, c, chunks, s0, o0, from, to);
    assert all[..|bs| + 1] == bs + [b];
  }

  lemma BatchAt<T>(all: seq<seq<T>>, bs: seq<seq<T>>, b: seq<T>, rest: seq<seq<T>>)
    requires all == bs + ([b] + rest)
    ensures all[..|bs|] == bs && all[|bs|] == b && all[..|bs| + 1] == bs + [b]
    ensures rest == [] ==> all == bs + [b]
  {
  }

  lemma FailedPrefix<T>(rc: RecordCodec<T>, batch: seq<T>, i: nat)
    requires i <= |batch| && EncodeLines(rc, batch[..i]).None?
    ensures EncodeLines(rc, batch).None?
    decreases |batch| - i
  {
    if i == |batch| {
      assert batch[..i] == batch;
    } else {
      assert batch[..i + 1][..i] == batch[..i];
      FailedPrefix(rc, batch, i + 1);
    }
  }

  lemma NextSliceBatch<T>(items: seq<T>, size: nat, i: nat)
    requires size > 0 && i < |items|
    ensures SliceBatches(items[i..], size) ==
            if i + size >= |items| then [items[i..|items|]]
            else [items[i..i + size]] + SliceBatches(items[i + size..], size)
  {
    if i + size >= |items| {
      assert items[i..|items|] == items[i..];
    } else {
      assert items[i..][..size] == items[i..i + size] && items[i..][size..] == items[i + size..];
    }
  }

  /** The first batch is a full one; `rest` are those behind it. */
  lemma FirstChannelBatch<T>(batch: seq<T>, later: seq<T>, size: nat) returns (rest: seq<seq<T>>)
    requires size > 0 && |batch| == size
    ensures ChannelBatches(batch + later, size) == [batch] + rest
    ensures rest == ChannelBatches([] + later, size)
  {
    assert (batch + later)[..size] == batch && (batch + later)[size..] == later;
    assert [] + later == later;
    rest := ChannelBatches(later, size);
  }

  lemma BadLine<T>(rc: RecordCodec<T>, lines: seq<Bytes>, i: nat)
    requires i <= |lines| && DecodeLines(rc, lines[..i]).None?
    ensures DecodeLines(rc, lines).None?
    decreases |lines| - i
  {
    if i == |lines| {
      assert lines[..i] == lines;
    } else {
      assert lines[..i + 1][..i] == lines[..i];
      BadLine(rc, lines, i + 1);
    }
  }

  /** Receiver.DecodeChunk */
  method DecodeChunk<T>(rc: RecordCodec<T>, c: Chunk) returns (r: Option<seq<T>>)
    ensures r == Decode(rc, c)
  {
    if |c.data| == 0 {
      return Some([]);
    }
    if FormatOf(c) != NDJSON {
      return rc.unmarshalAll(c.data);
    }
    var items: seq<T> := [];
    var lines := Lines(c.data);
    for i := 0 to |lines|
      invariant DecodeLines(rc, lines[..i]) == Some(items)
    {
      assert lines[..i + 1] == lines[..i] + [lines[i]];
      DecodeLinesSnoc(rc, lines[..i], lines[i]);
      var line := rc.trim(lines[i]);
      if line == [] {
        continue;
      }
      var item := rc.unmarshal(line);
      if item.None? {
        BadLine(rc, lines, i + 1);
        return None;
      }
      items := items + [item.value];
    }
    assert lines[..|lines|] == lines;
    return Some(items);
  }
}
