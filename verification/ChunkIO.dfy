/** EncodeBinary and DecodeBinary as the code runs them: step by step over a writer and a reader. */
module ChunkIO {
  import opened Basics
  import opened BigEndian
  import opened Core
  import opened Codec

  /**
   * The io.Writer a frame goes to. Unless it is reliable, as a bytes.Buffer is, any write may fail after
   * taking any part of its bytes, even all of them.
   */
  class ByteSink {
    const reliable: bool
    var written: Bytes

    constructor (reliable: bool)
      ensures written == [] && this.reliable == reliable
    {
      this.reliable := reliable;
      written := [];
    }

    method Write(b: Bytes) returns (ok: bool)
      modifies this
      ensures Wrote(old(written), b, ok, written)
      ensures reliable ==> ok
    {
      ok := true;
      if !reliable {
        ok := *;
      }
      var n := |b|;
      if !ok {
        n :| 0 <= n <= |b|;
      }
      assert b[..|b|] == b;
      written := written + b[..n];
    }
  }

  /** After writing b behind `before`: all of it on success, some beginning of it otherwise. */
  ghost predicate Wrote(before: Bytes, b: Bytes, ok: bool, after: Bytes) {
    && before <= after <= before + b
    && (ok ==> after == before + b)
  }

  /** Writing a and then b, unless a already failed, is writing a + b. */
  lemma WroteBoth(s: Bytes, a: Bytes, t: Bytes, b: Bytes, ok: bool, u: Bytes)
    requires Wrote(s, a, true, t) && Wrote(t, b, ok, u)
    ensures Wrote(s, a + b, ok, u)
  {
    assert s + a + b == s + (a + b);
  }

  lemma WroteOnlyFirst(s: Bytes, a: Bytes, t: Bytes, b: Bytes)
    requires Wrote(s, a, false, t)
    ensures Wrote(s, a + b, false, t)
  {
    assert s + a + b == s + (a + b);
  }

  lemma {:induction false} PrintAllConcat<T>(print1: T -> Bytes, xs: seq<T>, ys: seq<T>)
    ensures PrintAll(print1, xs + ys) == PrintAll(print1, xs) + PrintAll(print1, ys)
    decreases |xs|
  {
    if xs == [] {
      assert xs + ys == ys;
    } else {
      assert (xs + ys)[1..] == xs[1..] + ys;
      PrintAllConcat(print1, xs[1..], ys);
    }
  }

  lemma OrderSnoc(order: seq<Bytes>, keys: set<Bytes>, k: Bytes)
    requires IsOrder(order, keys) && k !in keys
    ensures IsOrder(order + [k], keys + {k})
  {
    assert forall x :: x in order + [k] <==> x in order || x == k;
  }

  lemma EntriesConcat(m: map<Bytes, Bytes>, order: seq<Bytes>, more: seq<Bytes>)
    requires (forall x :: x in order ==> x in m) && (forall x :: x in more ==> x in m)
    ensures forall x :: x in order + more ==> x in m
    ensures EntriesBytes(Entries(m, order + more)) == EntriesBytes(Entries(m, order)) + EntriesBytes(Entries(m, more))
  {
    assert forall x :: x in order + more <==> x in order || x in more;
    assert Entries(m, order + more) == Entries(m, order) + Entries(m, more);
    PrintAllConcat(EntryBytes, Entries(m, order), Entries(m, more));
  }

  lemma OneEntry(m: map<Bytes, Bytes>, k: Bytes)
    requires k in m
    ensures EntriesBytes(Entries(m, [k])) == EntryBytes((k, m[k]))
  {
    var one := Entries(m, [k]);
    assert one[1..] == Entries(m, []);
    assert EntriesBytes(one) == EntryBytes(one[0]) + EntriesBytes(one[1..]);
    assert EntriesBytes(Entries(m, [])) == [];
  }

  lemma EntriesSnoc(m: map<Bytes, Bytes>, order: seq<Bytes>, k: Bytes)
    requires k in m && forall x :: x in order ==> x in m
    ensures forall x :: x in order + [k] ==> x in m
    ensures EntriesBytes(Entries(m, order + [k])) == EntriesBytes(Entries(m, order)) + EntryBytes((k, m[k]))
  {
    EntriesConcat(m, order, [k]);
    OneEntry(m, k);
  }

  /** Every set of keys can be walked in some order. */
  lemma {:induction false} SomeOrder(keys: set<Bytes>) returns (order: seq<Bytes>)
    ensures IsOrder(order, keys)
    decreases |keys|
  {
    if keys == {} {
      order := [];
    } else {
      var k :| k in keys;
      order := SomeOrder(keys - {k});
      OrderSnoc(order, keys - {k}, k);
      assert keys - {k} + {k} == keys;
      order := order + [k];
    }
  }

  lemma OrdersJoin(order: seq<Bytes>, keys: set<Bytes>, more: seq<Bytes>, others: set<Bytes>)
    requires IsOrder(order, keys) && IsOrder(more, others) && keys !! others
    ensures IsOrder(order + more, keys + others)
  {
    var all := order + more;
    assert forall x :: x in all <==> x in order || x in more;
    forall i, j | 0 <= i < j < |all|
      ensures all[i] != all[j]
    {
      if i < |order| <= j {
        assert all[i] in order && all[j] in more;
      }
    }
  }

  method EncodeEntry(k: Bytes, v: Bytes, w: ByteSink) returns (ok: bool)
    modifies w
    ensures Wrote(old(w.written), EntryBytes((k, v)), ok, w.written)
    ensures w.reliable ==> ok
  {
    ghost var start := w.written;
    ok := w.Write(Var16(k));
    if !ok {
      WroteOnlyFirst(start, Var16(k), w.written, Var16(v));
      return;
    }
    ghost var middle := w.written;
    ok := w.Write(Var16(v));
    WroteBoth(start, Var16(k), middle, Var16(v), ok, w.written);
  }

  /** An entry that could not be written leaves a beginning of the entries in an order that has it next. */
  lemma StoppedAt(m: map<Bytes, Bytes>, order: seq<Bytes>, done: set<Bytes>, k: Bytes, start: Bytes, written: Bytes)
    returns (full: seq<Bytes>)
    requires IsOrder(order, done) && done <= m.Keys && k in m && k !in done
    requires Wrote(start + EntriesBytes(Entries(m, order)), EntryBytes((k, m[k])), false, written)
    ensures IsOrder(full, m.Keys)
    ensures Wrote(start, EntriesBytes(Entries(m, full)), false, written)
  {
    var others := m.Keys - done - {k};
    var more := SomeOrder(others);
    OrderSnoc(order, done, k);
    OrdersJoin(order + [k], done + {k}, more, others);
    full := order + [k] + more;
    assert done + {k} + others == m.Keys;
    EntriesSnoc(m, order, k);
    EntriesConcat(m, order + [k], more);
    var before, e := EntriesBytes(Entries(m, order)), EntryBytes((k, m[k]));
    WroteBoth(start, before, start + before, e, false, written);
    WroteOnlyFirst(start, before + e, written, EntriesBytes(Entries(m, more)));
  }

  /** One turn of the metadata loop. */
  method EncodeNext(m: map<Bytes, Bytes>, k: Bytes, w: ByteSink, ghost order: seq<Bytes>, ghost done: set<Bytes>,
                    ghost start: Bytes)
    returns (ok: bool, ghost order': seq<Bytes>)
    requires IsOrder(order, done) && done <= m.Keys && k in m && k !in done
    requires w.written == start + EntriesBytes(Entries(m, order))
    modifies w
    ensures ok ==> IsOrder(order', done + {k}) && w.written == start + EntriesBytes(Entries(m, order'))
    ensures !ok ==> IsOrder(order', m.Keys) && Wrote(start, EntriesBytes(Entries(m, order')), false, w.written)
    ensures w.reliable ==> ok
  {
    ok := EncodeEntry(k, m[k], w);
    if ok {
      EntriesSnoc(m, order, k);
      assert w.written == start + (EntriesBytes(Entries(m, order)) + EntryBytes((k, m[k])));
      OrderSnoc(order, done, k);
      order' := order + [k];
    } else {
      order' := StoppedAt(m, order, done, k, start, w.written);
    }
  }

  /** The metadata loop: the map is walked in an order the code does not choose. */
  method EncodeEntries(m: map<Bytes, Bytes>, w: ByteSink) returns (ok: bool, ghost order: seq<Bytes>)
    modifies w
    ensures IsOrder(order, m.Keys)
    ensures Wrote(old(w.written), EntriesBytes(Entries(m, order)), ok, w.written)
    ensures w.reliable ==> ok
  {
    order := [];
    ghost var start := w.written;
    ghost var done: set<Bytes> := {};
    var todo := m.Keys;
    while todo != {}
      invariant done !! todo && done + todo == m.Keys
      invariant IsOrder(order, done)
      invariant w.written == start + EntriesBytes(Entries(m, order))
      decreases |todo|
    {
      var k :| k in todo;
      ok, order := EncodeNext(m, k, w, order, done, start);
      if !ok {
        return;
      }
      done := done + {k};
      todo := todo - {k};
    }
    assert done == m.Keys;
    ok := true;
  }

  method EncodeFront(c: Chunk, w: ByteSink) returns (ok: bool)
    modifies w
    ensures Wrote(old(w.written), FrontBytes(c), ok, w.written)
    ensures w.reliable ==> ok
  {
    ghost var start := w.written;
    ghost var rest := Var16(c.sessionID) + FixedBytes(c);
    ok := w.Write(MAGIC);
    if !ok {
      WroteOnlyFirst(start, MAGIC, w.written, rest);
      return;
    }
    ghost var s1 := w.written;
    ok := w.Write(Var16(c.sessionID));
    if !ok {
      WroteOnlyFirst(s1, Var16(c.sessionID), w.written, FixedBytes(c));
      WroteBoth(start, MAGIC, s1, rest, false, w.written);
      return;
    }
    ghost var s2 := w.written;
    ok := w.Write(FixedBytes(c));
    WroteBoth(s1, Var16(c.sessionID), s2, FixedBytes(c), ok, w.written);
    WroteBoth(start, MAGIC, s1, rest, ok, w.written);
  }

  method EncodeMetadata(m: map<Bytes, Bytes>, w: ByteSink) returns (ok: bool, ghost order: seq<Bytes>)
    modifies w
    ensures IsOrder(order, m.Keys)
    ensures Wrote(old(w.written), MetadataBytes(m, order), ok, w.written)
    ensures w.reliable ==> ok
  {
    ghost var start := w.written;
    ok := w.Write(PutUint(|m|, 2));
    if !ok {
      order := SomeOrder(m.Keys);
      WroteOnlyFirst(start, PutUint(|m|, 2), w.written, EntriesBytes(Entries(m, order)));
      return;
    }
    ghost var s1 := w.written;
    ok, order := EncodeEntries(m, w);
    WroteBoth(start, PutUint(|m|, 2), s1, EntriesBytes(Entries(m, order)), ok, w.written);
  }

  method EncodeBack(c: Chunk, w: ByteSink) returns (ok: bool, ghost order: seq<Bytes>)
    modifies w
    ensures IsOrder(order, c.metadata.Keys)
    ensures Wrote(old(w.written), BackBytes(c, order), ok, w.written)
    ensures w.reliable ==> ok
  {
    ghost var start := w.written;
    var sums := Var16(c.checksumBytes);
    ok := w.Write(sums);
    if !ok {
      order := SomeOrder(c.metadata.Keys);
      WroteOnlyFirst(start, sums, w.written, MetadataBytes(c.metadata, order) + PayloadBytes(c.data));
      return;
    }
    ghost var s1 := w.written;
    ok, order := EncodeMetadata(c.metadata, w);
    ghost var meta := MetadataBytes(c.metadata, order);
    if !ok {
      WroteOnlyFirst(s1, meta, w.written, PayloadBytes(c.data));
      WroteBoth(start, sums, s1, meta + PayloadBytes(c.data), false, w.written);
      return;
    }
    ghost var s2 := w.written;
    ok := w.Write(PayloadBytes(c.data));
    WroteBoth(s1, meta, s2, PayloadBytes(c.data), ok, w.written);
    WroteBoth(start, sums, s1, meta + PayloadBytes(c.data), ok, w.written);
  }

  /**
   * Chunk.EncodeBinary: one frame, its metadata in an order that is not the caller's choice; after a
   * failed write, a beginning of such a frame.
   */
  method EncodeBinary(c: Chunk, w: ByteSink) returns (ok: bool, ghost order: seq<Bytes>)
    modifies w
    ensures IsOrder(order, c.metadata.Keys)
    ensures Wrote(old(w.written), Frame(c, order), ok, w.written)
    ensures w.reliable ==> ok
  {
    ghost var start := w.written;
    ok := EncodeFront(c, w);
    if !ok {
      order := SomeOrder(c.metadata.Keys);
      WroteOnlyFirst(start, FrontBytes(c), w.written, BackBytes(c, order));
      return;
    }
    ghost var s1 := w.written;
    ok, order := EncodeBack(c, w);
    WroteBoth(start, FrontBytes(c), s1, BackBytes(c, order), ok, w.written);
  }

  /**
   * The io.Reader a frame comes from, behind io.ReadFull: only the unread bytes matter, and whether the
   * reader then reports an end of file or, like a broken connection, an error of its own.
   */
  class ByteSource {
    var rest: Bytes
    const faulty: bool

    constructor (bytes: Bytes, faulty: bool)
      ensures rest == bytes && this.faulty == faulty
    {
      rest := bytes;
      this.faulty := faulty;
    }

    method ReadFull(n: nat) returns (r: Result<Bytes>)
      modifies this
      ensures Yields(r, rest, Take(old(rest), n), faulty)
    {
      if n == 0 {
        return Ok([]);
      }
      if |rest| < n {
        var e := if faulty then ReadFailed else if rest == [] then EOF else UnexpectedEOF;
        rest := [];
        return Err(e);
      }
      r := Ok(rest[..n]);
      rest := rest[n..];
    }
  }

  datatype Result<+T> = Ok(value: T) | Err(error: Error)

  /** A faulty reader reports its fault wherever another one reports that the input has run out. */
  function SeenError(e: Error, faulty: bool): Error {
    if faulty && RanOut(e) then ReadFailed else e
  }

  /** A reading method did what the parser p says: same answer, same bytes left. */
  ghost predicate Yields<T>(r: Result<T>, rest: Bytes, p: Parse<T>, faulty: bool) {
    match p
    case Parsed(v, s) => r == Ok(v) && rest == s
    case Failed(e, s) => r == Err(SeenError(e, faulty)) && rest == s
  }

  method ReadVar16(src: ByteSource) returns (r: Result<Bytes>)
    modifies src
    ensures Yields(r, src.rest, TakeVar16(old(src.rest)), src.faulty)
  {
    r := src.ReadFull(2);
    if r.Ok? {
      r := src.ReadFull(GetUint(r.value));
    }
  }

  method ReadInt64(src: ByteSource) returns (r: Result<int64>)
    modifies src
    ensures Yields(r, src.rest, TakeInt64(old(src.rest)), src.faulty)
  {
    var b := src.ReadFull(8);
    r := match b case Ok(v) => Ok(GetInt64(v)) case Err(e) => Err(e);
  }

  method ReadByte(src: ByteSource) returns (r: Result<byte>)
    modifies src
    ensures Yields(r, src.rest, TakeByte(old(src.rest)), src.faulty)
  {
    var b := src.ReadFull(1);
    r := match b case Ok(v) => Ok(v[0]) case Err(e) => Err(e);
  }

  method ReadFixed(src: ByteSource) returns (r: Result<Fixed>)
    modifies src
    ensures Yields(r, src.rest, TakeFixed(old(src.rest)), src.faulty)
  {
    var sequence := ReadInt64(src);
    if sequence.Err? { return Err(sequence.error); }
    var offset := ReadInt64(src);
    if offset.Err? { return Err(offset.error); }
    var totalChunks := ReadInt64(src);
    if totalChunks.Err? { return Err(totalChunks.error); }
    var totalBytes := ReadInt64(src);
    if totalBytes.Err? { return Err(totalBytes.error); }
    var flags := ReadByte(src);
    if flags.Err? { return Err(flags.error); }
    var checksumType := ReadByte(src);
    if checksumType.Err? { return Err(checksumType.error); }
    var checksum := src.ReadFull(4);
    if checksum.Err? { return Err(checksum.error); }
    Widths();
    GetBound(checksum.value);
    r := Ok(Fixed(sequence.value, offset.value, totalChunks.value, totalBytes.value,
                  flags.value, checksumType.value, GetUint(checksum.value)));
  }

  method ReadEntry(src: ByteSource) returns (r: Result<(Bytes, Bytes)>)
    modifies src
    ensures Yields(r, src.rest, TakeEntry(old(src.rest)), src.faulty)
  {
    var k := ReadVar16(src);
    if k.Err? { return Err(k.error); }
    var v := ReadVar16(src);
    if v.Err? { return Err(v.error); }
    r := Ok((k.value, v.value));
  }

  lemma MapOfSnoc(entries: seq<(Bytes, Bytes)>, e: (Bytes, Bytes))
    ensures MapOf(entries + [e]) == MapOf(entries)[e.0 := e.1]
  {
    assert (entries + [e])[..|entries|] == entries;
  }

  ghost predicate YieldsMap(r: Result<map<Bytes, Bytes>>, rest: Bytes, p: Parse<seq<(Bytes, Bytes)>>, faulty: bool) {
    match p
    case Parsed(entries, s) => r == Ok(MapOf(entries)) && rest == s
    case Failed(e, s) => r == Err(SeenError(e, faulty)) && rest == s
  }

  /** The entries read so far, in the map, and what the rest of the input will make of them. */
  ghost predicate Midway(rest: Bytes, left: nat, m: map<Bytes, Bytes>, entries: seq<(Bytes, Bytes)>,
                         whole: Parse<seq<(Bytes, Bytes)>>) {
    m == MapOf(entries) && Repeat(TakeEntry, rest, left, entries) == whole
  }

  /** One turn of the entry loop. */
  method ReadNext(src: ByteSource, left: nat, m: map<Bytes, Bytes>, ghost entries: seq<(Bytes, Bytes)>,
                  ghost whole: Parse<seq<(Bytes, Bytes)>>)
    returns (r: Result<map<Bytes, Bytes>>, ghost more: seq<(Bytes, Bytes)>)
    requires left > 0 && Midway(src.rest, left, m, entries, whole)
    modifies src
    ensures match r
            case Ok(m') => Midway(src.rest, left - 1, m', more, whole)
            case Err(_) => YieldsMap(r, src.rest, whole, src.faulty)
  {
    RepeatOnce(TakeEntry, src.rest, left, entries);
    var e := ReadEntry(src);
    if e.Err? {
      return Err(e.error), [];
    }
    MapOfSnoc(entries, e.value);
    more := entries + [e.value];
    r := Ok(m[e.value.0 := e.value.1]);
  }

  lemma MidwayStart(rest: Bytes, n: nat)
    ensures Midway(rest, n, map[], [], Repeat(TakeEntry, rest, n, []))
  {
  }

  lemma MidwayDone(rest: Bytes, m: map<Bytes, Bytes>, entries: seq<(Bytes, Bytes)>,
                   whole: Parse<seq<(Bytes, Bytes)>>, faulty: bool)
    requires Midway(rest, 0, m, entries, whole)
    ensures YieldsMap(Ok(m), rest, whole, faulty)
  {
  }

  /** The entry loop, writing each pair into the map as it is read. */
  method ReadEntries(src: ByteSource, n: nat) returns (r: Result<map<Bytes, Bytes>>)
    modifies src
    ensures YieldsMap(r, src.rest, Repeat(TakeEntry, old(src.rest), n, []), src.faulty)
  {
    ghost var entries: seq<(Bytes, Bytes)> := [];
    ghost var whole := Repeat(TakeEntry, src.rest, n, []);
    var m: map<Bytes, Bytes> := map[];
    MidwayStart(src.rest, n);
    for i := 0 to n
      invariant Midway(src.rest, n - i, m, entries, whole)
    {
      r, entries := ReadNext(src, n - i, m, entries, whole);
      if r.Err? {
        return;
      }
      m := r.value;
    }
    MidwayDone(src.rest, m, entries, whole, src.faulty);
    r := Ok(m);
  }

  method ReadMetadata(src: ByteSource) returns (r: Result<map<Bytes, Bytes>>)
    modifies src
    ensures Yields(r, src.rest, TakeMetadata(old(src.rest)), src.faulty)
  {
    var count := src.ReadFull(2);
    if count.Err? { return Err(count.error); }
    r := ReadEntries(src, GetUint(count.value));
  }

  method ReadFront(src: ByteSource) returns (r: Result<Front>)
    modifies src
    ensures Yields(r, src.rest, TakeFront(old(src.rest)), src.faulty)
  {
    var magic := src.ReadFull(3);
    if magic.Err? { return Err(magic.error); }
    if magic.value[0] != MAGIC[0] || magic.value[1] != MAGIC[1] {
      assert magic.value[..2][0] == magic.value[0] && magic.value[..2][1] == magic.value[1];
      assert MAGIC[..2][0] == MAGIC[0] && MAGIC[..2][1] == MAGIC[1];
      return Err(InvalidMagicHeader);
    }
    assert magic.value[..2] == MAGIC[..2];
    if magic.value[2] != MAGIC[2] {
      return Err(UnsupportedVersion);
    }
    var sessionID := ReadVar16(src);
    if sessionID.Err? { return Err(sessionID.error); }
    var fixed := ReadFixed(src);
    if fixed.Err? { return Err(fixed.error); }
    r := Ok(Front(sessionID.value, fixed.value));
  }

  method ReadBack(src: ByteSource) returns (r: Result<Back>)
    modifies src
    ensures Yields(r, src.rest, TakeBack(old(src.rest)), src.faulty)
  {
    var checksumBytes := ReadVar16(src);
    if checksumBytes.Err? { return Err(checksumBytes.error); }
    var metadata := ReadMetadata(src);
    if metadata.Err? { return Err(metadata.error); }
    var length := src.ReadFull(4);
    if length.Err? { return Err(length.error); }
    var data := src.ReadFull(GetUint(length.value));
    if data.Err? { return Err(data.error); }
    r := Ok(Back(checksumBytes.value, metadata.value, data.value));
  }

  /** DecodeBinary: the parser's answer, and on success the reader stands exactly behind the frame. */
  method DecodeBinary(src: ByteSource) returns (r: Result<Chunk>)
    modifies src
    ensures Yields(r, src.rest, Decode(old(src.rest)), src.faulty)
  {
    var front := ReadFront(src);
    if front.Err? { return Err(front.error); }
    var back := ReadBack(src);
    if back.Err? { return Err(back.error); }
    r := Ok(Combine(front.value, back.value));
  }

  /** ToBytes: some iteration order of the metadata, and nothing besides the frame. */
  method ToBytes(c: Chunk) returns (bytes: Bytes)
    ensures exists order :: IsOrder(order, c.metadata.Keys) && bytes == Frame(c, order)
  {
    var w := new ByteSink(true);
    var ok;
    ghost var order;
    ok, order := EncodeBinary(c, w);
    assert w.written == Frame(c, order);
    bytes := w.written;
  }

  /** FromBytes undoes ToBytes exactly for the chunks within the limits; trailing bytes are ignored. */
  method FromBytes(bytes: Bytes) returns (r: Result<Chunk>)
    ensures r.Ok? ==> WithinLimits(r.value)
    ensures ForeignMagic(bytes) ==> r == Err(InvalidMagicHeader)
    ensures ForeignVersion(bytes) ==> r == Err(UnsupportedVersion)
    ensures r.Ok? ==> |bytes| >= 3 && bytes[..3] == [0x53, 0x47, 1]
    ensures forall c: Chunk, order, tail ::
              IsOrder(order, c.metadata.Keys) && WithinLimits(c) && bytes == Frame(c, order) + tail ==> r == Ok(c)
    ensures forall c: Chunk, order ::
              IsOrder(order, c.metadata.Keys) && WithinLimits(c) && bytes < Frame(c, order) ==>
                r == Err(CutError(FrameReads(c, order), |bytes|))
  {
    var src := new ByteSource(bytes, false);
    r := DecodeBinary(src);
    DecodeWithinLimits(bytes);
    DecodeErrors(bytes);
    forall c: Chunk, order, tail | IsOrder(order, c.metadata.Keys) && WithinLimits(c) && bytes == Frame(c, order) + tail
      ensures r == Ok(c)
    {
      FrameRoundTrip(c, order, tail);
    }
    forall c: Chunk, order | IsOrder(order, c.metadata.Keys) && WithinLimits(c) && bytes < Frame(c, order)
      ensures r == Err(CutError(FrameReads(c, order), |bytes|))
    {
      TruncatedFrameRunsOut(c, order, bytes);
    }
  }
}
