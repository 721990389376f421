/** The binary frame of a chunk as a printer and a parser over byte strings (pkg/core/chunk.go). */
module Codec {
  import opened Basics
  import opened BigEndian
  import opened Core

  // 'S', 'G', version 1.
  const MAGIC: Bytes := [0x53, 0x47, 0x01]

  // ---------------------------------------------------------------- printing

  function Var16(b: Bytes): Bytes {
    PutUint(|b|, 2) + b
  }

  /** One iteration order of a map with the given keys. */
  ghost predicate IsOrder(order: seq<Bytes>, keys: set<Bytes>) {
    && (forall i, j :: 0 <= i < j < |order| ==> order[i] != order[j])
    && (forall k :: k in order <==> k in keys)
  }

  function EntryBytes(e: (Bytes, Bytes)): Bytes {
    Var16(e.0) + Var16(e.1)
  }

  /** The entries of m listed in the given order. */
  function Entries(m: map<Bytes, Bytes>, order: seq<Bytes>): seq<(Bytes, Bytes)>
    requires forall k :: k in order ==> k in m
  {
    seq(|order|, i requires 0 <= i < |order| => (order[i], m[order[i]]))
  }

  function PrintAll<T>(print1: T -> Bytes, xs: seq<T>): Bytes {
    if xs == [] then [] else print1(xs[0]) + PrintAll(print1, xs[1..])
  }

  function EntriesBytes(entries: seq<(Bytes, Bytes)>): Bytes {
    PrintAll(EntryBytes, entries)
  }

  function FixedBytes(c: Chunk): Bytes {
    PutInt64(c.sequence) + (PutInt64(c.offset) + (PutInt64(c.totalChunks) + (PutInt64(c.totalBytes) +
    (PutUint(c.flags, 1) + (PutUint(c.checksumType, 1) + PutUint(c.checksum, 4))))))
  }

  /** The 32-bit length decides whether any payload is written at all. */
  function PayloadBytes(d: Bytes): Bytes {
    PutUint(|d|, 4) + (if |d| % 0x1_0000_0000 > 0 then d else [])
  }

  function FrontBytes(c: Chunk): Bytes {
    MAGIC + (Var16(c.sessionID) + FixedBytes(c))
  }

  ghost function MetadataBytes(m: map<Bytes, Bytes>, order: seq<Bytes>): Bytes
    requires IsOrder(order, m.Keys)
  {
    PutUint(|m|, 2) + EntriesBytes(Entries(m, order))
  }

  ghost function BackBytes(c: Chunk, order: seq<Bytes>): Bytes
    requires IsOrder(order, c.metadata.Keys)
  {
    Var16(c.checksumBytes) + (MetadataBytes(c.metadata, order) + PayloadBytes(c.data))
  }

  ghost function Frame(c: Chunk, order: seq<Bytes>): Bytes
    requires IsOrder(order, c.metadata.Keys)
  {
    FrontBytes(c) + BackBytes(c, order)
  }

  // ------------------------------------------------------------------ layout

  /** The bytes of f from position `at` on begin with b. */
  predicate At(f: Bytes, at: nat, b: Bytes) {
    at + |b| <= |f| && f[at..at + |b|] == b
  }

  lemma AtFront(a: Bytes, b: Bytes, at: nat, x: Bytes)
    requires At(a, at, x)
    ensures At(a + b, at, x)
  {
    assert (a + b)[at..at + |x|] == a[at..at + |x|];
  }

  lemma AtBack(a: Bytes, b: Bytes, at: nat, x: Bytes)
    requires At(b, at, x)
    ensures At(a + b, |a| + at, x)
  {
    assert (a + b)[|a| + at..|a| + at + |x|] == b[at..at + |x|];
  }

  lemma AtStart(a: Bytes, b: Bytes)
    ensures At(a + b, 0, a)
  {
    assert (a + b)[0..|a|] == a;
  }

  lemma FixedLayout(c: Chunk)
    ensures var f := FixedBytes(c);
            && |f| == 38
            && At(f, 0, PutInt64(c.sequence)) && At(f, 8, PutInt64(c.offset))
            && At(f, 16, PutInt64(c.totalChunks)) && At(f, 24, PutInt64(c.totalBytes))
            && At(f, 32, PutUint(c.flags, 1)) && At(f, 33, PutUint(c.checksumType, 1))
            && At(f, 34, PutUint(c.checksum, 4))
  {
  }

  lemma PrefixLayout(session: Bytes)
    ensures var a := MAGIC + Var16(session);
            && |a| == 5 + |session|
            && At(a, 0, [0x53, 0x47, 0x01]) && At(a, 3, PutUint(|session|, 2)) && At(a, 5, session)
  {
  }

  lemma HeaderParts(c: Chunk, back: Bytes)
    ensures FrontBytes(c) + back == MAGIC + Var16(c.sessionID) + (FixedBytes(c) + back)
  {
  }

  /** The fields before the checksum bytes, as they are printed, behind a session of n bytes. */
  lemma HeaderBytes(c: Chunk, order: seq<Bytes>)
    requires IsOrder(order, c.metadata.Keys)
    ensures var f, n := Frame(c, order), |c.sessionID|;
            && At(f, 0, [0x53, 0x47, 0x01])
            && At(f, 3, PutUint(n, 2)) && At(f, 5, c.sessionID)
            && At(f, 5 + n, PutInt64(c.sequence)) && At(f, 13 + n, PutInt64(c.offset))
            && At(f, 21 + n, PutInt64(c.totalChunks)) && At(f, 29 + n, PutInt64(c.totalBytes))
            && At(f, 37 + n, PutUint(c.flags, 1)) && At(f, 38 + n, PutUint(c.checksumType, 1))
            && At(f, 39 + n, PutUint(c.checksum, 4))
  {
    var fixed, back := FixedBytes(c), BackBytes(c, order);
    var a := MAGIC + Var16(c.sessionID);
    var b := fixed + back;
    HeaderParts(c, back);
    PrefixLayout(c.sessionID);
    AtFront(a, b, 0, [0x53, 0x47, 0x01]);
    AtFront(a, b, 3, PutUint(|c.sessionID|, 2));
    AtFront(a, b, 5, c.sessionID);
    FixedLayout(c);
    FixedAt(a, fixed, back, 0, PutInt64(c.sequence));
    FixedAt(a, fixed, back, 8, PutInt64(c.offset));
    FixedAt(a, fixed, back, 16, PutInt64(c.totalChunks));
    FixedAt(a, fixed, back, 24, PutInt64(c.totalBytes));
    FixedAt(a, fixed, back, 32, PutUint(c.flags, 1));
    FixedAt(a, fixed, back, 33, PutUint(c.checksumType, 1));
    FixedAt(a, fixed, back, 34, PutUint(c.checksum, 4));
  }

  /** Eight bytes of f, read as an unsigned number, are x or, for a negative x, x and 2^64. */
  ghost predicate HoldsInt64(f: Bytes, at: nat, x: int64) {
    at + 8 <= |f| && GetUint(f[at..at + 8]) == if x < 0 then x + 0x1_0000_0000_0000_0000 else x
  }

  lemma Int64Held(f: Bytes, at: nat, x: int64)
    requires At(f, at, PutInt64(x))
    ensures HoldsInt64(f, at, x)
  {
    TwosComplement(x);
  }

  lemma UintHeld(f: Bytes, at: nat, v: nat, width: nat)
    requires At(f, at, PutUint(v, width))
    ensures at + width <= |f| && GetUint(f[at..at + width]) == v % Pow256(width)
  {
    PutNarrows(v, width);
  }

  lemma TwoHeld(f: Bytes, at: nat, v: nat)
    requires At(f, at, PutUint(v, 2))
    ensures at + 2 <= |f| && GetUint(f[at..at + 2]) == v % 0x1_0000
  {
    Widths();
    UintHeld(f, at, v, 2);
  }

  lemma ChecksumHeld(f: Bytes, at: nat, v: uint32)
    requires At(f, at, PutUint(v, 4))
    ensures at + 4 <= |f| && GetUint(f[at..at + 4]) == v
  {
    Widths();
    UintHeld(f, at, v, 4);
  }

  lemma ByteHeld(f: Bytes, at: nat, v: byte)
    requires At(f, at, PutUint(v, 1))
    ensures at < |f| && f[at] == v
  {
    assert PutUint(v, 1)[0] == v;
    assert f[at..at + 1][0] == f[at];
  }

  /** The fields before the checksum bytes, by position behind a session of n bytes and by number. */
  lemma HeaderLayout(c: Chunk, order: seq<Bytes>)
    requires IsOrder(order, c.metadata.Keys)
    ensures var f, n := Frame(c, order), |c.sessionID|;
            && |f| >= 43 + n && f[..3] == [0x53, 0x47, 0x01]
            && GetUint(f[3..5]) == n % 0x1_0000 && f[5..5 + n] == c.sessionID
            && HoldsInt64(f, 5 + n, c.sequence) && HoldsInt64(f, 13 + n, c.offset)
            && HoldsInt64(f, 21 + n, c.totalChunks) && HoldsInt64(f, 29 + n, c.totalBytes)
            && f[37 + n] == c.flags && f[38 + n] == c.checksumType
            && GetUint(f[39 + n..43 + n]) == c.checksum
  {
    HeaderBytes(c, order);
    FieldsHeld(c, Frame(c, order), |c.sessionID|);
  }

  lemma FourHeld(c: Chunk, f: Bytes, n: nat)
    requires At(f, 5 + n, PutInt64(c.sequence)) && At(f, 13 + n, PutInt64(c.offset))
    requires At(f, 21 + n, PutInt64(c.totalChunks)) && At(f, 29 + n, PutInt64(c.totalBytes))
    ensures |f| >= 37 + n && HoldsInt64(f, 5 + n, c.sequence) && HoldsInt64(f, 13 + n, c.offset)
    ensures HoldsInt64(f, 21 + n, c.totalChunks) && HoldsInt64(f, 29 + n, c.totalBytes)
  {
    Int64Held(f, 5 + n, c.sequence);
    Int64Held(f, 13 + n, c.offset);
    Int64Held(f, 21 + n, c.totalChunks);
    Int64Held(f, 29 + n, c.totalBytes);
  }

  lemma FieldsHeld(c: Chunk, f: Bytes, n: nat)
    requires At(f, 0, [0x53, 0x47, 0x01]) && At(f, 3, PutUint(n, 2))
    requires At(f, 5 + n, PutInt64(c.sequence)) && At(f, 13 + n, PutInt64(c.offset))
    requires At(f, 21 + n, PutInt64(c.totalChunks)) && At(f, 29 + n, PutInt64(c.totalBytes))
    requires At(f, 37 + n, PutUint(c.flags, 1)) && At(f, 38 + n, PutUint(c.checksumType, 1))
    requires At(f, 39 + n, PutUint(c.checksum, 4))
    ensures |f| >= 43 + n && f[..3] == [0x53, 0x47, 0x01] && GetUint(f[3..5]) == n % 0x1_0000
    ensures HoldsInt64(f, 5 + n, c.sequence) && HoldsInt64(f, 13 + n, c.offset)
    ensures HoldsInt64(f, 21 + n, c.totalChunks) && HoldsInt64(f, 29 + n, c.totalBytes)
    ensures f[37 + n] == c.flags && f[38 + n] == c.checksumType && GetUint(f[39 + n..43 + n]) == c.checksum
  {
    TwoHeld(f, 3, n);
    FourHeld(c, f, n);
    ByteHeld(f, 37 + n, c.flags);
    ByteHeld(f, 38 + n, c.checksumType);
    ChecksumHeld(f, 39 + n, c.checksum);
  }

  lemma FixedAt(a: Bytes, fixed: Bytes, back: Bytes, at: nat, x: Bytes)
    requires At(fixed, at, x)
    ensures At(a + (fixed + back), |a| + at, x)
  {
    AtFront(fixed, back, at, x);
    AtBack(a, fixed + back, at, x);
  }

  /** Where entry i starts among the entries; for i == |entries|, where they end. */
  function EntryOffset(entries: seq<(Bytes, Bytes)>, i: nat): nat
    requires i <= |entries|
    decreases i
  {
    if i == 0 then 0 else 4 + |entries[0].0| + |entries[0].1| + EntryOffset(entries[1..], i - 1)
  }

  /** The length of the key, the key, the length of the value, the value. */
  ghost predicate EntryAt(f: Bytes, at: nat, e: (Bytes, Bytes)) {
    && At(f, at, PutUint(|e.0|, 2)) && At(f, at + 2, e.0)
    && At(f, at + 2 + |e.0|, PutUint(|e.1|, 2)) && At(f, at + 4 + |e.0|, e.1)
  }

  lemma EntryAtBack(a: Bytes, b: Bytes, at: nat, e: (Bytes, Bytes))
    requires EntryAt(b, at, e)
    ensures EntryAt(a + b, |a| + at, e)
  {
    AtBack(a, b, at, PutUint(|e.0|, 2));
    AtBack(a, b, at + 2, e.0);
    AtBack(a, b, at + 2 + |e.0|, PutUint(|e.1|, 2));
    AtBack(a, b, at + 4 + |e.0|, e.1);
  }

  lemma EntryAtFront(a: Bytes, b: Bytes, at: nat, e: (Bytes, Bytes))
    requires EntryAt(a, at, e)
    ensures EntryAt(a + b, at, e)
  {
    AtFront(a, b, at, PutUint(|e.0|, 2));
    AtFront(a, b, at + 2, e.0);
    AtFront(a, b, at + 2 + |e.0|, PutUint(|e.1|, 2));
    AtFront(a, b, at + 4 + |e.0|, e.1);
  }

  lemma EntryStart(e: (Bytes, Bytes), rest: Bytes)
    ensures EntryAt(EntryBytes(e) + rest, 0, e)
  {
    assert EntryAt(EntryBytes(e), 0, e);
    EntryAtFront(EntryBytes(e), rest, 0, e);
  }

  lemma {:induction false} EntryPosition(entries: seq<(Bytes, Bytes)>, i: nat)
    requires i < |entries|
    ensures EntryAt(EntriesBytes(entries), EntryOffset(entries, i), entries[i])
    decreases i
  {
    var first, rest := EntryBytes(entries[0]), EntriesBytes(entries[1..]);
    assert EntriesBytes(entries) == first + rest;
    if i == 0 {
      EntryStart(entries[0], rest);
    } else {
      EntryPosition(entries[1..], i - 1);
      EntryAtBack(first, rest, EntryOffset(entries[1..], i - 1), entries[i]);
    }
  }

  lemma {:induction false} EntriesEnd(entries: seq<(Bytes, Bytes)>)
    ensures EntryOffset(entries, |entries|) == |EntriesBytes(entries)|
    decreases |entries|
  {
    if entries != [] {
      EntriesEnd(entries[1..]);
      assert EntriesBytes(entries) == EntryBytes(entries[0]) + EntriesBytes(entries[1..]);
    }
  }

  /** The frame in front of the metadata entries. */
  function BeforeEntries(c: Chunk): (b: Bytes)
    ensures |b| == 47 + |c.sessionID| + |c.checksumBytes|
  {
    FixedLayout(c);
    FrontBytes(c) + (Var16(c.checksumBytes) + PutUint(|c.metadata|, 2))
  }

  lemma FrameParts(c: Chunk, order: seq<Bytes>)
    requires IsOrder(order, c.metadata.Keys)
    ensures Frame(c, order)
         == BeforeEntries(c) + (EntriesBytes(Entries(c.metadata, order)) + PayloadBytes(c.data))
  {
  }

  /**
   * Each metadata entry follows the ones listed before it, behind a session of n bytes, m checksum bytes
   * and 47 bytes more.
   */
  lemma EntryLayout(c: Chunk, order: seq<Bytes>, f: Bytes, i: nat)
    requires IsOrder(order, c.metadata.Keys) && f == Frame(c, order) && i < |order|
    ensures var n, m := |c.sessionID|, |c.checksumBytes|;
            EntryAt(f, 47 + n + m + EntryOffset(Entries(c.metadata, order), i), (order[i], c.metadata[order[i]]))
  {
    var entries := Entries(c.metadata, order);
    var before, b, after := BeforeEntries(c), EntriesBytes(entries), PayloadBytes(c.data);
    assert f == before + (b + after) by {
      FrameParts(c, order);
    }
    var at, e := EntryOffset(entries, i), entries[i];
    assert EntryAt(before + (b + after), |before| + at, e) by {
      EntryPosition(entries, i);
      EntryWithin(before, b, after, at, e);
    }
  }

  lemma EntryWithin(before: Bytes, b: Bytes, after: Bytes, at: nat, e: (Bytes, Bytes))
    requires EntryAt(b, at, e)
    ensures EntryAt(before + (b + after), |before| + at, e)
  {
    EntryAtFront(b, after, at, e);
    EntryAtBack(before, b + after, at, e);
  }

  lemma BeforeEntriesLayout(c: Chunk)
    ensures var b, n, m := BeforeEntries(c), |c.sessionID|, |c.checksumBytes|;
            && At(b, 43 + n, PutUint(m, 2)) && At(b, 45 + n, c.checksumBytes)
            && At(b, 45 + n + m, PutUint(|c.metadata|, 2))
  {
    var sums, count := Var16(c.checksumBytes), PutUint(|c.metadata|, 2);
    FixedLayout(c);
    assert At(sums, 0, PutUint(|c.checksumBytes|, 2)) && At(sums, 2, c.checksumBytes);
    FixedAt(FrontBytes(c), sums, count, 0, PutUint(|c.checksumBytes|, 2));
    FixedAt(FrontBytes(c), sums, count, 2, c.checksumBytes);
    assert At(sums + count, |sums|, count);
    AtBack(FrontBytes(c), sums + count, |sums|, count);
  }

  lemma PayloadPosition(before: Bytes, d: Bytes)
    ensures var sent := if |d| % 0x1_0000_0000 > 0 then d else [];
            var f := before + PayloadBytes(d);
            && At(f, |before|, PutUint(|d|, 4)) && At(f, |before| + 4, sent) && |f| == |before| + 4 + |sent|
  {
    var size, sent := PutUint(|d|, 4), if |d| % 0x1_0000_0000 > 0 then d else [];
    AtStart(size, sent);
    AtBack(before, size + sent, 0, size);
    assert At(size + sent, 4, sent);
    AtBack(before, size + sent, 4, sent);
  }

  /** The checksum bytes and the number of entries, then the entries, then the payload, which ends the frame. */
  lemma TrailerLayout(c: Chunk, order: seq<Bytes>)
    requires IsOrder(order, c.metadata.Keys)
    ensures var f, n, m := Frame(c, order), |c.sessionID|, |c.checksumBytes|;
            var end := 47 + n + m + EntryOffset(Entries(c.metadata, order), |order|);
            var sent := if |c.data| % 0x1_0000_0000 > 0 then c.data else [];
            && At(f, 43 + n, PutUint(m, 2)) && At(f, 45 + n, c.checksumBytes)
            && At(f, 45 + n + m, PutUint(|c.metadata|, 2))
            && At(f, end, PutUint(|c.data|, 4)) && At(f, end + 4, sent) && |f| == end + 4 + |sent|
  {
    var entries := Entries(c.metadata, order);
    var before, rest := BeforeEntries(c), EntriesBytes(entries) + PayloadBytes(c.data);
    assert Frame(c, order) == before + rest by {
      FrameParts(c, order);
    }
    BeforeEntriesLayout(c);
    AtFront(before, rest, 43 + |c.sessionID|, PutUint(|c.checksumBytes|, 2));
    AtFront(before, rest, 45 + |c.sessionID|, c.checksumBytes);
    AtFront(before, rest, 45 + |c.sessionID| + |c.checksumBytes|, PutUint(|c.metadata|, 2));
    PayloadBehind(before, entries, c.data);
  }

  lemma PayloadBehind(before: Bytes, entries: seq<(Bytes, Bytes)>, d: Bytes)
    ensures var f := before + (EntriesBytes(entries) + PayloadBytes(d));
            var end := |before| + EntryOffset(entries, |entries|);
            var sent := if |d| % 0x1_0000_0000 > 0 then d else [];
            At(f, end, PutUint(|d|, 4)) && At(f, end + 4, sent) && |f| == end + 4 + |sent|
  {
    EntriesEnd(entries);
    Regroup(before, EntriesBytes(entries), PayloadBytes(d));
    PayloadPosition(before + EntriesBytes(entries), d);
  }

  ghost predicate SmallEntries(m: map<Bytes, Bytes>) {
    forall k :: k in m ==> |k| < 0x1_0000 && |m[k]| < 0x1_0000
  }

  /** Every length field can hold the length it is given. */
  ghost predicate WithinLimits(c: Chunk) {
    && |c.sessionID| < 0x1_0000
    && |c.checksumBytes| < 0x1_0000
    && |c.metadata| < 0x1_0000
    && SmallEntries(c.metadata)
    && |c.data| < 0x1_0000_0000
  }

  // ----------------------------------------------------------------- parsing

  /** What a parser leaves behind: the unread input is known on failure as well. */
  datatype Parse<+T> = Parsed(value: T, rest: Bytes) | Failed(error: Error, rest: Bytes) {
    predicate IsFailure() {
      Failed?
    }

    function PropagateFailure<U>(): Parse<U>
      requires Failed?
    {
      Failed(error, rest)
    }

    function Extract(): (T, Bytes)
      requires Parsed?
    {
      (value, rest)
    }
  }

  /** io.ReadFull: EOF when nothing was left, UnexpectedEOF when the input ran out half-way. */
  function Take(s: Bytes, n: nat): Parse<Bytes> {
    if n == 0 then Parsed([], s)
    else if s == [] then Failed(EOF, [])
    else if |s| < n then Failed(UnexpectedEOF, [])
    else Parsed(s[..n], s[n..])
  }

  function TakeUint(s: Bytes, width: nat): Parse<nat> {
    var (b, s1) :- Take(s, width);
    Parsed(GetUint(b), s1)
  }

  function TakeByte(s: Bytes): Parse<byte> {
    var (b, s1) :- Take(s, 1);
    Parsed(b[0], s1)
  }

  function TakeUint32(s: Bytes): Parse<uint32> {
    var (b, s1) :- Take(s, 4);
    Widths();
    GetBound(b);
    Parsed(GetUint(b), s1)
  }

  function TakeInt64(s: Bytes): Parse<int64> {
    var (b, s1) :- Take(s, 8);
    Parsed(GetInt64(b), s1)
  }

  /** A byte string preceded by its length in `width` bytes. */
  function TakeVar(s: Bytes, width: nat): Parse<Bytes> {
    var (n, s1) :- TakeUint(s, width);
    Take(s1, n)
  }

  function TakeVar16(s: Bytes): Parse<Bytes> {
    TakeVar(s, 2)
  }

  function TakeMagic(s: Bytes): Parse<()> {
    var (b, s1) :- Take(s, 3);
    if b[..2] != MAGIC[..2] then Failed(InvalidMagicHeader, s1)
    else if b[2] != MAGIC[2] then Failed(UnsupportedVersion, s1)
    else Parsed((), s1)
  }

  datatype Fixed = Fixed(
    sequence: int64,
    offset: int64,
    totalChunks: int64,
    totalBytes: int64,
    flags: byte,
    checksumType: byte,
    checksum: uint32)

  function TakeFixed(s: Bytes): Parse<Fixed> {
    var (sequence, s1) :- TakeInt64(s);
    var (offset, s2) :- TakeInt64(s1);
    var (totalChunks, s3) :- TakeInt64(s2);
    var (totalBytes, s4) :- TakeInt64(s3);
    var (flags, s5) :- TakeByte(s4);
    var (checksumType, s6) :- TakeByte(s5);
    var (checksum, s7) :- TakeUint32(s6);
    Parsed(Fixed(sequence, offset, totalChunks, totalBytes, flags, checksumType, checksum), s7)
  }

  function TakeEntry(s: Bytes): Parse<(Bytes, Bytes)> {
    var (k, s1) :- TakeVar16(s);
    var (v, s2) :- TakeVar16(s1);
    Parsed((k, v), s2)
  }

  /** p applied `count` times, its results appended to acc. */
  function Repeat<T>(p: Bytes -> Parse<T>, s: Bytes, count: nat, acc: seq<T>): Parse<seq<T>>
    decreases count
  {
    if count == 0 then Parsed(acc, s)
    else
      match p(s)
      case Failed(e, r) => Failed(e, r)
      case Parsed(v, r) => Repeat(p, r, count - 1, acc + [v])
  }

  /** A later entry replaces an earlier one with the same key. */
  function MapOf(entries: seq<(Bytes, Bytes)>): map<Bytes, Bytes> {
    if entries == [] then map[]
    else
      var last := entries[|entries| - 1];
      MapOf(entries[..|entries| - 1])[last.0 := last.1]
  }

  function TakeMetadata(s: Bytes): Parse<map<Bytes, Bytes>> {
    var (count, s1) :- TakeUint(s, 2);
    var (entries, s2) :- Repeat(TakeEntry, s1, count, []);
    Parsed(MapOf(entries), s2)
  }

  function TakePayload(s: Bytes): Parse<Bytes> {
    TakeVar(s, 4)
  }

  datatype Front = Front(sessionID: Bytes, fixed: Fixed)

  function TakeFront(s: Bytes): Parse<Front> {
    var (_, s1) :- TakeMagic(s);
    var (sessionID, s2) :- TakeVar16(s1);
    var (fixed, s3) :- TakeFixed(s2);
    Parsed(Front(sessionID, fixed), s3)
  }

  datatype Back = Back(checksumBytes: Bytes, metadata: map<Bytes, Bytes>, data: Bytes)

  function TakeBack(s: Bytes): Parse<Back> {
    var (checksumBytes, s1) :- TakeVar16(s);
    var (metadata, s2) :- TakeMetadata(s1);
    var (data, s3) :- TakePayload(s2);
    Parsed(Back(checksumBytes, metadata, data), s3)
  }

  function Combine(f: Front, b: Back): Chunk {
    Chunk(f.sessionID, f.fixed.sequence, f.fixed.offset, f.fixed.totalChunks, f.fixed.totalBytes, b.data,
          f.fixed.checksum, b.checksumBytes, f.fixed.checksumType, f.fixed.flags, b.metadata)
  }

  function Decode(s: Bytes): Parse<Chunk> {
    var (front, s1) :- TakeFront(s);
    var (back, s2) :- TakeBack(s1);
    Parsed(Combine(front, back), s2)
  }

  // -------------------------------------------------------------- round trip

  lemma TakeOwn(b: Bytes, r: Bytes)
    ensures Take(b + r, |b|) == Parsed(b, r)
  {
    assert (b + r)[..|b|] == b && (b + r)[|b|..] == r;
    if |b| > 0 {
      assert (b + r)[0] == b[0];
    }
  }

  lemma TakeOwnUint(v: nat, width: nat, r: Bytes)
    requires v < Pow256(width)
    ensures TakeUint(PutUint(v, width) + r, width) == Parsed(v, r)
  {
    TakeOwn(PutUint(v, width), r);
    GetAfterPut(v, width);
  }

  lemma TakeOwnInt64(x: int64, r: Bytes)
    ensures TakeInt64(PutInt64(x) + r) == Parsed(x, r)
  {
    TakeOwn(PutInt64(x), r);
    Int64RoundTrip(x);
  }

  lemma TakeOwnVar(b: Bytes, width: nat, r: Bytes)
    requires |b| < Pow256(width)
    ensures TakeVar(PutUint(|b|, width) + b + r, width) == Parsed(b, r)
  {
    assert PutUint(|b|, width) + b + r == PutUint(|b|, width) + (b + r);
    TakeOwnUint(|b|, width, b + r);
    TakeOwn(b, r);
  }

  lemma TakeOwnVar16(b: Bytes, r: Bytes)
    requires |b| < 0x1_0000
    ensures TakeVar16(Var16(b) + r) == Parsed(b, r)
  {
    Widths();
    TakeOwnVar(b, 2, r);
  }

  lemma TakeOwnByte(b: byte, r: Bytes)
    ensures TakeByte(PutUint(b, 1) + r) == Parsed(b, r)
  {
    TakeOwn(PutUint(b, 1), r);
    assert PutUint(b, 1) == [b] by {
      assert PutUint(b / 256, 0) == [];
    }
  }

  lemma TakeOwnFixed(c: Chunk, r: Bytes)
    ensures TakeFixed(FixedBytes(c) + r)
         == Parsed(Fixed(c.sequence, c.offset, c.totalChunks, c.totalBytes, c.flags, c.checksumType, c.checksum), r)
  {
    var r7 := PutUint(c.checksum, 4) + r;
    var r6 := PutUint(c.checksumType, 1) + r7;
    var r5 := PutUint(c.flags, 1) + r6;
    var r4 := PutInt64(c.totalBytes) + r5;
    var r3 := PutInt64(c.totalChunks) + r4;
    var r2 := PutInt64(c.offset) + r3;
    assert FixedBytes(c) + r == PutInt64(c.sequence) + r2;
    TakeOwnInt64(c.sequence, r2);
    TakeOwnInt64(c.offset, r3);
    TakeOwnInt64(c.totalChunks, r4);
    TakeOwnInt64(c.totalBytes, r5);
    TakeOwnByte(c.flags, r6);
    TakeOwnByte(c.checksumType, r7);
    Widths();
    TakeOwnUint(c.checksum, 4, r);
  }

  lemma TakeOwnEntry(k: Bytes, v: Bytes, r: Bytes)
    requires |k| < 0x1_0000 && |v| < 0x1_0000
    ensures TakeEntry(EntryBytes((k, v)) + r) == Parsed((k, v), r)
  {
    assert EntryBytes((k, v)) + r == Var16(k) + (Var16(v) + r);
    TakeOwnVar16(k, Var16(v) + r);
    TakeOwnVar16(v, r);
  }

  lemma {:induction false} RepeatOwn<T(!new)>(p: Bytes -> Parse<T>, print1: T -> Bytes, xs: seq<T>,
                                              acc: seq<T>, r: Bytes)
    requires forall x, q :: x in xs ==> p(print1(x) + q) == Parsed(x, q)
    ensures Repeat(p, PrintAll(print1, xs) + r, |xs|, acc) == Parsed(acc + xs, r)
    decreases |xs|
  {
    if xs == [] {
      assert PrintAll(print1, xs) + r == r;
      assert acc + xs == acc;
    } else {
      var x, rest := xs[0], xs[1..];
      var tail := PrintAll(print1, rest) + r;
      assert PrintAll(print1, xs) + r == print1(x) + tail;
      assert p(print1(x) + tail) == Parsed(x, tail);
      RepeatOwn(p, print1, rest, acc + [x], r);
      assert acc + [x] + rest == acc + xs;
    }
  }

  /** Listing a map in any order and rebuilding it gives the map. */
  lemma {:induction false} MapOfEntries(m: map<Bytes, Bytes>, order: seq<Bytes>)
    requires forall k :: k in order ==> k in m
    ensures MapOf(Entries(m, order)) == map k | k in order :: m[k]
    decreases |order|
  {
    if order != [] {
      var n := |order| - 1;
      assert Entries(m, order)[..n] == Entries(m, order[..n]);
      MapOfEntries(m, order[..n]);
      assert forall k :: k in order <==> k in order[..n] || k == order[n];
    }
  }

  lemma {:induction false} OrderLength(order: seq<Bytes>, keys: set<Bytes>)
    requires IsOrder(order, keys)
    ensures |order| == |keys|
    decreases |order|
  {
    if order == [] {
      assert keys == {};
    } else {
      assert forall k :: k in order[1..] <==> k in order && k != order[0];
      OrderLength(order[1..], keys - {order[0]});
    }
  }

  /** The number of entries and the entries, as they lie in a frame, whatever their keys. */
  function Table(entries: seq<(Bytes, Bytes)>): Bytes {
    PutUint(|entries|, 2) + EntriesBytes(entries)
  }

  lemma TakeOwnTable(entries: seq<(Bytes, Bytes)>, r: Bytes)
    requires |entries| < 0x1_0000 && forall e :: e in entries ==> SmallEntry(e)
    ensures TakeMetadata(Table(entries) + r) == Parsed(MapOf(entries), r)
  {
    Widths();
    var body := EntriesBytes(entries) + r;
    Regroup(PutUint(|entries|, 2), EntriesBytes(entries), r);
    TakeOwnUint(|entries|, 2, body);
    forall e, q | e in entries
      ensures TakeEntry(EntryBytes(e) + q) == Parsed(e, q)
    {
      TakeOwnEntry(e.0, e.1, q);
    }
    RepeatOwn(TakeEntry, EntryBytes, entries, [], r);
    assert [] + entries == entries;
  }

  lemma TakeOwnMetadata(m: map<Bytes, Bytes>, order: seq<Bytes>, r: Bytes)
    requires IsOrder(order, m.Keys) && |m| < 0x1_0000 && SmallEntries(m)
    ensures TakeMetadata(MetadataBytes(m, order) + r) == Parsed(m, r)
  {
    OrderLength(order, m.Keys);
    assert |m| == |m.Keys|;
    TakeOwnTable(Entries(m, order), r);
    MapOfEntries(m, order);
    assert (map k | k in order :: m[k]) == m;
  }

  lemma TakeOwnPayload(d: Bytes, r: Bytes)
    requires |d| < 0x1_0000_0000
    ensures TakePayload(PayloadBytes(d) + r) == Parsed(d, r)
  {
    Widths();
    TakeOwnVar(d, 4, r);
  }

  lemma TakeOwnFront(c: Chunk, r: Bytes)
    requires |c.sessionID| < 0x1_0000
    ensures TakeFront(FrontBytes(c) + r)
         == Parsed(Front(c.sessionID, Fixed(c.sequence, c.offset, c.totalChunks, c.totalBytes,
                                            c.flags, c.checksumType, c.checksum)), r)
  {
    var r3 := FixedBytes(c) + r;
    var r2 := Var16(c.sessionID) + r3;
    assert FrontBytes(c) + r == MAGIC + r2;
    TakeOwn(MAGIC, r2);
    TakeOwnVar16(c.sessionID, r3);
    TakeOwnFixed(c, r);
  }

  lemma TakeOwnBack(c: Chunk, order: seq<Bytes>, r: Bytes)
    requires IsOrder(order, c.metadata.Keys) && WithinLimits(c)
    ensures TakeBack(BackBytes(c, order) + r) == Parsed(Back(c.checksumBytes, c.metadata, c.data), r)
  {
    var r6 := PayloadBytes(c.data) + r;
    var r5 := MetadataBytes(c.metadata, order) + r6;
    assert BackBytes(c, order) + r == Var16(c.checksumBytes) + r5;
    TakeOwnVar16(c.checksumBytes, r5);
    TakeOwnMetadata(c.metadata, order, r6);
    TakeOwnPayload(c.data, r);
  }

  lemma DecodeParts(s: Bytes, f: Front, s1: Bytes, b: Back, s2: Bytes)
    requires TakeFront(s) == Parsed(f, s1) && TakeBack(s1) == Parsed(b, s2)
    ensures Decode(s) == Parsed(Combine(f, b), s2)
  {
  }

  lemma Regroup(a: Bytes, b: Bytes, c: Bytes)
    ensures a + b + c == a + (b + c)
  {
  }

  /** A frame followed by anything decodes to its chunk and leaves exactly what followed. */
  lemma FrameRoundTrip(c: Chunk, order: seq<Bytes>, r: Bytes)
    requires IsOrder(order, c.metadata.Keys) && WithinLimits(c)
    ensures Decode(Frame(c, order) + r) == Parsed(c, r)
  {
    var back := BackBytes(c, order);
    Regroup(FrontBytes(c), back, r);
    TakeOwnFront(c, back + r);
    TakeOwnBack(c, order, r);
    var f := Front(c.sessionID, Fixed(c.sequence, c.offset, c.totalChunks, c.totalBytes,
                                      c.flags, c.checksumType, c.checksum));
    DecodeParts(Frame(c, order) + r, f, back + r, Back(c.checksumBytes, c.metadata, c.data), r);
  }

  /** The map holds the keys of the entries and nothing else, each with the value of its last entry. */
  ghost predicate LastWins(m: map<Bytes, Bytes>, entries: seq<(Bytes, Bytes)>) {
    && (forall k :: k in m ==> exists i :: 0 <= i < |entries| && entries[i].0 == k)
    && (forall i :: 0 <= i < |entries| ==> entries[i].0 in m)
    && (forall i :: 0 <= i < |entries| && (forall j :: i < j < |entries| ==> entries[j].0 != entries[i].0) ==>
          entries[i].0 in m && m[entries[i].0] == entries[i].1)
  }

  lemma {:induction false} LastEntryWins(entries: seq<(Bytes, Bytes)>)
    ensures LastWins(MapOf(entries), entries)
    decreases |entries|
  {
    if entries != [] {
      var n := |entries| - 1;
      var front, last := entries[..n], entries[n];
      LastEntryWins(front);
      var m := MapOf(entries);
      assert m == MapOf(front)[last.0 := last.1];
      forall k | k in m
        ensures exists i :: 0 <= i < |entries| && entries[i].0 == k
      {
        if k == last.0 {
          assert entries[n].0 == k;
        } else {
          var i :| 0 <= i < n && front[i].0 == k;
          assert entries[i].0 == k;
        }
      }
      forall i | 0 <= i < |entries|
        ensures entries[i].0 in m
        ensures (forall j :: i < j < |entries| ==> entries[j].0 != entries[i].0) ==> m[entries[i].0] == entries[i].1
      {
        if i < n {
          assert front[i].0 in MapOf(front);
          if forall j :: i < j < |entries| ==> entries[j].0 != entries[i].0 {
            assert entries[n].0 != entries[i].0;
            assert forall j :: i < j < n ==> front[j].0 == entries[j].0;
          }
        }
      }
    }
  }

  /** A frame of some other encoder, which may list a key more than once: the last of its values is the one kept. */
  lemma RepeatedKeys(c: Chunk, entries: seq<(Bytes, Bytes)>, r: Bytes) returns (m: map<Bytes, Bytes>)
    requires |c.sessionID| < 0x1_0000 && |c.checksumBytes| < 0x1_0000 && |c.data| < 0x1_0000_0000
    requires |entries| < 0x1_0000 && forall e :: e in entries ==> SmallEntry(e)
    ensures var back := Var16(c.checksumBytes) + (Table(entries) + PayloadBytes(c.data));
            Decode(FrontBytes(c) + (back + r)) == Parsed(c.(metadata := m), r)
    ensures LastWins(m, entries)
  {
    m := MapOf(entries);
    LastEntryWins(entries);
    var back := Var16(c.checksumBytes) + (Table(entries) + PayloadBytes(c.data));
    TakeOwnFront(c, back + r);
    var f := Front(c.sessionID, Fixed(c.sequence, c.offset, c.totalChunks, c.totalBytes,
                                      c.flags, c.checksumType, c.checksum));
    TakeOwnListed(c, entries, r);
    DecodeParts(FrontBytes(c) + (back + r), f, back + r, Back(c.checksumBytes, m, c.data), r);
  }

  lemma TakeOwnListed(c: Chunk, entries: seq<(Bytes, Bytes)>, r: Bytes)
    requires |c.checksumBytes| < 0x1_0000 && |c.data| < 0x1_0000_0000
    requires |entries| < 0x1_0000 && forall e :: e in entries ==> SmallEntry(e)
    ensures var back := Var16(c.checksumBytes) + (Table(entries) + PayloadBytes(c.data));
            TakeBack(back + r) == Parsed(Back(c.checksumBytes, MapOf(entries), c.data), r)
  {
    var r6 := PayloadBytes(c.data) + r;
    Regroup(Table(entries), PayloadBytes(c.data), r);
    Regroup(Var16(c.checksumBytes), Table(entries) + PayloadBytes(c.data), r);
    TakeOwnVar16(c.checksumBytes, Table(entries) + r6);
    TakeOwnTable(entries, r6);
    TakeOwnPayload(c.data, r);
  }

  // ----------------------------------------------- what the decoder can return

  lemma TakeVarBound(s: Bytes, width: nat)
    ensures TakeVar(s, width).Parsed? ==> |TakeVar(s, width).value| < Pow256(width)
  {
    if TakeUint(s, width).Parsed? {
      GetBound(Take(s, width).value);
    }
  }

  lemma TakeVar16Bound(s: Bytes)
    ensures TakeVar16(s).Parsed? ==> |TakeVar16(s).value| < 0x1_0000
  {
    Widths();
    TakeVarBound(s, 2);
  }

  lemma {:induction false} RepeatBound<T>(p: Bytes -> Parse<T>, good: T -> bool, s: Bytes, count: nat, acc: seq<T>)
    requires forall x :: p(x).Parsed? ==> good(p(x).value)
    requires forall v :: v in acc ==> good(v)
    ensures var r := Repeat(p, s, count, acc);
            r.Parsed? ==> |r.value| == |acc| + count && forall v :: v in r.value ==> good(v)
    decreases count
  {
    if count > 0 && p(s).Parsed? {
      RepeatBound(p, good, p(s).rest, count - 1, acc + [p(s).value]);
    }
  }

  predicate SmallEntry(e: (Bytes, Bytes)) {
    |e.0| < 0x1_0000 && |e.1| < 0x1_0000
  }

  lemma TakeEntryBound(s: Bytes)
    ensures TakeEntry(s).Parsed? ==> SmallEntry(TakeEntry(s).value)
  {
    TakeVar16Bound(s);
    if TakeVar16(s).Parsed? {
      TakeVar16Bound(TakeVar16(s).rest);
    }
  }

  lemma {:induction false} MapOfBound(entries: seq<(Bytes, Bytes)>)
    requires forall e :: e in entries ==> SmallEntry(e)
    ensures |MapOf(entries)| <= |entries| && SmallEntries(MapOf(entries))
    decreases |entries|
  {
    if entries != [] {
      var front, last := entries[..|entries| - 1], entries[|entries| - 1];
      MapOfBound(front);
      assert MapOf(entries).Keys == MapOf(front).Keys + {last.0};
      assert |MapOf(front).Keys| == |MapOf(front)|;
      assert |MapOf(entries).Keys| == |MapOf(entries)|;
      assert last in entries;
    }
  }

  lemma TakeMetadataBound(s: Bytes)
    ensures var p := TakeMetadata(s); p.Parsed? ==> |p.value| < 0x1_0000 && SmallEntries(p.value)
  {
    var n := TakeUint(s, 2);
    if n.Parsed? {
      assert n.value < 0x1_0000 by {
        Widths();
        GetBound(Take(s, 2).value);
      }
      forall x
        ensures TakeEntry(x).Parsed? ==> SmallEntry(TakeEntry(x).value)
      {
        TakeEntryBound(x);
      }
      RepeatBound(TakeEntry, SmallEntry, n.rest, n.value, []);
      var entries := Repeat(TakeEntry, n.rest, n.value, []);
      if entries.Parsed? {
        MapOfBound(entries.value);
      }
    }
  }

  lemma TakePayloadBound(s: Bytes)
    ensures TakePayload(s).Parsed? ==> |TakePayload(s).value| < 0x1_0000_0000
  {
    Widths();
    TakeVarBound(s, 4);
  }

  lemma TakeBackBound(s: Bytes)
    ensures var p := TakeBack(s);
            p.Parsed? ==> |p.value.checksumBytes| < 0x1_0000 && |p.value.metadata| < 0x1_0000
                          && SmallEntries(p.value.metadata) && |p.value.data| < 0x1_0000_0000
  {
    var c := TakeVar16(s);
    if c.Parsed? {
      TakeVar16Bound(s);
      TakeMetadataBound(c.rest);
      if TakeMetadata(c.rest).Parsed? {
        TakePayloadBound(TakeMetadata(c.rest).rest);
      }
    }
  }

  /** Whatever bytes it is given, the decoder only returns chunks the encoder can represent. */
  lemma DecodeWithinLimits(s: Bytes)
    ensures Decode(s).Parsed? ==> WithinLimits(Decode(s).value)
  {
    var front := TakeFront(s);
    if front.Parsed? {
      TakeVar16Bound(TakeMagic(s).rest);
      TakeBackBound(front.rest);
    }
  }

  /** Re-encoding an accepted chunk, in any order, and decoding it again changes nothing. */
  lemma DecodeNormalises(s: Bytes, order: seq<Bytes>, r: Bytes)
    requires Decode(s).Parsed? && IsOrder(order, Decode(s).value.metadata.Keys)
    ensures Decode(Frame(Decode(s).value, order) + r) == Parsed(Decode(s).value, r)
  {
    DecodeWithinLimits(s);
    FrameRoundTrip(Decode(s).value, order, r);
  }

  /** Exactly when encoding and decoding gives the chunk back: no length may be narrowed. */
  lemma RoundTripIffWithinLimits(c: Chunk, order: seq<Bytes>)
    requires IsOrder(order, c.metadata.Keys)
    ensures Decode(Frame(c, order)) == Parsed(c, []) <==> WithinLimits(c)
  {
    DecodeWithinLimits(Frame(c, order));
    if WithinLimits(c) {
      FrameRoundTrip(c, order, []);
      assert Frame(c, order) + [] == Frame(c, order);
    }
  }

  lemma ZeroLength(s: Bytes)
    requires |s| >= 2 && s[..2] == PutUint(0x1_0000, 2)
    ensures TakeVar16(s) == Parsed([], s[2..])
  {
    assert PutUint(0x1_0000, 2) == [0, 0] by {
      assert PutUint(0x100, 1) == [0] && PutUint(1, 0) == [];
    }
    assert GetUint([0, 0]) == 0;
  }

  /** The length of a session of 65,536 bytes is written as zero: the session is read as empty. */
  lemma OversizedSession(c: Chunk, order: seq<Bytes>)
    requires IsOrder(order, c.metadata.Keys) && |c.sessionID| == 0x1_0000
    ensures var f := Frame(c, order);
            && |f| > 5 && TakeVar16(f[3..]) == Parsed([], f[5..]) && At(f, 5, c.sessionID)
            && Decode(f) != Parsed(c, [])
  {
    var f := Frame(c, order);
    assert At(f, 3, PutUint(0x1_0000, 2)) && At(f, 5, c.sessionID) by {
      HeaderBytes(c, order);
    }
    ZeroLength(f[3..]);
    RoundTripIffWithinLimits(c, order);
  }

  const OVERSIZED: Chunk := Chunk(seq(0x1_0000, _ => 65), 0, 0, 1, 0, [], 0, [], 0, FLAG_IS_LAST, map[])

  /** Such a chunk, and its one frame. */
  lemma OversizedIsMisread()
    ensures IsOrder([], OVERSIZED.metadata.Keys) && Decode(Frame(OVERSIZED, [])) != Parsed(OVERSIZED, [])
  {
    OversizedSession(OVERSIZED, []);
  }

  // -------------------------------------------------------------- truncation

  predicate RanOut(e: Error) {
    e == EOF || e == UnexpectedEOF
  }

  /** Appending q to the input changes a parser's answer only if it had run out of input. */
  ghost predicate Stable<T(!new)>(before: Parse<T>, after: Parse<T>, q: Bytes) {
    match before
    case Parsed(v, r) => after == Parsed(v, r + q)
    case Failed(e, r) => RanOut(e) || after == Failed(e, r + q)
  }

  lemma TakeStable(s: Bytes, n: nat, q: Bytes)
    ensures Stable(Take(s, n), Take(s + q, n), q)
  {
    if 0 < n <= |s| {
      assert (s + q)[..n] == s[..n] && (s + q)[n..] == s[n..] + q;
      assert (s + q)[0] == s[0];
    }
  }

  lemma TakeVarStable(s: Bytes, width: nat, q: Bytes)
    ensures Stable(TakeVar(s, width), TakeVar(s + q, width), q)
  {
    TakeStable(s, width, q);
    var n := TakeUint(s, width);
    if n.Parsed? {
      TakeStable(n.rest, n.value, q);
    }
  }

  lemma TakeVar16Stable(s: Bytes, q: Bytes)
    ensures Stable(TakeVar16(s), TakeVar16(s + q), q)
  {
    TakeVarStable(s, 2, q);
  }

  lemma TakePayloadStable(s: Bytes, q: Bytes)
    ensures Stable(TakePayload(s), TakePayload(s + q), q)
  {
    TakeVarStable(s, 4, q);
  }

  lemma TakeMagicStable(s: Bytes, q: Bytes)
    ensures Stable(TakeMagic(s), TakeMagic(s + q), q)
  {
    TakeStable(s, 3, q);
  }

  lemma TakeFixedStable(s: Bytes, q: Bytes)
    ensures Stable(TakeFixed(s), TakeFixed(s + q), q)
  {
    TakeStable(s, 8, q);
    if |s| >= 8 {
      var s1 := s[8..];
      TakeStable(s1, 8, q);
      if |s1| >= 8 {
        var s2 := s1[8..];
        TakeStable(s2, 8, q);
        if |s2| >= 8 {
          TakeFixedStableTail(s2[8..], q);
        }
      }
    }
  }

  lemma TakeFixedStableTail(s: Bytes, q: Bytes)
    ensures Stable(TakeInt64(s), TakeInt64(s + q), q)
    ensures TakeInt64(s).Parsed? ==>
              var s4 := TakeInt64(s).rest;
              && Stable(TakeByte(s4), TakeByte(s4 + q), q)
              && (TakeByte(s4).Parsed? ==>
                    var s5 := TakeByte(s4).rest;
                    && Stable(TakeByte(s5), TakeByte(s5 + q), q)
                    && (TakeByte(s5).Parsed? ==>
                          var s6 := TakeByte(s5).rest;
                          Stable(TakeUint32(s6), TakeUint32(s6 + q), q)))
  {
    TakeStable(s, 8, q);
    if |s| >= 8 {
      var s4 := s[8..];
      TakeStable(s4, 1, q);
      if |s4| >= 1 {
        var s5 := s4[1..];
        TakeStable(s5, 1, q);
        if |s5| >= 1 {
          TakeStable(s5[1..], 4, q);
        }
      }
    }
  }

  lemma TakeEntryStable(s: Bytes, q: Bytes)
    ensures Stable(TakeEntry(s), TakeEntry(s + q), q)
  {
    TakeVar16Stable(s, q);
    if TakeVar16(s).Parsed? {
      TakeVar16Stable(TakeVar16(s).rest, q);
    }
  }

  lemma {:induction false} RepeatStable<T(!new)>(p: Bytes -> Parse<T>, s: Bytes, count: nat, acc: seq<T>, q: Bytes)
    requires forall x :: Stable(p(x), p(x + q), q)
    ensures Stable(Repeat(p, s, count, acc), Repeat(p, s + q, count, acc), q)
    decreases count
  {
    if count > 0 {
      assert Stable(p(s), p(s + q), q);
      if p(s).Parsed? {
        RepeatStable(p, p(s).rest, count - 1, acc + [p(s).value], q);
      }
    }
  }

  lemma TakeMetadataStable(s: Bytes, q: Bytes)
    ensures Stable(TakeMetadata(s), TakeMetadata(s + q), q)
  {
    TakeStable(s, 2, q);
    var n := TakeUint(s, 2);
    if n.Parsed? {
      forall x
        ensures Stable(TakeEntry(x), TakeEntry(x + q), q)
      {
        TakeEntryStable(x, q);
      }
      RepeatStable(TakeEntry, n.rest, n.value, [], q);
    }
  }

  lemma TakeFrontStable(s: Bytes, q: Bytes)
    ensures Stable(TakeFront(s), TakeFront(s + q), q)
  {
    TakeMagicStable(s, q);
    if TakeMagic(s).Parsed? {
      var s1 := TakeMagic(s).rest;
      TakeVar16Stable(s1, q);
      if TakeVar16(s1).Parsed? {
        TakeFixedStable(TakeVar16(s1).rest, q);
      }
    }
  }

  lemma TakeBackStable(s: Bytes, q: Bytes)
    ensures Stable(TakeBack(s), TakeBack(s + q), q)
  {
    TakeVar16Stable(s, q);
    if TakeVar16(s).Parsed? {
      var s1 := TakeVar16(s).rest;
      TakeMetadataStable(s1, q);
      if TakeMetadata(s1).Parsed? {
        TakePayloadStable(TakeMetadata(s1).rest, q);
      }
    }
  }

  lemma DecodeStable(s: Bytes, q: Bytes)
    ensures Stable(Decode(s), Decode(s + q), q)
  {
    TakeFrontStable(s, q);
    if TakeFront(s).Parsed? {
      TakeBackStable(TakeFront(s).rest, q);
    }
  }

  // The decoder fills one buffer after the other, so the lengths of its reads decide how a cut frame fails.
  function Sum(sizes: seq<nat>): nat {
    if sizes == [] then 0 else sizes[0] + Sum(sizes[1..])
  }

  /** So many bytes are exactly some of the first reads. */
  predicate Boundary(sizes: seq<nat>, at: nat) {
    at == 0 || (sizes != [] && at >= sizes[0] && Boundary(sizes[1..], at - sizes[0]))
  }

  /** Input that ends between two reads is an end of file; input that ends inside one is cut short. */
  function CutError(sizes: seq<nat>, at: nat): Error {
    if Boundary(sizes, at) then EOF else UnexpectedEOF
  }

  const FIXED_READS: seq<nat> := [8, 8, 8, 8, 1, 1, 4]

  function VarReads(width: nat, b: Bytes): seq<nat> {
    [width] + [|b|]
  }

  function EntryReads(e: (Bytes, Bytes)): seq<nat> {
    VarReads(2, e.0) + VarReads(2, e.1)
  }

  function AllReads<T>(sizes: T -> seq<nat>, xs: seq<T>): seq<nat> {
    if xs == [] then [] else sizes(xs[0]) + AllReads(sizes, xs[1..])
  }

  function EntriesReads(entries: seq<(Bytes, Bytes)>): seq<nat> {
    AllReads(EntryReads, entries)
  }

  function FrontReads(c: Chunk): seq<nat> {
    [3] + (VarReads(2, c.sessionID) + FIXED_READS)
  }

  ghost function BackReads(c: Chunk, order: seq<Bytes>): seq<nat>
    requires IsOrder(order, c.metadata.Keys)
  {
    VarReads(2, c.checksumBytes) + (([2] + EntriesReads(Entries(c.metadata, order))) + VarReads(4, c.data))
  }

  /** The reads that take in a whole frame. */
  ghost function FrameReads(c: Chunk, order: seq<Bytes>): seq<nat>
    requires IsOrder(order, c.metadata.Keys)
  {
    FrontReads(c) + BackReads(c, order)
  }

  lemma {:induction false} SumConcat(a: seq<nat>, b: seq<nat>)
    ensures Sum(a + b) == Sum(a) + Sum(b)
    decreases |a|
  {
    if a == [] {
      assert a + b == b;
    } else {
      assert (a + b)[1..] == a[1..] + b;
      SumConcat(a[1..], b);
    }
  }

  lemma {:induction false} BoundaryConcat(a: seq<nat>, b: seq<nat>, at: nat)
    ensures Boundary(a + b, at) <==> if at < Sum(a) then Boundary(a, at) else Boundary(b, at - Sum(a))
    decreases |a|
  {
    if a == [] {
      assert a + b == b;
    } else {
      assert (a + b)[1..] == a[1..] + b;
      if at >= a[0] {
        BoundaryConcat(a[1..], b, at - a[0]);
      }
    }
  }

  /** One part printed behind another: the cut lies in the first, or behind it in the second. */
  lemma CutSeq(ra: seq<nat>, rb: seq<nat>, a: Bytes, b: Bytes, cut: Bytes)
    requires |a| == Sum(ra) && cut < a + b
    ensures if |cut| < |a| then cut < a && CutError(ra + rb, |cut|) == CutError(ra, |cut|)
            else var later := cut[|a|..];
                 cut == a + later && later < b && CutError(ra + rb, |cut|) == CutError(rb, |later|)
  {
    BoundaryConcat(ra, rb, |cut|);
    var all := a + b;
    assert cut == all[..|cut|];
    if |cut| < |a| {
      assert cut == a[..|cut|];
    } else {
      assert cut[|a|..] == b[..|cut| - |a|];
    }
  }

  lemma TakeCut(b: Bytes, cut: Bytes)
    requires cut < b
    ensures Take(cut, |b|) == Failed(CutError([|b|], |cut|), [])
  {
  }

  lemma TakeVarCut(b: Bytes, width: nat, cut: Bytes)
    requires |b| < Pow256(width) && cut < PutUint(|b|, width) + b
    ensures TakeVar(cut, width) == Failed(CutError(VarReads(width, b), |cut|), [])
  {
    var size := PutUint(|b|, width);
    CutSeq([width], [|b|], size, b, cut);
    if |cut| < width {
      TakeCut(size, cut);
    } else {
      TakeOwnUint(|b|, width, cut[width..]);
      TakeCut(b, cut[width..]);
    }
  }

  lemma SumVar(width: nat, b: Bytes)
    ensures Sum(VarReads(width, b)) == width + |b|
  {
    assert VarReads(width, b)[1..] == [|b|] && Sum([|b|]) == |b|;
  }

  lemma TakeVar16Cut(b: Bytes, cut: Bytes)
    requires |b| < 0x1_0000 && cut < Var16(b)
    ensures TakeVar16(cut) == Failed(CutError(VarReads(2, b), |cut|), [])
  {
    Widths();
    TakeVarCut(b, 2, cut);
  }

  lemma FixedSum()
    ensures Sum(FIXED_READS) == 38
  {
    assert FIXED_READS[1..] == [8, 8, 8, 1, 1, 4] && [8, 8, 8, 1, 1, 4][1..] == [8, 8, 1, 1, 4];
    assert [8, 8, 1, 1, 4][1..] == [8, 1, 1, 4] && [8, 1, 1, 4][1..] == [1, 1, 4];
    assert [1, 1, 4][1..] == [1, 4] && [1, 4][1..] == [4] && Sum([4]) == 4;
  }

  lemma BoundaryCons(n: nat, rest: seq<nat>, at: nat)
    ensures Boundary([n] + rest, at) <==> at == 0 || (at >= n && Boundary(rest, at - n))
  {
    assert ([n] + rest)[1..] == rest;
  }

  lemma FixedBoundary(at: nat)
    requires at < 38
    ensures Boundary(FIXED_READS, at) <==> at in {0, 8, 16, 24, 32, 33, 34}
  {
    assert FIXED_READS == [8] + [8, 8, 8, 1, 1, 4] && [8, 8, 8, 1, 1, 4] == [8] + [8, 8, 1, 1, 4];
    assert [8, 8, 1, 1, 4] == [8] + [8, 1, 1, 4] && [8, 1, 1, 4] == [8] + [1, 1, 4];
    BoundaryCons(8, [8, 8, 8, 1, 1, 4], at);
    if at >= 8 {
      BoundaryCons(8, [8, 8, 1, 1, 4], at - 8);
    }
    if at >= 16 {
      BoundaryCons(8, [8, 1, 1, 4], at - 16);
    }
    if at >= 24 {
      BoundaryCons(8, [1, 1, 4], at - 24);
    }
    if at >= 32 {
      assert [1, 1, 4] == [1] + [1, 4] && [1, 4] == [1] + [4] && [4] == [4] + [];
      BoundaryCons(1, [1, 4], at - 32);
      if at >= 33 {
        BoundaryCons(1, [4], at - 33);
      }
      if at >= 34 {
        BoundaryCons(4, [], at - 34);
      }
    }
  }

  lemma FixedTailCut(s: Bytes)
    requires |s| < 6
    ensures TakeByte(s).Parsed? ==>
              var s1 := TakeByte(s).rest;
              && s1 == s[1..]
              && (TakeByte(s1).Parsed? ==> TakeUint32(TakeByte(s1).rest).Failed?)
  {
  }

  lemma TakeFixedCut(s: Bytes)
    requires |s| < 38
    ensures TakeFixed(s) == Failed(CutError(FIXED_READS, |s|), [])
  {
    FixedBoundary(|s|);
    if |s| >= 32 {
      FixedTailCut(s[8..][8..][8..][8..]);
    }
  }

  lemma TakeFrontCut(c: Chunk, cut: Bytes)
    requires |c.sessionID| < 0x1_0000 && cut < FrontBytes(c)
    ensures TakeFront(cut) == Failed(CutError(FrontReads(c), |cut|), [])
  {
    var session, fixed := Var16(c.sessionID), FixedBytes(c);
    CutSeq([3], VarReads(2, c.sessionID) + FIXED_READS, MAGIC, session + fixed, cut);
    if |cut| < 3 {
      TakeCut(MAGIC, cut);
    } else {
      var later := cut[3..];
      TakeOwn(MAGIC, later);
      SumVar(2, c.sessionID);
      CutSeq(VarReads(2, c.sessionID), FIXED_READS, session, fixed, later);
      if |later| < |session| {
        TakeVar16Cut(c.sessionID, later);
      } else {
        FixedLayout(c);
        TakeOwnVar16(c.sessionID, later[|session|..]);
        TakeFixedCut(later[|session|..]);
      }
    }
  }

  lemma TakeEntryCut(e: (Bytes, Bytes), cut: Bytes)
    requires SmallEntry(e) && cut < EntryBytes(e)
    ensures TakeEntry(cut) == Failed(CutError(EntryReads(e), |cut|), [])
  {
    SumVar(2, e.0);
    CutSeq(VarReads(2, e.0), VarReads(2, e.1), Var16(e.0), Var16(e.1), cut);
    if |cut| < |Var16(e.0)| {
      TakeVar16Cut(e.0, cut);
    } else {
      TakeOwnVar16(e.0, cut[|Var16(e.0)|..]);
      TakeVar16Cut(e.1, cut[|Var16(e.0)|..]);
    }
  }

  lemma SumEntry(e: (Bytes, Bytes))
    ensures Sum(EntryReads(e)) == |EntryBytes(e)|
  {
    SumConcat(VarReads(2, e.0), VarReads(2, e.1));
    SumVar(2, e.0);
    SumVar(2, e.1);
  }

  lemma RepeatOnce<T>(p: Bytes -> Parse<T>, s: Bytes, count: nat, acc: seq<T>)
    requires count > 0
    ensures Repeat(p, s, count, acc) == match p(s)
                                        case Failed(e, r) => Failed(e, r)
                                        case Parsed(v, r) => Repeat(p, r, count - 1, acc + [v])
  {
  }

  /** p reads what print1 prints of x, in reads of the given sizes, and fails on a part of it as they say. */
  ghost predicate ReadsItem<T(!new)>(p: Bytes -> Parse<T>, print1: T -> Bytes, sizes: T -> seq<nat>, x: T) {
    && Sum(sizes(x)) == |print1(x)|
    && (forall r :: p(print1(x) + r) == Parsed(x, r))
    && (forall part :: part < print1(x) ==> p(part) == Failed(CutError(sizes(x), |part|), []))
  }

  /** The first item of a list that is cut: cut itself, or read whole. */
  lemma FirstItemCut<T(!new)>(p: Bytes -> Parse<T>, print1: T -> Bytes, sizes: T -> seq<nat>, x: T, later: Bytes,
                              laterSizes: seq<nat>, cut: Bytes)
    requires ReadsItem(p, print1, sizes, x) && cut < print1(x) + later
    ensures match p(cut)
            case Failed(e, r) => e == CutError(sizes(x) + laterSizes, |cut|) && r == []
            case Parsed(v, r) =>
              v == x && r < later && CutError(sizes(x) + laterSizes, |cut|) == CutError(laterSizes, |r|)
  {
    CutSeq(sizes(x), laterSizes, print1(x), later, cut);
    if |cut| >= |print1(x)| {
      var r := cut[|print1(x)|..];
      assert p(print1(x) + r) == Parsed(x, r);
    }
  }

  lemma {:induction false} RepeatCut<T(!new)>(p: Bytes -> Parse<T>, print1: T -> Bytes, sizes: T -> seq<nat>,
                                              xs: seq<T>, acc: seq<T>, cut: Bytes)
    requires (forall x :: x in xs ==> ReadsItem(p, print1, sizes, x)) && cut < PrintAll(print1, xs)
    ensures Repeat(p, cut, |xs|, acc) == Failed(CutError(AllReads(sizes, xs), |cut|), [])
    decreases |xs|
  {
    var x, rest := xs[0], xs[1..];
    FirstItemCut(p, print1, sizes, x, PrintAll(print1, rest), AllReads(sizes, rest), cut);
    RepeatOnce(p, cut, |xs|, acc);
    if p(cut).Parsed? {
      RepeatCut(p, print1, sizes, rest, acc + [x], p(cut).rest);
    }
  }

  lemma EntriesCut(entries: seq<(Bytes, Bytes)>, cut: Bytes)
    requires (forall e :: e in entries ==> SmallEntry(e)) && cut < EntriesBytes(entries)
    ensures Repeat(TakeEntry, cut, |entries|, []) == Failed(CutError(EntriesReads(entries), |cut|), [])
  {
    forall e | e in entries
      ensures ReadsItem(TakeEntry, EntryBytes, EntryReads, e)
    {
      EntryIsRead(e);
    }
    RepeatCut(TakeEntry, EntryBytes, EntryReads, entries, [], cut);
  }

  lemma EntryIsRead(e: (Bytes, Bytes))
    requires SmallEntry(e)
    ensures ReadsItem(TakeEntry, EntryBytes, EntryReads, e)
  {
    SumEntry(e);
    forall r
      ensures TakeEntry(EntryBytes(e) + r) == Parsed(e, r)
    {
      TakeOwnEntry(e.0, e.1, r);
    }
    forall part | part < EntryBytes(e)
      ensures TakeEntry(part) == Failed(CutError(EntryReads(e), |part|), [])
    {
      TakeEntryCut(e, part);
    }
  }

  lemma {:induction false} SumEntries(entries: seq<(Bytes, Bytes)>)
    ensures Sum(EntriesReads(entries)) == |EntriesBytes(entries)|
    decreases |entries|
  {
    if entries != [] {
      SumEntry(entries[0]);
      SumEntries(entries[1..]);
      SumConcat(EntryReads(entries[0]), EntriesReads(entries[1..]));
      assert EntriesBytes(entries) == EntryBytes(entries[0]) + EntriesBytes(entries[1..]);
    }
  }

  lemma TakeMetadataCut(m: map<Bytes, Bytes>, order: seq<Bytes>, cut: Bytes)
    requires IsOrder(order, m.Keys) && |m| < 0x1_0000 && SmallEntries(m) && cut < MetadataBytes(m, order)
    ensures TakeMetadata(cut) == Failed(CutError([2] + EntriesReads(Entries(m, order)), |cut|), [])
  {
    Widths();
    OrderLength(order, m.Keys);
    assert |m| == |m.Keys|;
    var entries, count := Entries(m, order), PutUint(|m|, 2);
    CutSeq([2], EntriesReads(entries), count, EntriesBytes(entries), cut);
    if |cut| < 2 {
      TakeCut(count, cut);
    } else {
      TakeOwnUint(|m|, 2, cut[2..]);
      EntriesCut(entries, cut[2..]);
    }
  }

  lemma TakeBackCut(c: Chunk, order: seq<Bytes>, cut: Bytes)
    requires IsOrder(order, c.metadata.Keys) && WithinLimits(c) && cut < BackBytes(c, order)
    ensures TakeBack(cut) == Failed(CutError(BackReads(c, order), |cut|), [])
  {
    var sums, meta, payload := Var16(c.checksumBytes), MetadataBytes(c.metadata, order), PayloadBytes(c.data);
    var metaReads := [2] + EntriesReads(Entries(c.metadata, order));
    SumVar(2, c.checksumBytes);
    CutSeq(VarReads(2, c.checksumBytes), metaReads + VarReads(4, c.data), sums, meta + payload, cut);
    if |cut| < |sums| {
      TakeVar16Cut(c.checksumBytes, cut);
    } else {
      var later := cut[|sums|..];
      TakeOwnVar16(c.checksumBytes, later);
      SumEntries(Entries(c.metadata, order));
      SumConcat([2], EntriesReads(Entries(c.metadata, order)));
      CutSeq(metaReads, VarReads(4, c.data), meta, payload, later);
      if |later| < |meta| {
        TakeMetadataCut(c.metadata, order, later);
      } else {
        TakeOwnMetadata(c.metadata, order, later[|meta|..]);
        Widths();
        TakeVarCut(c.data, 4, later[|meta|..]);
      }
    }
  }

  lemma FrontSum(c: Chunk)
    ensures Sum(FrontReads(c)) == |FrontBytes(c)|
  {
    FixedLayout(c);
    FixedSum();
    SumVar(2, c.sessionID);
    SumConcat(VarReads(2, c.sessionID), FIXED_READS);
    SumConcat([3], VarReads(2, c.sessionID) + FIXED_READS);
  }

  /**
   * A frame cut anywhere is never accepted and never misread: an end of file if the cut lies between two of
   * the decoder's reads, and an unexpected end of file if it lies inside one.
   */
  lemma TruncatedFrameRunsOut(c: Chunk, order: seq<Bytes>, cut: Bytes)
    requires IsOrder(order, c.metadata.Keys) && WithinLimits(c)
    requires cut < Frame(c, order)
    ensures Decode(cut) == Failed(CutError(FrameReads(c, order), |cut|), [])
  {
    var front, back := FrontBytes(c), BackBytes(c, order);
    FrontSum(c);
    CutSeq(FrontReads(c), BackReads(c, order), front, back, cut);
    if |cut| < |front| {
      TakeFrontCut(c, cut);
    } else {
      TakeOwnFront(c, cut[|front|..]);
      TakeBackCut(c, order, cut[|front|..]);
    }
  }

  lemma {:induction false} RepeatErrors<T>(p: Bytes -> Parse<T>, s: Bytes, count: nat, acc: seq<T>)
    requires forall x :: p(x).Failed? ==> RanOut(p(x).error)
    ensures Repeat(p, s, count, acc).Failed? ==> RanOut(Repeat(p, s, count, acc).error)
    decreases count
  {
    if count > 0 && p(s).Parsed? {
      RepeatErrors(p, p(s).rest, count - 1, acc + [p(s).value]);
    }
  }

  lemma TakeBackErrors(s: Bytes)
    ensures TakeBack(s).Failed? ==> RanOut(TakeBack(s).error)
  {
    var c := TakeVar16(s);
    if c.Parsed? && TakeUint(c.rest, 2).Parsed? {
      var n := TakeUint(c.rest, 2);
      RepeatErrors(TakeEntry, n.rest, n.value, []);
    }
  }

  /** Three bytes that do not begin with 'S', 'G'. */
  predicate ForeignMagic(s: Bytes) {
    |s| >= 3 && s[..2] != [0x53, 0x47]
  }

  /** The magic of this format, and a version other than 1. */
  predicate ForeignVersion(s: Bytes) {
    |s| >= 3 && s[..2] == [0x53, 0x47] && s[2] != 1
  }

  lemma HeaderAnswer(s: Bytes)
    ensures ForeignMagic(s) ==> TakeMagic(s) == Failed(InvalidMagicHeader, s[3..])
    ensures ForeignVersion(s) ==> TakeMagic(s) == Failed(UnsupportedVersion, s[3..])
    ensures TakeMagic(s).Parsed? <==> |s| >= 3 && s[..3] == [0x53, 0x47, 1]
    ensures |s| < 3 ==> TakeMagic(s).Failed? && RanOut(TakeMagic(s).error)
  {
    if |s| >= 3 {
      assert s[..3][..2] == s[..2] && MAGIC[..2] == [0x53, 0x47];
      assert s[..3] == [s[0], s[1], s[2]] && s[..2] == [s[0], s[1]];
    }
  }

  /**
   * What is not a frame of this format and version is rejected for that and for nothing else, having read three
   * bytes; whatever is decoded begins with the header. Any other failure means that the input ran out.
   */
  lemma DecodeErrors(s: Bytes)
    ensures ForeignMagic(s) ==> Decode(s) == Failed(InvalidMagicHeader, s[3..])
    ensures ForeignVersion(s) ==> Decode(s) == Failed(UnsupportedVersion, s[3..])
    ensures Decode(s).Parsed? ==> |s| >= 3 && s[..3] == [0x53, 0x47, 1]
    ensures Decode(s).Failed? && !ForeignMagic(s) && !ForeignVersion(s) ==> RanOut(Decode(s).error)
  {
    HeaderAnswer(s);
    if TakeFront(s).Parsed? {
      TakeBackErrors(TakeFront(s).rest);
    }
  }

  lemma {:induction false} RepeatShrinks<T>(p: Bytes -> Parse<T>, s: Bytes, count: nat, acc: seq<T>)
    requires forall x :: |p(x).rest| <= |x|
    ensures |Repeat(p, s, count, acc).rest| <= |s|
    decreases count
  {
    if count > 0 && p(s).Parsed? {
      RepeatShrinks(p, p(s).rest, count - 1, acc + [p(s).value]);
    }
  }

  lemma TakeEntryShrinks(s: Bytes)
    ensures |TakeEntry(s).rest| <= |s|
  {
  }

  lemma TakeBackShrinks(s: Bytes)
    ensures |TakeBack(s).rest| <= |s|
  {
    var c := TakeVar16(s);
    if c.Parsed? && TakeUint(c.rest, 2).Parsed? {
      var n := TakeUint(c.rest, 2);
      forall x
        ensures |TakeEntry(x).rest| <= |x|
      {
        TakeEntryShrinks(x);
      }
      RepeatShrinks(TakeEntry, n.rest, n.value, []);
    }
  }

  lemma TakeFrontShrinks(s: Bytes)
    ensures TakeFront(s).Parsed? ==> |TakeFront(s).rest| < |s|
  {
  }

  /** Every accepted frame takes at least its magic header, so repeated decoding ends. */
  lemma DecodeConsumes(s: Bytes)
    ensures Decode(s).Parsed? ==> |Decode(s).rest| < |s|
  {
    TakeFrontShrinks(s);
    if TakeFront(s).Parsed? {
      TakeBackShrinks(TakeFront(s).rest);
    }
  }
}
