/** Readers that may return short reads, early end-of-file or a fault, and io.ReadFull over them. */
module Sources {
  import opened Basics
  import opened Core

  /** One answer of a reader: at most n bytes, then perhaps the end of file if none are left, or a fault. */
  datatype Event = Deliver(n: nat, eof: bool) | Fault(n: nat)

  /** A reader: the bytes it still holds and how it will answer; past the script it fills every buffer. */
  datatype Source = Source(rest: Bytes, script: seq<Event>)

  datatype Reading = Reading(bytes: Bytes, error: Option<Error>, src: Source)

  /** io.Reader.Read into a buffer of `room` bytes. */
  function ReadOnce(s: Source, room: nat): Reading {
    if s.script == [] then
      var m := Min(room, |s.rest|);
      if s.rest == [] then Reading([], Some(EOF), s)
      else Reading(s.rest[..m], None, Source(s.rest[m..], []))
    else
      var m := Min(Min(s.script[0].n, room), |s.rest|);
      var src := Source(s.rest[m..], s.script[1..]);
      match s.script[0]
      case Deliver(_, eof) => Reading(s.rest[..m], if eof && src.rest == [] then Some(EOF) else None, src)
      case Fault(_) => Reading(s.rest[..m], Some(ReadFailed), src)
  }

  /** Bytes read earlier turn a plain end of file into an unexpected one. */
  function Extend(before: Bytes, r: Reading): Reading {
    Reading(before + r.bytes, if r.error == Some(EOF) && before != [] then Some(UnexpectedEOF) else r.error, r.src)
  }

  /** io.ReadFull: reads until k bytes are there or an error comes; an error with the last byte is dropped. */
  function ReadFull(s: Source, k: nat): Reading
    decreases Size(s)
  {
    if k == 0 then Reading([], None, s)
    else
      var r := ReadOnce(s, k);
      if |r.bytes| == k then Reading(r.bytes, None, r.src)
      else if r.error.Some? then Extend(r.bytes, Reading([], r.error, r.src))
      else Extend(r.bytes, ReadFull(r.src, k - |r.bytes|))
  }

  ghost predicate FaultFree(s: Source) {
    forall i :: 0 <= i < |s.script| ==> s.script[i].Deliver?
  }

  lemma ReadOnceFacts(s: Source, room: nat)
    ensures var r := ReadOnce(s, room);
            && s.rest == r.bytes + r.src.rest && |r.bytes| <= room
            && (r.error == Some(EOF) ==> r.src.rest == [])
            && (r.error.Some? ==> r.error.value in {EOF, ReadFailed})
            && (FaultFree(s) ==> r.error != Some(ReadFailed) && FaultFree(r.src))
            && (room > 0 && (r.error.None? || |r.bytes| == room) ==> Size(r.src) < Size(s))
  {
  }

  function Size(s: Source): nat {
    |s.script| + |s.rest|
  }

  /** What a full read r of k bytes from s tells. */
  ghost predicate IsFullRead(s: Source, k: nat, r: Reading) {
    && s.rest == r.bytes + r.src.rest
    && |r.bytes| <= k
    && (r.error.None? <==> |r.bytes| == k)
    && (r.error == Some(EOF) ==> r.bytes == [] && r.src.rest == [])
    && (r.error == Some(UnexpectedEOF) ==> r.bytes != [] && r.src.rest == [])
    && (r.error.Some? ==> r.error.value in {EOF, UnexpectedEOF, ReadFailed})
    && (FaultFree(s) ==> r.error != Some(ReadFailed) && FaultFree(r.src))
  }

  lemma ExtendFullRead(s: Source, k: nat, r: Reading, t: Reading)
    requires s.rest == r.bytes + r.src.rest && |r.bytes| < k
    requires FaultFree(s) ==> FaultFree(r.src)
    requires IsFullRead(r.src, k - |r.bytes|, t)
    ensures IsFullRead(s, k, Extend(r.bytes, t))
  {
  }

  lemma ShortFullRead(s: Source, k: nat, r: Reading)
    requires s.rest == r.bytes + r.src.rest && |r.bytes| < k && r.error.Some?
    requires r.error == Some(EOF) ==> r.src.rest == []
    requires r.error.value in {EOF, ReadFailed}
    requires FaultFree(s) ==> r.error != Some(ReadFailed) && FaultFree(r.src)
    ensures IsFullRead(s, k, Extend(r.bytes, Reading([], r.error, r.src)))
  {
  }

  lemma {:induction false} ReadFullFacts(s: Source, k: nat)
    requires k > 0
    ensures IsFullRead(s, k, ReadFull(s, k))
    decreases Size(s)
  {
    ReadOnceFacts(s, k);
    var r := ReadOnce(s, k);
    if |r.bytes| == k {
    } else if r.error.Some? {
      ShortFullRead(s, k, r);
    } else {
      ReadFullFacts(r.src, k - |r.bytes|);
      ExtendFullRead(s, k, r, ReadFull(r.src, k - |r.bytes|));
    }
  }

  datatype Yield = Yield(got: Bytes, faulted: bool)

  /** What reading block after block of k bytes obtains until a block comes up short, and whether a fault ended it. */
  ghost function Harvest(s: Source, k: nat): Yield
    requires k > 0
    decreases |s.rest|
  {
    ReadFullFacts(s, k);
    var r := ReadFull(s, k);
    if r.error.Some? then Yield(r.bytes, r.error == Some(ReadFailed))
    else
      var later := Harvest(r.src, k);
      Yield(r.bytes + later.got, later.faulted)
  }

  /** Whatever the pattern of short reads, a fault-free reader is read to its end; any reader gives a prefix. */
  lemma {:induction false} HarvestFacts(s: Source, k: nat)
    requires k > 0
    ensures Harvest(s, k).got <= s.rest
    ensures !Harvest(s, k).faulted ==> Harvest(s, k).got == s.rest
    ensures FaultFree(s) ==> !Harvest(s, k).faulted
    decreases |s.rest|
  {
    ReadFullFacts(s, k);
    var r := ReadFull(s, k);
    if r.error.None? {
      HarvestFacts(r.src, k);
      assert s.rest == r.bytes + r.src.rest;
    }
  }

  // ------------------------------------------------------- which faults lose

  /**
   * Whether the reader's answers lose bytes, with `left` bytes to deliver, `room` bytes wanted for the
   * block in hand and k for each later one: a fault is dropped when it comes with the last byte of a
   * block, and otherwise ends the reading, which loses bytes if some are left.
   */
  predicate Loses(script: seq<Event>, left: nat, room: nat, k: nat)
    decreases |script|
  {
    if script == [] then false
    else
      var m := Min(Min(script[0].n, room), left);
      if m == room then Loses(script[1..], left - m, k, k)
      else if script[0].Fault? then left > m
      else Loses(script[1..], left - m, room - m, k)
  }

  lemma {:induction false} NothingLeftNothingLost(script: seq<Event>, room: nat, k: nat)
    requires room > 0 && k > 0
    ensures !Loses(script, 0, room, k)
    decreases |script|
  {
    if script != [] {
      NothingLeftNothingLost(script[1..], room, k);
    }
  }

  /** What is obtained when `room` bytes of a block are still wanted. */
  ghost function Gathered(s: Source, room: nat, k: nat): Bytes
    requires room > 0 && k > 0
  {
    var r := ReadFull(s, room);
    if r.error.Some? then r.bytes else r.bytes + Harvest(r.src, k).got
  }

  /** One answer of the reader, and what is gathered behind it. */
  lemma GatheredStep(s: Source, room: nat, k: nat)
    requires room > 0 && k > 0
    ensures var r := ReadOnce(s, room);
            Gathered(s, room, k) ==
              if |r.bytes| == room then r.bytes + Harvest(r.src, k).got
              else if r.error.Some? then r.bytes
              else r.bytes + Gathered(r.src, room - |r.bytes|, k)
  {
    ReadOnceFacts(s, room);
    var r := ReadOnce(s, room);
    if |r.bytes| != room && r.error.None? {
      var t := ReadFull(r.src, room - |r.bytes|);
      if t.error.None? {
        assert r.bytes + t.bytes + Harvest(t.src, k).got == r.bytes + (t.bytes + Harvest(t.src, k).got);
      }
    }
  }

  /** The same answer, as Loses sees it. */
  lemma LosesStep(s: Source, room: nat, k: nat)
    requires room > 0 && k > 0
    ensures var r := ReadOnce(s, room);
            |r.bytes| <= room &&
            Loses(s.script, |s.rest|, room, k) ==
              if |r.bytes| == room then Loses(r.src.script, |r.src.rest|, k, k)
              else if r.error.Some? then r.src.rest != []
              else Loses(r.src.script, |r.src.rest|, room - |r.bytes|, k)
  {
    ReadOnceFacts(s, room);
    var r := ReadOnce(s, room);
    if s.script != [] && r.src.rest == [] && |r.bytes| < room {
      NothingLeftNothingLost(s.script[1..], room - |r.bytes|, k);
    }
  }

  lemma {:induction false} GatheredWholeIff(s: Source, room: nat, k: nat)
    requires room > 0 && k > 0
    ensures Gathered(s, room, k) == s.rest <==> !Loses(s.script, |s.rest|, room, k)
    decreases Size(s)
  {
    var r := ReadOnce(s, room);
    ReadOnceFacts(s, room);
    LosesStep(s, room, k);
    GatheredStep(s, room, k);
    if |r.bytes| == room {
      GatheredWholeIff(r.src, k, k);
      GatheredIsHarvest(r.src, k);
      PrefixCancels(r.bytes, Harvest(r.src, k).got, r.src.rest);
    } else if r.error.Some? {
      PrefixCancels(r.bytes, [], r.src.rest);
    } else {
      GatheredWholeIff(r.src, room - |r.bytes|, k);
      PrefixCancels(r.bytes, Gathered(r.src, room - |r.bytes|, k), r.src.rest);
    }
  }

  lemma GatheredIsHarvest(s: Source, k: nat)
    requires k > 0
    ensures Gathered(s, k, k) == Harvest(s, k).got
  {
  }

  lemma PrefixCancels(a: Bytes, b: Bytes, c: Bytes)
    ensures a + b == a + c <==> b == c
    ensures a + [] == a
  {
    if a + b == a + c {
      assert (a + b)[|a|..] == b && (a + c)[|a|..] == c;
    }
  }

  /** The whole source is read exactly when no answer of the reader loses bytes. */
  lemma HarvestWholeIff(s: Source, k: nat)
    requires k > 0
    ensures Harvest(s, k).got == s.rest <==> !Loses(s.script, |s.rest|, k, k)
  {
    GatheredWholeIff(s, k, k);
    GatheredIsHarvest(s, k);
  }

  // ---------------------------------------------------------- successive reads

  /** The bytes of successive reads into buffers of the given sizes, one after the other, and the reader then. */
  ghost function ReadEach(s: Source, rooms: seq<nat>): (Bytes, Source)
    decreases |rooms|
  {
    if rooms == [] then ([], s)
    else
      var (before, t) := ReadEach(s, rooms[..|rooms| - 1]);
      var r := ReadOnce(t, rooms[|rooms| - 1]);
      (before + r.bytes, r.src)
  }

  function Total(rooms: seq<nat>): nat {
    if rooms == [] then 0 else Total(rooms[..|rooms| - 1]) + rooms[|rooms| - 1]
  }

  /** `got` is the beginning of what s delivers, `t` has the rest, and `asked` bytes were asked for. */
  ghost predicate Follows(s: Source, got: Bytes, t: Source, asked: nat) {
    && s.rest == got + t.rest
    && |got| <= asked
    && (s.script == [] ==> t.script == [] && |got| == Min(asked, |s.rest|))
  }

  lemma PlainRead(t: Source, room: nat)
    requires t.script == []
    ensures ReadOnce(t, room).src.script == [] && |ReadOnce(t, room).bytes| == Min(room, |t.rest|)
  {
  }

  lemma ThreeParts(whole: Bytes, a: Bytes, b: Bytes, c: Bytes, rest: Bytes)
    requires whole == a + rest && rest == b + c
    ensures whole == a + b + c
  {
  }

  lemma FollowsRead(s: Source, got: Bytes, t: Source, asked: nat, room: nat)
    requires Follows(s, got, t, asked)
    ensures var r := ReadOnce(t, room); Follows(s, got + r.bytes, r.src, asked + room)
  {
    var r := ReadOnce(t, room);
    ReadOnceFacts(t, room);
    ThreeParts(s.rest, got, r.bytes, r.src.rest, t.rest);
    if s.script == [] {
      PlainRead(t, room);
    }
  }

  /** However the buffers are sized, a reader's answers concatenate to its bytes, in order. */
  lemma {:induction false} ReadEachFollows(s: Source, rooms: seq<nat>)
    ensures var (got, t) := ReadEach(s, rooms); Follows(s, got, t, Total(rooms))
    decreases |rooms|
  {
    if rooms != [] {
      var front, room := rooms[..|rooms| - 1], rooms[|rooms| - 1];
      ReadEachFollows(s, front);
      var (before, t) := ReadEach(s, front);
      FollowsRead(s, before, t, Total(front), room);
    }
  }

  lemma HarvestOfNothing(s: Source, k: nat)
    requires k > 0 && s.rest == []
    ensures Harvest(s, k).got == []
  {
    ReadFullFacts(s, k);
  }

  // ------------------------------------------------------ readers as objects

  class SourceReader {
    var rest: Bytes
    var script: seq<Event>

    constructor (rest: Bytes, script: seq<Event>)
      ensures Abs() == Source(rest, script)
    {
      this.rest, this.script := rest, script;
    }

    function Abs(): Source
      reads this
    {
      Source(rest, script)
    }

    /** Read into buf[from..to]. */
    method Read(buf: array<byte>, from: nat, to: nat) returns (n: nat, error: Option<Error>)
      requires from <= to <= buf.Length
      modifies this, buf
      ensures n <= to - from && buf[..from] == old(buf[..from])
      ensures Reading(buf[from..from + n], error, Abs()) == ReadOnce(old(Abs()), to - from)
    {
      if script == [] {
        n := Min(to - from, |rest|);
        error := if rest == [] then Some(EOF) else None;
      } else {
        n := Min(Min(script[0].n, to - from), |rest|);
        error := match script[0]
                 case Deliver(_, eof) => if eof && n == |rest| then Some(EOF) else None
                 case Fault(_) => Some(ReadFailed);
        script := script[1..];
      }
      forall i | 0 <= i < n {
        buf[from + i] := rest[i];
      }
      assert buf[from..from + n] == rest[..n];
      rest := rest[n..];
    }
  }

  lemma ExtendTwice(a: Bytes, b: Bytes, r: Reading)
    ensures Extend(a, Extend(b, r)) == Extend(a + b, r)
  {
    assert a + (b + r.bytes) == a + b + r.bytes;
  }

  /** What a ReadFull loop will answer that has `got` in the buffer and `left` bytes to go, or has stopped. */
  ghost function Outcome(got: Bytes, error: Option<Error>, src: Source, left: nat): Reading {
    Extend(got, if error.None? then ReadFull(src, left) else Reading([], error, src))
  }

  /** One turn of the ReadFull loop with `before` already in the buffer. */
  lemma ReadFullStep(before: Bytes, s: Source, left: nat)
    requires left > 0
    ensures var r := ReadOnce(s, left);
            var m := |r.bytes|;
            var error := if m == left then None else r.error;
            && m <= left
            && Outcome(before, None, s, left) == Outcome(before + r.bytes, error, r.src, left - m)
  {
    var r := ReadOnce(s, left);
    ReadOnceFacts(s, left);
    if |r.bytes| == left {
      assert before + r.bytes + [] == before + r.bytes;
    } else if r.error.Some? {
      ExtendTwice(before, r.bytes, Reading([], r.error, r.src));
    } else {
      ExtendTwice(before, r.bytes, ReadFull(r.src, left - |r.bytes|));
    }
  }

  /** One Read call of that loop. */
  method ReadMore(reader: SourceReader, buf: array<byte>, n: nat, k: nat) returns (n': nat, error: Option<Error>)
    requires n < k <= buf.Length
    modifies reader, buf
    ensures n <= n' <= k && (n' == k ==> error.None?)
    ensures Outcome(old(buf[..n]), None, old(reader.Abs()), k - n) == Outcome(buf[..n'], error, reader.Abs(), k - n')
    ensures error.None? ==> Size(reader.Abs()) < old(Size(reader.Abs()))
  {
    ghost var before, src := buf[..n], reader.Abs();
    ReadFullStep(before, src, k - n);
    ReadOnceFacts(src, k - n);
    var m, e := reader.Read(buf, n, k);
    n' := n + m;
    error := if n' == k then None else e;
    ghost var r := ReadOnce(src, k - n);
    assert buf[n..n'] == r.bytes && reader.Abs() == r.src;
    assert buf[..n'] == before + r.bytes && k - n - |r.bytes| == k - n';
  }

  /** io.ReadFull into buf[..k]. */
  method ReadFullInto(reader: SourceReader, buf: array<byte>, k: nat) returns (n: nat, error: Option<Error>)
    requires k <= buf.Length
    modifies reader, buf
    ensures n <= k && Reading(buf[..n], error, reader.Abs()) == ReadFull(old(reader.Abs()), k)
  {
    n, error := 0, None;
    ghost var whole := ReadFull(reader.Abs(), k);
    assert Extend([], whole) == whole;
    while n < k && error.None?
      invariant n <= k && (n == k ==> error.None?)
      invariant whole == Outcome(buf[..n], error, reader.Abs(), k - n)
      decreases error.None?, Size(reader.Abs())
    {
      n, error := ReadMore(reader, buf, n, k);
    }
    if error == Some(EOF) && n > 0 {
      error := Some(UnexpectedEOF);
    }
  }

  // ---------------------------------------------------------- pattern reader

  /** The pattern repeated and cut at `total` bytes. */
  function PatternText(pattern: Bytes, total: nat): (text: Bytes)
    requires pattern != []
    ensures |text| == total
    ensures forall j :: 0 <= j < total ==> text[j] == pattern[j % |pattern|]
  {
    seq(total, j requires 0 <= j < total => pattern[j % |pattern|])
  }

  /** The pattern and the cut do not depend on how the bytes are asked for. */
  lemma PatternReadEach(pattern: Bytes, total: nat, rooms: seq<nat>)
    requires pattern != []
    ensures var (got, t) := ReadEach(Source(PatternText(pattern, total), []), rooms);
            && got == PatternText(pattern, Min(Total(rooms), total))
            && (t.rest == [] <==> Total(rooms) >= total)
  {
    var s := Source(PatternText(pattern, total), []);
    ReadEachFollows(s, rooms);
    var (got, t) := ReadEach(s, rooms);
    assert got == s.rest[..|got|];
    assert s.rest[..|got|] == PatternText(pattern, |got|);
  }

  class PatternReader {
    const pattern: Bytes
    const total: int64
    var read: nat

    constructor (pattern: Bytes, total: int64)
      ensures this.pattern == (if pattern == [] then DEFAULT_PATTERN else pattern)
      ensures this.total == total && read == 0 && Valid()
    {
      this.pattern := if pattern == [] then DEFAULT_PATTERN else pattern;
      this.total := total;
      read := 0;
    }

    ghost predicate Valid()
      reads this
    {
      pattern != [] && (read <= total || read == 0)
    }

    /** The reader it stands for: what is left of the text, with no short reads. */
    ghost function Abs(): Source
      requires Valid()
      reads this
    {
      if read < total then Source(PatternText(pattern, total)[read..], []) else Source([], [])
    }

    method Read(b: array<byte>) returns (n: nat, error: Option<Error>)
      requires Valid()
      modifies this, b
      ensures Valid() && n <= b.Length
      ensures Reading(b[..n], error, Abs()) == ReadOnce(old(Abs()), b.Length)
    {
      if read >= total {
        assert b[..0] == [];
        return 0, Some(EOF);
      }
      ghost var text := PatternText(pattern, total);
      var toRead := Min(b.Length, total - read);
      for i := 0 to toRead
        invariant read == old(read)
        invariant b[..i] == text[read..read + i]
      {
        b[i] := pattern[(read + i) % |pattern|];
        assert text[read..read + i + 1] == text[read..read + i] + [text[read + i]];
        assert b[..i + 1] == b[..i] + [b[i]];
      }
      assert text[read..][..toRead] == text[read..read + toRead];
      assert text[read..][toRead..] == text[read + toRead..];
      read := read + toRead;
      return toRead, None;
    }
  }

  // "SPLIT-AND-GO"
  const DEFAULT_PATTERN: Bytes := [83, 80, 76, 73, 84, 45, 65, 78, 68, 45, 71, 79]
}
