/** What survives failing writes, damaged chunks and refusals, and how a stream is resumed. */
module Recovery {
  import opened Basics
  import opened Core
  import opened Checksum
  import Crc32c
  import opened AssemblerModel
  import opened Reassembly

  // --------------------------------------------------- for any chunks at all

  /** The reorder window: bounded, and strictly ahead of what has been written. */
  ghost predicate Window(cfg: Config, s: State) {
    |s.pending| <= cfg.maxReorder && forall k :: k in s.pending ==> k > s.next
  }

  lemma {:induction false} DrainFrame(cfg: Config, s: State)
    requires forall k :: k in s.pending ==> k >= s.next
    ensures var r := Drain(cfg, s).state;
            && r.next >= s.next
            && |r.pending| <= |s.pending|
            && (forall k :: k in r.pending ==> k > r.next && k in s.pending && r.pending[k] == s.pending[k])
    decreases |s.pending|
  {
    if s.next in s.pending {
      RemoveKeyShrinks(s.pending, s.next);
      var s1 := s.(pending := s.pending - {s.next});
      var f := Flush(cfg, s1, s.pending[s.next]);
      assert f.state.pending == s1.pending;
      if f.error.None? {
        DrainFrame(cfg, f.state);
      }
    }
  }

  lemma InsertSize(m: map<int, Chunk>, k: int, c: Chunk)
    ensures |m[k := c]| <= |m| + 1
  {
    assert m[k := c].Keys == m.Keys + {k};
    assert |m[k := c].Keys| == |m[k := c]| && |m.Keys| == |m|;
  }

  /** Every call keeps the window, on every return path, whatever is delivered and however writes fail. */
  lemma StepKeepsWindow(cfg: Config, s: State, c: Chunk)
    requires Window(cfg, s)
    ensures Window(cfg, Step(cfg, s, c).state)
    ensures Step(cfg, s, c).state.next >= s.next
  {
    InsertSize(s.pending, c.sequence, c);
    if c.sequence == s.next && Flush(cfg, s, c).error.None? {
      DrainFrame(cfg, Flush(cfg, s, c).state);
    }
  }

  predicate IsRefusal(e: Error) {
    e == StreamCompleted || e == SessionMismatch || e == ChecksumMismatch || e == ReorderBufferFull
  }

  lemma {:induction false} DrainErrors(cfg: Config, s: State)
    ensures Drain(cfg, s).error.Some? ==> !IsRefusal(Drain(cfg, s).error.value)
    decreases |s.pending|
  {
    if s.next in s.pending {
      RemoveKeyShrinks(s.pending, s.next);
      var f := Flush(cfg, s.(pending := s.pending - {s.next}), s.pending[s.next]);
      if f.error.None? {
        DrainErrors(cfg, f.state);
      }
    }
  }

  /** A refused chunk leaves no trace, and the chunk the stream waits for is never refused for lack of room. */
  lemma RefusalChangesNothing(cfg: Config, s: State, c: Chunk)
    ensures var r := Step(cfg, s, c);
            r.error.Some? && IsRefusal(r.error.value) ==> r.state == s
    ensures c.sequence == s.next ==> Step(cfg, s, c).error != Some(ReorderBufferFull)
  {
    if c.sequence == s.next {
      DrainErrors(cfg, Flush(cfg, s, c).state);
    }
  }

  predicate PassesChecks(cfg: Config, s: State, c: Chunk) {
    !s.completed && SessionMatches(cfg, c) && ChecksumMatches(cfg, c)
  }

  /** Both ends name a session, and not the same one. */
  predicate ForeignSession(cfg: Config, c: Chunk) {
    cfg.sessionID != [] && c.sessionID != [] && c.sessionID != cfg.sessionID
  }

  /** Checking is on and the chunk's own type finds its checksum wrong: type 1 by the CRC, type 2 by the digest. */
  predicate WrongChecksum(cfg: Config, c: Chunk) {
    && cfg.verifyChecksums
    && ((c.checksumType == 1 && c.checksum != Crc32c.CRC32(c.data))
        || (c.checksumType == 2 && c.checksumBytes != cfg.sha(c.data)))
  }

  /**
   * The four refusals, exactly, and that each leaves the state as it was. A full buffer refuses every chunk but
   * the expected one and those already written, so also a chunk it is already holding.
   */
  lemma RefusedExactlyWhen(cfg: Config, s: State, c: Chunk)
    ensures var r, ok := Step(cfg, s, c), !s.completed && !ForeignSession(cfg, c) && !WrongChecksum(cfg, c);
            && (r == Reply(s, Some(StreamCompleted)) <==> s.completed)
            && (r.error == Some(StreamCompleted) <==> s.completed)
            && (r.error == Some(SessionMismatch) <==> !s.completed && ForeignSession(cfg, c))
            && (r.error == Some(ChecksumMismatch) <==>
                  !s.completed && !ForeignSession(cfg, c) && WrongChecksum(cfg, c))
            && (r.error == Some(ReorderBufferFull) <==> ok && c.sequence > s.next && |s.pending| >= cfg.maxReorder)
            && (r.error == Some(SessionMismatch) || r.error == Some(ChecksumMismatch) ==> r.state == s)
            && (r.error == Some(ReorderBufferFull) ==> r.state == s)
  {
    RefusalChangesNothing(cfg, s, c);
    if PassesChecks(cfg, s, c) && c.sequence == s.next && Flush(cfg, s, c).error.None? {
      DrainErrors(cfg, Flush(cfg, s, c).state);
    }
  }

  /** Checks passed, a chunk from the past is ignored and one from the future is kept, as it is, under its number. */
  lemma SetAside(cfg: Config, s: State, c: Chunk)
    requires !s.completed && !ForeignSession(cfg, c) && !WrongChecksum(cfg, c)
    ensures c.sequence < s.next ==> Step(cfg, s, c) == Reply(s, None)
    ensures c.sequence > s.next && |s.pending| < cfg.maxReorder ==>
              var t := Step(cfg, s, c).state;
              && Step(cfg, s, c).error == None && t == s.(pending := t.pending)
              && t.pending.Keys == s.pending.Keys + {c.sequence as int} && t.pending[c.sequence] == c
              && forall k :: k in s.pending && k != c.sequence ==> t.pending[k] == s.pending[k]
  {
  }

  /**
   * The awaited chunk with the compressed flag, the bit of value 2: without a decompressor, or with one that
   * fails on it, it is answered with the error of that case, and nothing changes.
   */
  lemma CannotUnpack(cfg: Config, s: State, c: Chunk)
    requires !s.completed && !ForeignSession(cfg, c) && !WrongChecksum(cfg, c) && c.sequence == s.next
    requires c.flags % 4 >= 2
    ensures cfg.decompressor.None? <==> Step(cfg, s, c) == Reply(s, Some(NoDecompressor))
    ensures cfg.decompressor.Some? && cfg.decompressor.value(c.data).None? ==>
              Step(cfg, s, c) == Reply(s, Some(DecompressionFailed))
  {
    if cfg.decompressor.Some? && cfg.decompressor.value(c.data).Some? {
      var f := Flush(cfg, s, c);
      if f.error.None? {
        DrainHasDecompressor(cfg, f.state);
      }
    }
  }

  lemma {:induction false} DrainHasDecompressor(cfg: Config, s: State)
    requires cfg.decompressor.Some?
    ensures Drain(cfg, s).error != Some(NoDecompressor)
    decreases |s.pending|
  {
    if s.next in s.pending {
      RemoveKeyShrinks(s.pending, s.next);
      var f := Flush(cfg, s.(pending := s.pending - {s.next}), s.pending[s.next]);
      if f.error.None? {
        DrainHasDecompressor(cfg, f.state);
      }
    }
  }

  /** What the awaited chunk stands for: with the compressed flag its decompressed data, without it the data. */
  ghost predicate Stands(cfg: Config, c: Chunk, p: Bytes) {
    if c.flags % 4 >= 2 then cfg.decompressor.Some? && cfg.decompressor.value(c.data) == Some(p) else p == c.data
  }

  /**
   * The awaited chunk, written, if nothing is to be drained behind it: counters, digest and destination take its
   * payload, and the bit of value 1 completes the stream. An empty payload asks the destination for nothing.
   */
  lemma AwaitedIsWritten(cfg: Config, s: State, c: Chunk, p: Bytes)
    requires !s.completed && !ForeignSession(cfg, c) && !WrongChecksum(cfg, c) && c.sequence == s.next
    requires Stands(cfg, c, p) && s.next + 1 !in s.pending
    requires p == [] || s.writer.script == [] || s.writer.script[0].Accept?
    ensures var later := if p == [] || s.writer.script == [] then s.writer.script else s.writer.script[1..];
            Step(cfg, s, c) == Reply(State(s.next + 1, s.total + |p|, c.flags % 2 == 1, s.pending, s.hashed + p,
                                           Writer(s.writer.contents + p, later)), None)
  {
    assert p == [] ==> s.hashed + p == s.hashed && s.writer.contents + p == s.writer.contents;
  }

  /** If its write fails, the destination keeps the part it took, and nothing else has changed. */
  lemma AwaitedWriteFails(cfg: Config, s: State, c: Chunk, p: Bytes)
    requires !s.completed && !ForeignSession(cfg, c) && !WrongChecksum(cfg, c) && c.sequence == s.next
    requires Stands(cfg, c, p) && p != [] && s.writer.script != [] && s.writer.script[0].Fail?
    ensures var n, later := s.writer.script[0].partial, s.writer.script[1..];
            Step(cfg, s, c) == Reply(s.(writer := Writer(s.writer.contents + (if n < |p| then p[..n] else p), later)),
                                     Some(WriteFailed))
  {
    assert p[..|p|] == p;
  }

  /**
   * A chunk that waited in the buffer is treated as if it came now: the call that brings the chunk in front of it
   * does what that call without it, and then its own delivery, would do.
   */
  lemma DrainedAsDelivered(cfg: Config, s: State, c: Chunk)
    requires c.sequence == s.next && c.flags % 2 == 0 && s.next + 1 in s.pending
    requires var d := s.pending[s.next + 1];
             d.sequence == s.next + 1 && !ForeignSession(cfg, d) && !WrongChecksum(cfg, d)
    ensures var d, r := s.pending[s.next + 1], Step(cfg, s.(pending := s.pending - {s.next + 1}), c);
            Step(cfg, s, c)
            == if r.error.Some? then r.(state := r.state.(pending := s.pending)) else Step(cfg, r.state, d)
  {
    RemoveKeyShrinks(s.pending, s.next + 1);
    assert s.(pending := s.pending) == s;
  }

  /** A CRC chunk changed within four consecutive bytes is turned away and changes nothing. */
  lemma TamperedChunkIsRefused(cfg: Config, s: State, c: Chunk, before: Bytes, w: Bytes, v: Bytes, after: Bytes)
    requires cfg.verifyChecksums && c.checksumType == CHECKSUM_CRC32 && Verify(cfg.sha, c)
    requires c.data == before + w + after && |w| == |v| <= 4 && w != v
    requires !s.completed && SessionMatches(cfg, c)
    ensures Step(cfg, s, c.(data := before + v + after)) == Reply(s, Some(ChecksumMismatch))
  {
    BurstRejected(cfg.sha, c, before, w, v, after);
  }

  // --------------------------------------------------- one stream, bad weather

  /** A chunk of the stream that passes the checks but whose payload cannot be unpacked. */
  ghost predicate Damaged(cfg: Config, fam: seq<Chunk>, c: Chunk) {
    0 <= c.sequence < |fam| && Payload(cfg, c).0.None?
  }

  /** What the transport may deliver: chunks of the stream, damaged ones, and ones that fail a check. */
  ghost predicate Admissible(cfg: Config, fam: seq<Chunk>, c: Chunk) {
    c in fam || Damaged(cfg, fam, c) || !SessionMatches(cfg, c) || !ChecksumMatches(cfg, c)
  }

  ghost predicate Buffered(cfg: Config, fam: seq<Chunk>, pending: map<int, Chunk>, lo: nat) {
    forall k :: k in pending ==> lo <= k < |fam| && (pending[k] == fam[k] || Payload(cfg, pending[k]).0.None?)
  }

  ghost predicate Written(cfg: Config, fam: seq<Chunk>, s: State)
    requires IsStream(cfg, fam)
  {
    && s.next <= |fam|
    && s.hashed == Text(cfg, fam, s.next)
    && s.total == |s.hashed|
    && (s.completed <==> s.next == |fam|)
  }

  /** The invariant of every run: counted and hashed bytes are the text below `next`, the buffer is ahead of it. */
  ghost predicate Sound(cfg: Config, fam: seq<Chunk>, s: State)
    requires IsStream(cfg, fam)
  {
    Written(cfg, fam, s) && Buffered(cfg, fam, s.pending, s.next + 1) && |s.pending| <= cfg.maxReorder
  }

  lemma FlushWritten(cfg: Config, fam: seq<Chunk>, s: State, c: Chunk)
    requires IsStream(cfg, fam) && Written(cfg, fam, s) && s.next < |fam|
    requires c == fam[s.next] || Payload(cfg, c).0.None?
    ensures var r := Flush(cfg, s, c);
            && Written(cfg, fam, r.state) && r.state.pending == s.pending
            && r.state.next == (if r.error.None? then s.next + 1 else s.next)
  {
    TextStep(cfg, fam, s.next);
    assert IsStreamChunk(cfg, fam[s.next], s.next, |fam|);
  }

  lemma {:induction false} DrainSound(cfg: Config, fam: seq<Chunk>, s: State)
    requires IsStream(cfg, fam) && Written(cfg, fam, s)
    requires Buffered(cfg, fam, s.pending, s.next) && |s.pending| <= cfg.maxReorder
    ensures Sound(cfg, fam, Drain(cfg, s).state)
    decreases |s.pending|
  {
    if s.next in s.pending {
      RemoveKeyShrinks(s.pending, s.next);
      var s1 := s.(pending := s.pending - {s.next});
      var c := s.pending[s.next];
      FlushWritten(cfg, fam, s1, c);
      if Flush(cfg, s1, c).error.None? {
        DrainSound(cfg, fam, Flush(cfg, s1, c).state);
      }
    }
  }

  /** After every call, failed or not, in the middle of a drain or not, the invariant holds again. */
  lemma StepSound(cfg: Config, fam: seq<Chunk>, s: State, c: Chunk)
    requires IsStream(cfg, fam) && Sound(cfg, fam, s) && Admissible(cfg, fam, c)
    ensures Sound(cfg, fam, Step(cfg, s, c).state)
    ensures Step(cfg, s, c).state.next >= s.next
  {
    assert Window(cfg, s);
    StepKeepsWindow(cfg, s, c);
    if !s.completed && SessionMatches(cfg, c) && ChecksumMatches(cfg, c) {
      if c in fam {
        MemberFacts(cfg, fam, c);
      }
      if c.sequence == s.next {
        FlushWritten(cfg, fam, s, c);
        if Flush(cfg, s, c).error.None? {
          DrainSound(cfg, fam, Flush(cfg, s, c).state);
        }
      }
    }
  }

  // ------------------------------------------------------------- torn writes

  ghost predicate Clean(o: Outcome) {
    o.Fail? ==> o.partial == 0
  }

  ghost predicate AllClean(os: seq<Outcome>) {
    forall i :: 0 <= i < |os| ==> Clean(os[i])
  }

  /** The answers of the destination used up between two states. */
  ghost function Consumed(s: State, t: State): seq<Outcome>
    requires |t.writer.script| <= |s.writer.script|
  {
    s.writer.script[..|s.writer.script| - |t.writer.script|]
  }

  ghost predicate Follows(s: State, t: State) {
    && |t.writer.script| <= |s.writer.script|
    && s.writer.script == Consumed(s, t) + t.writer.script
  }

  lemma CleanConcat(a: seq<Outcome>, b: seq<Outcome>)
    ensures AllClean(a + b) <==> AllClean(a) && AllClean(b)
  {
    if AllClean(a + b) {
      forall i | 0 <= i < |b|
        ensures Clean(b[i])
      {
        assert (a + b)[|a| + i] == b[i];
      }
      forall i | 0 <= i < |a|
        ensures Clean(a[i])
      {
        assert (a + b)[i] == a[i];
      }
    }
  }

  lemma FollowsTransitive(s: State, t: State, u: State)
    requires Follows(s, t) && Follows(t, u)
    ensures Follows(s, u)
    ensures AllClean(Consumed(s, u)) <==> AllClean(Consumed(s, t)) && AllClean(Consumed(t, u))
  {
    assert Consumed(s, u) == Consumed(s, t) + Consumed(t, u);
    CleanConcat(Consumed(s, t), Consumed(t, u));
  }

  /** One write leaves exactly what was counted unless it is torn. */
  lemma WriteOutput(w: Writer, p: Bytes)
    requires p != []
    ensures var w' := w.Write(p);
            && |w'.script| <= |w.script|
            && w.script == w.script[..|w.script| - |w'.script|] + w'.script
            && (w.Accepts() ==> w'.contents == w.contents + p)
            && (w.Accepts() || w'.contents == w.contents <==> AllClean(w.script[..|w.script| - |w'.script|]))
  {
    if w.script != [] {
      assert w.script[..1] == [w.script[0]];
      assert w.script == w.script[..1] + w.script[1..];
      var n := Min(if w.Accepts() then 0 else w.script[0].partial, |p|);
      if !w.Accepts() {
        assert |w.Write(p).contents| == |w.contents| + n;
        assert n == 0 ==> w.Write(p).contents == w.contents;
      }
    }
  }

  lemma FlushOutput(cfg: Config, s: State, c: Chunk)
    requires s.writer.contents == s.hashed
    ensures var r := Flush(cfg, s, c);
            && Follows(s, r.state)
            && (r.state.writer.contents == r.state.hashed <==> AllClean(Consumed(s, r.state)))
            && (r.error.None? ==> r.state.writer.contents == r.state.hashed)
  {
    var p := Payload(cfg, c).0;
    if p.Some? && p.value != [] {
      WriteOutput(s.writer, p.value);
    }
  }

  lemma {:induction false} DrainOutput(cfg: Config, s: State)
    requires s.writer.contents == s.hashed
    ensures var r := Drain(cfg, s).state;
            && Follows(s, r)
            && (r.writer.contents == r.hashed <==> AllClean(Consumed(s, r)))
    decreases |s.pending|
  {
    if s.next in s.pending {
      RemoveKeyShrinks(s.pending, s.next);
      var s1 := s.(pending := s.pending - {s.next});
      var f := Flush(cfg, s1, s.pending[s.next]);
      FlushOutput(cfg, s1, s.pending[s.next]);
      if f.error.None? {
        DrainOutput(cfg, f.state);
        FollowsTransitive(s, f.state, Drain(cfg, f.state).state);
      }
    }
  }

  /**
   * Exactly when the destination still holds the counted bytes after a call: when no write of that
   * call failed after taking some bytes. A torn write is not counted, so a retry repeats its bytes.
   */
  lemma StepOutput(cfg: Config, s: State, c: Chunk)
    requires s.writer.contents == s.hashed
    ensures var t := Step(cfg, s, c).state;
            && Follows(s, t)
            && (t.writer.contents == t.hashed <==> AllClean(Consumed(s, t)))
  {
    if !s.completed && SessionMatches(cfg, c) && ChecksumMatches(cfg, c) && c.sequence == s.next {
      var f := Flush(cfg, s, c);
      FlushOutput(cfg, s, c);
      if f.error.None? {
        DrainOutput(cfg, f.state);
        FollowsTransitive(s, f.state, Drain(cfg, f.state).state);
      }
    }
  }

  const NO_SHA: Sha256 := data => [
    0, 0, 0, 0, 0, 0, 0, 0, 0, 0, 0, 0, 0, 0, 0, 0, 0, 0, 0, 0, 0, 0, 0, 0, 0, 0, 0, 0, 0, 0, 0, 0]

  /** A concrete torn write: one byte of two is taken, the retry writes both, and the output is wrong. */
  lemma TornWriteDuplicates(cfg: Config, c: Chunk)
    requires cfg == Config([], false, 1, None, NO_SHA)
    requires c == Chunk([], 0, 0, 1, 2, [7, 8], 0, [], CHECKSUM_NONE, FLAG_IS_LAST, map[])
    ensures IsStream(cfg, [c]) && Whole(cfg, [c]) == [7, 8]
    ensures var s := Run(cfg, Initial(Writer([], [Fail(1)])), [c, c]);
            s.completed && s.writer.contents == [7, 7, 8]
  {
    var s0 := Initial(Writer([], [Fail(1)]));
    assert Payloads(cfg, [c]) == [[7, 8]];
    assert [[7, 8]][..0] == [];
    assert Flatten([[7, 8]]) == [7, 8];
    var s1 := Step(cfg, s0, c).state;
    assert s1 == s0.(writer := Writer([7], []));
    assert [c, c][..1] == [c] && [c][..0] == [];
    assert Run(cfg, s0, [c]) == s1;
    assert [7] + [7, 8] == [7, 7, 8];
  }

  // ---------------------------------------------------------------- resuming

  ghost predicate AllAdmissible(cfg: Config, fam: seq<Chunk>, calls: seq<Chunk>) {
    forall t :: 0 <= t < |calls| ==> Admissible(cfg, fam, calls[t])
  }

  /** With a destination that takes all or nothing, every run keeps the output equal to the text below `next`. */
  lemma {:induction false} RunSound(cfg: Config, fam: seq<Chunk>, script: seq<Outcome>, calls: seq<Chunk>)
    requires IsStream(cfg, fam) && AllAdmissible(cfg, fam, calls) && AllClean(script)
    ensures var s := Run(cfg, Initial(Writer([], script)), calls);
            && Sound(cfg, fam, s)
            && s.writer.contents == Text(cfg, fam, s.next) && AllClean(s.writer.script)
            && s.writer.contents <= Whole(cfg, fam)
    decreases |calls|
  {
    var s := Run(cfg, Initial(Writer([], script)), calls);
    if calls == [] {
      assert Text(cfg, fam, 0) == [];
    } else {
      var before, c := calls[..|calls| - 1], calls[|calls| - 1];
      RunSound(cfg, fam, script, before);
      var r := Run(cfg, Initial(Writer([], script)), before);
      StepSound(cfg, fam, r, c);
      StepOutput(cfg, r, c);
      CleanConcat(Consumed(r, s), s.writer.script);
    }
    TextIsPrefix(cfg, fam, s.next);
  }

  /** Redelivering the chunk the stream waits for moves it on, as soon as the destination accepts a write. */
  lemma RedeliveryAdvances(cfg: Config, fam: seq<Chunk>, s: State)
    requires IsStream(cfg, fam) && Sound(cfg, fam, s) && !s.completed && s.writer.Accepts()
    ensures Step(cfg, s, fam[s.next]).state.next > s.next
    ensures Sound(cfg, fam, Step(cfg, s, fam[s.next]).state)
  {
    var c := fam[s.next];
    MemberFacts(cfg, fam, c);
    StepSound(cfg, fam, s, c);
    FlushWritten(cfg, fam, s, c);
    DrainFrame(cfg, Flush(cfg, s, c).state);
  }

  ghost predicate Healthy(cfg: Config, fam: seq<Chunk>, s: State)
    requires IsStream(cfg, fam)
  {
    Sound(cfg, fam, s) && s.writer.script == [] && s.writer.contents == s.hashed
  }

  lemma StepHealthy(cfg: Config, fam: seq<Chunk>, s: State, i: nat)
    requires IsStream(cfg, fam) && Healthy(cfg, fam, s) && i < |fam| && s.next >= i
    ensures var t := Step(cfg, s, fam[i]).state; Healthy(cfg, fam, t) && t.next >= i + 1
  {
    MemberFacts(cfg, fam, fam[i]);
    assert IsStreamChunk(cfg, fam[i], i, |fam|);
    StepSound(cfg, fam, s, fam[i]);
    StepOutput(cfg, s, fam[i]);
    if s.next == i {
      RedeliveryAdvances(cfg, fam, s);
    }
  }

  lemma {:induction false} ResendReaches(cfg: Config, fam: seq<Chunk>, s: State, i: nat) returns (t: State)
    requires IsStream(cfg, fam) && Healthy(cfg, fam, s) && i <= |fam|
    ensures t == Run(cfg, s, fam[..i]) && Healthy(cfg, fam, t) && t.next >= i
  {
    if i == 0 {
      t := s;
    } else {
      var u := ResendReaches(cfg, fam, s, i - 1);
      StepHealthy(cfg, fam, u, i - 1);
      RunStep(cfg, s, fam, i - 1);
      t := Step(cfg, u, fam[i - 1]).state;
    }
  }

  /**
   * Recovery: whatever went wrong before (failed writes, half-drained buffers, damaged chunks still in
   * the buffer), once writes succeed again, sending the stream once more in order completes it, with
   * nothing lost and nothing repeated.
   */
  lemma ResendCompletes(cfg: Config, fam: seq<Chunk>, script: seq<Outcome>, calls: seq<Chunk>)
    requires IsStream(cfg, fam) && AllAdmissible(cfg, fam, calls) && AllClean(script)
    requires Run(cfg, Initial(Writer([], script)), calls).writer.script == []
    ensures var s := Run(cfg, Run(cfg, Initial(Writer([], script)), calls), fam);
            s.completed && s.writer.contents == Whole(cfg, fam) && s.total == |Whole(cfg, fam)|
  {
    var s := Run(cfg, Initial(Writer([], script)), calls);
    RunSound(cfg, fam, script, calls);
    var t := ResendReaches(cfg, fam, s, |fam|);
    assert fam[..|fam|] == fam;
    TextIsPrefix(cfg, fam, |fam|);
  }
}
