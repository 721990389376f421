/** What one call of Assembler.WriteChunk does (pkg/assembler/assembler.go), on values. */
module AssemblerModel {
  import opened Basics
  import opened Core
  import opened Checksum

  type Decompressor = Bytes -> Option<Bytes>

  datatype Config = Config(
    sessionID: Bytes,
    verifyChecksums: bool,
    maxReorder: nat,
    decompressor: Option<Decompressor>,
    sha: Sha256)

  /** How the destination answers one Write: it takes everything, or fails after `partial` bytes. */
  datatype Outcome = Accept | Fail(partial: nat)

  /** The destination: what it holds and how it will answer from now on; past the script it accepts. */
  datatype Writer = Writer(contents: Bytes, script: seq<Outcome>) {
    predicate Accepts() {
      script == [] || script[0].Accept?
    }

    function Write(p: Bytes): Writer {
      var later := if script == [] then [] else script[1..];
      if Accepts() then Writer(contents + p, later)
      else Writer(contents + p[..Min(script[0].partial, |p|)], later)
    }
  }

  datatype State = State(
    next: nat,
    total: nat,
    completed: bool,
    pending: map<int, Chunk>,
    hashed: Bytes,
    writer: Writer)

  datatype Reply = Reply(state: State, error: Option<Error>)

  function Initial(w: Writer): State {
    State(0, 0, false, map[], [], w)
  }

  /** The payload a chunk stands for, or why it cannot be had. */
  function Payload(cfg: Config, c: Chunk): (Option<Bytes>, Error) {
    if !IsCompressed(c) then (Some(c.data), EOF)
    else if cfg.decompressor.None? then (None, NoDecompressor)
    else (cfg.decompressor.value(c.data), DecompressionFailed)
  }

  /** flushChunk */
  function Flush(cfg: Config, s: State, c: Chunk): Reply {
    var (payload, why) := Payload(cfg, c);
    if payload.None? then Reply(s, Some(why))
    else
      var p := payload.value;
      if |p| > 0 && !s.writer.Accepts() then
        Reply(s.(writer := s.writer.Write(p)), Some(WriteFailed))
      else
        var s' := if |p| > 0
                  then s.(writer := s.writer.Write(p), total := s.total + |p|, hashed := s.hashed + p)
                  else s;
        Reply(s'.(next := s.next + 1, completed := s.completed || IsLast(c)), None)
  }

  /** The loop that writes buffered chunks: each leaves the buffer before it is flushed. */
  function Drain(cfg: Config, s: State): Reply
    decreases |s.pending|
  {
    if s.next !in s.pending then Reply(s, None)
    else
      RemoveKeyShrinks(s.pending, s.next);
      var r := Flush(cfg, s.(pending := s.pending - {s.next}), s.pending[s.next]);
      if r.error.Some? then r else Drain(cfg, r.state)
  }

  predicate SessionMatches(cfg: Config, c: Chunk) {
    cfg.sessionID == [] || c.sessionID == [] || c.sessionID == cfg.sessionID
  }

  predicate ChecksumMatches(cfg: Config, c: Chunk) {
    cfg.verifyChecksums ==> Verify(cfg.sha, c)
  }

  /** WriteChunk */
  function Step(cfg: Config, s: State, c: Chunk): Reply {
    if s.completed then Reply(s, Some(StreamCompleted))
    else if !SessionMatches(cfg, c) then Reply(s, Some(SessionMismatch))
    else if !ChecksumMatches(cfg, c) then Reply(s, Some(ChecksumMismatch))
    else if c.sequence < s.next then Reply(s, None)
    else if c.sequence > s.next then
      if |s.pending| >= cfg.maxReorder then Reply(s, Some(ReorderBufferFull))
      else Reply(s.(pending := s.pending[c.sequence := c]), None)
    else
      var r := Flush(cfg, s, c);
      if r.error.Some? then r else Drain(cfg, r.state)
  }
}

/** The assembler as the code runs it: fields updated in place, a drain loop, a writer that may fail. */
module Assembler {
  import opened Basics
  import opened Core
  import opened Checksum
  import opened ChunkObject
  import opened AssemblerModel

  class Destination {
    var contents: Bytes
    var script: seq<Outcome>

    constructor (script: seq<Outcome>)
      ensures contents == [] && this.script == script
    {
      contents := [];
      this.script := script;
    }

    function Abs(): AssemblerModel.Writer
      reads this
    {
      AssemblerModel.Writer(contents, script)
    }

    method Write(p: Bytes) returns (n: nat, ok: bool)
      modifies this
      ensures Abs() == old(Abs()).Write(p)
      ensures ok == old(Abs()).Accepts()
      ensures n <= |p| && contents == old(contents) + p[..n] && (ok ==> n == |p|)
    {
      if script == [] || script[0].Accept? {
        n, ok := |p|, true;
      } else {
        n, ok := Min(script[0].partial, |p|), false;
      }
      assert p[..|p|] == p;
      contents := contents + p[..n];
      script := if script == [] then [] else script[1..];
    }
  }

  class Assembler {
    const cfg: Config
    const writer: Destination
    const cumulativeHasher: CumulativeStreamHasher
    var nextSequence: nat
    var totalBytes: nat
    var isCompleted: bool
    var pendingChunks: map<int, ChunkCell>
    ghost var pending: map<int, Chunk>      // what the buffered chunks hold
    ghost var cells: set<ChunkCell>         // the buffered chunks, now or earlier
    ghost var storage: set<array<byte>>     // and their storage

    ghost predicate Valid()
      reads `pendingChunks, `pending, `cells, `storage, cells, storage
    {
      && pendingChunks.Keys == pending.Keys
      && forall k :: k in pendingChunks ==>
           var c := pendingChunks[k];
           c in cells && c.data in storage && c.checksumBytes in storage && c.Value() == pending[k]
    }

    /** The state the model speaks about. */
    ghost function Abs(): State
      reads this, writer, cumulativeHasher
    {
      State(nextSequence, totalBytes, isCompleted, pending, cumulativeHasher.fed, writer.Abs())
    }

    constructor (w: Destination, cfg: Config)
      ensures writer == w && this.cfg == cfg && fresh(cumulativeHasher)
      ensures cumulativeHasher.sha == cfg.sha
      ensures Valid() && cells == {} && storage == {} && Abs() == Initial(w.Abs())
    {
      writer := w;
      this.cfg := cfg;
      cumulativeHasher := new CumulativeStreamHasher(cfg.sha);
      nextSequence, totalBytes, isCompleted, pendingChunks := 0, 0, false, map[];
      pending, cells, storage := map[], {}, {};
    }

    method FlushChunk(chunk: Chunk) returns (error: Option<Error>)
      modifies this`nextSequence, this`totalBytes, this`isCompleted, writer, cumulativeHasher
      ensures Reply(Abs(), error) == Flush(cfg, old(Abs()), chunk)
    {
      var payload := chunk.data;
      if IsCompressed(chunk) {
        if cfg.decompressor.None? {
          return Some(NoDecompressor);
        }
        var decompressed := cfg.decompressor.value(payload);
        if decompressed.None? {
          return Some(DecompressionFailed);
        }
        payload := decompressed.value;
      }
      if |payload| > 0 {
        var n, ok := writer.Write(payload);
        if !ok {
          return Some(WriteFailed);
        }
        totalBytes := totalBytes + n;
        cumulativeHasher.Update(payload);
      }
      nextSequence := nextSequence + 1;
      if IsLast(chunk) {
        isCompleted := true;
      }
      return None;
    }

    /** The awaited chunk leaves the buffer. */
    method TakeNext() returns (c: Chunk)
      requires Valid() && nextSequence in pendingChunks
      modifies this`pendingChunks, this`pending
      ensures Valid() && |pendingChunks| < old(|pendingChunks|)
      ensures nextSequence in old(pending) && c == old(pending)[nextSequence]
      ensures old(Abs()).pending == old(pending) && Abs() == old(Abs()).(pending := old(pending) - {nextSequence})
    {
      c := pendingChunks[nextSequence].Value();
      RemoveKeyShrinks(pendingChunks, nextSequence);
      pendingChunks, pending := pendingChunks - {nextSequence}, pending - {nextSequence};
    }

    /** Writing a chunk leaves the buffer as it is. */
    method FlushBeside(chunk: Chunk) returns (error: Option<Error>)
      requires Valid()
      modifies this`nextSequence, this`totalBytes, this`isCompleted, writer, cumulativeHasher
      ensures Valid()
      ensures Reply(Abs(), error) == Flush(cfg, old(Abs()), chunk)
    {
      error := FlushChunk(chunk);
    }

    /** One turn of the drain loop. */
    method FlushNext() returns (error: Option<Error>)
      requires Valid() && nextSequence in pendingChunks
      modifies this`nextSequence, this`totalBytes, this`isCompleted, this`pendingChunks, this`pending
      modifies writer, cumulativeHasher
      ensures Valid() && |pendingChunks| < old(|pendingChunks|)
      ensures old(nextSequence in pending)
      ensures var s := old(Abs());
              Reply(Abs(), error) == Flush(cfg, s.(pending := s.pending - {s.next}), s.pending[s.next])
    {
      var next := TakeNext();
      error := FlushBeside(next);
    }

    method DrainPending() returns (error: Option<Error>)
      requires Valid()
      modifies this`nextSequence, this`totalBytes, this`isCompleted, this`pendingChunks, this`pending
      modifies writer, cumulativeHasher
      ensures Valid() && Reply(Abs(), error) == Drain(cfg, old(Abs()))
    {
      while nextSequence in pendingChunks
        invariant Valid() && Drain(cfg, Abs()) == Drain(cfg, old(Abs()))
        decreases |pendingChunks|
      {
        error := FlushNext();
        if error.Some? {
          return;
        }
      }
      return None;
    }

    /** A chunk that has to wait is buffered as a clone: nothing the caller holds gets into the buffer. */
    method Buffer(c: ChunkCell)
      requires Valid()
      modifies this`pendingChunks, this`pending, this`cells, this`storage
      ensures Valid() && pending == old(pending)[c.Value().sequence := c.Value()]
      ensures fresh(cells - old(cells)) && fresh(storage - old(storage))
    {
      var clone := c.Clone();
      pendingChunks := pendingChunks[c.Value().sequence := clone];
      pending := pending[c.Value().sequence := c.Value()];
      cells, storage := cells + {clone}, storage + {clone.data, clone.checksumBytes};
    }

    /** The checks at the head of WriteChunk. */
    method CheckChunk(chunk: Chunk) returns (error: Option<Error>)
      ensures error == if isCompleted then Some(StreamCompleted)
                       else if !SessionMatches(cfg, chunk) then Some(SessionMismatch)
                       else if !ChecksumMatches(cfg, chunk) then Some(ChecksumMismatch)
                       else None
    {
      if isCompleted {
        return Some(StreamCompleted);
      }
      if cfg.sessionID != [] && chunk.sessionID != [] && chunk.sessionID != cfg.sessionID {
        return Some(SessionMismatch);
      }
      if cfg.verifyChecksums && chunk.checksumType != CHECKSUM_NONE {
        var ok := VerifyChunk(cfg.sha, chunk);
        if !ok {
          return Some(ChecksumMismatch);
        }
      }
      return None;
    }

    /** WriteChunk. The buffer never shares storage with a chunk it was given. */
    method WriteChunk(c: ChunkCell) returns (error: Option<Error>)
      requires Valid()
      modifies this, writer, cumulativeHasher
      ensures Valid() && fresh(cells - old(cells)) && fresh(storage - old(storage))
      ensures Reply(Abs(), error) == Step(cfg, old(Abs()), c.Value())
    {
      var chunk := c.Value();
      error := CheckChunk(chunk);
      if error.Some? {
        return;
      }
      if chunk.sequence < nextSequence {
        return None;
      }
      if chunk.sequence > nextSequence {
        SameSize();
        if |pendingChunks| >= cfg.maxReorder {
          return Some(ReorderBufferFull);
        }
        Buffer(c);
        return None;
      }
      error := FlushChunk(chunk);
      if error.Some? {
        return;
      }
      error := DrainPending();
    }

    lemma SameSize()
      requires Valid()
      ensures |pendingChunks| == |pending|
    {
      assert |pendingChunks.Keys| == |pendingChunks| && |pending.Keys| == |pending|;
    }

    method IsCompleted() returns (done: bool)
      ensures done == Abs().completed
    {
      done := isCompleted;
    }

    method TotalBytes() returns (n: nat)
      ensures n == Abs().total
    {
      n := totalBytes;
    }

    method CumulativeHash() returns (digest: Bytes)
      ensures digest == cumulativeHasher.sha(Abs().hashed)
    {
      digest := cumulativeHasher.Sum();
    }
  }
}
