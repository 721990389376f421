/** Splitters that share one buffer pool, as all splitters by default do, and other users of that pool. */
module SharedPool {
  import opened Basics
  import opened Core
  import opened ChunkObject
  import opened Pool
  import opened SplitModel
  import opened Lookahead
  import opened Splitter

  /** Both work on one pool, from readers of their own, and no buffer is in use by both. */
  ghost predicate Beside(a: Splitter, b: Splitter)
    reads a, a.reader, a.pool, a.Buffers(), b, b.reader, b.pool, b.Buffers()
  {
    && a != b && a.pool == b.pool && a.reader != b.reader
    && a.Valid() && b.Valid()
    && a.InUse() !! b.InUse()
  }

  /** What b stands for: the blocks to come and, once it has begun, its two buffers and its reader. */
  ghost predicate Undisturbed(b: Splitter, future: seq<Block>, view: Option<View>)
    reads b, b.reader, b.pool, b.Buffers()
  {
    && b.Valid() && b.future == future
    && (b.initialized && !b.isDone ==> view == Some(b.Abs()))
  }

  ghost function ViewOf(b: Splitter): Option<View>
    requires b.Valid()
    reads b, b.reader, b.pool, b.Buffers()
  {
    if b.initialized && !b.isDone then Some(b.Abs()) else None
  }

  lemma OwnBuffers(s: Splitter)
    requires s.Valid()
    ensures s.InUse() !! s.pool.held
  {
  }

  /** A call of Next on a leaves b as it was. */
  method NextLeaves(a: Splitter, b: Splitter) returns (chunk: Option<ChunkCell>, error: Option<Error>)
    requires Beside(a, b)
    modifies a, a.reader, a.pool, a.Repr()
    ensures Undisturbed(b, old(b.future), old(ViewOf(b))) && b.InUse() == old(b.InUse()) && Beside(a, b)
    ensures chunk.Some? ==> fresh(chunk.value.data) && fresh(chunk.value.checksumBytes) && a.Apart(chunk.value)
    ensures !old(a.isDone) && !old(a.FirstReadFails()) ==>
              && old(a.future) != [] && a.future == old(a.future)[1..]
              && chunk.Some? && chunk.value.Value() == ChunkOf(a.cfg, old(a.future)[0])
  {
    OwnBuffers(b);
    ghost var running, view := b.initialized && !b.isDone, ViewOf(b);
    chunk, error := a.Next();
    assert b.InUse() !! a.Repr();
    assert running ==> b.BuffersValid() && Some(b.Abs()) == view;
  }

  /**
   * A call of Next on one splitter leaves every other one on the pool as it was, whatever buffers went back
   * and forth, and the two still share no buffer. The chunk emitted shares none with either.
   */
  method NextBeside(a: Splitter, b: Splitter) returns (chunk: Option<ChunkCell>, error: Option<Error>)
    requires Beside(a, b)
    modifies a, a.reader, a.pool, a.Repr()
    ensures Undisturbed(b, old(b.future), old(ViewOf(b))) && Beside(a, b)
    ensures chunk.Some? ==> a.Apart(chunk.value) && b.Apart(chunk.value)
    ensures !old(a.isDone) && !old(a.FirstReadFails()) ==>
              && old(a.future) != [] && a.future == old(a.future)[1..]
              && chunk.Some? && chunk.value.Value() == ChunkOf(a.cfg, old(a.future)[0])
  {
    chunk, error := NextLeaves(a, b);
  }

  /** Somebody else hands a buffer to the pool that is not this splitter's. */
  method ForeignPut(s: Splitter, buf: array<byte>)
    requires s.Valid() && buf !in s.Repr()
    modifies s.pool
    ensures Undisturbed(s, old(s.future), old(ViewOf(s))) && s.InUse() == old(s.InUse())
  {
    var _ := s.pool.Put(buf);
  }

  /** Somebody else takes a buffer from the pool: it is none that this splitter uses or can still be handed. */
  method ForeignGet(s: Splitter, size: int) returns (buf: array?<byte>)
    requires s.Valid()
    modifies s.pool
    ensures Undisturbed(s, old(s.future), old(ViewOf(s))) && s.InUse() == old(s.InUse())
    ensures size > 0 ==> buf != null && buf.Length >= size && buf !in s.Repr()
  {
    var b, _ := s.pool.Get(size);
    buf := b;
  }

  /** The garbage collector empties a slot of the pool. */
  method ForeignDrop(s: Splitter, i: nat, buf: array<byte>)
    requires s.Valid() && i < |s.pool.pools|
    modifies s.pool
    ensures Undisturbed(s, old(s.future), old(ViewOf(s))) && s.InUse() == old(s.InUse())
  {
    s.pool.Drop(i, buf);
  }
}
