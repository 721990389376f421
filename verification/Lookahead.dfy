/** The lookahead on values: what the two buffers hold and which bytes are still to be emitted. */
module Lookahead {
  import opened Basics
  import opened Core
  import opened Sources
  import opened SplitModel

  /** The filled part of the current and of the next buffer, the remembered read error and the reader. */
  datatype View = View(curr: Bytes, next: Bytes, readErr: Option<Error>, src: Source)

  /** initLookahead; the error is the one it returns. */
  ghost function Prime(src: Source, k: nat): (View, Option<Error>) {
    var r1 := ReadFull(src, k);
    if r1.error == Some(ReadFailed) then (View(r1.bytes, [], None, r1.src), r1.error)
    else if r1.bytes == [] then (View([], [], Some(EOF), r1.src), None)
    else
      var r2 := ReadFull(r1.src, k);
      (View(r1.bytes, r2.bytes, if r2.error == Some(UnexpectedEOF) then None else r2.error, r2.src), None)
  }

  /** The window slides: the next block becomes current and, unless reading has ended, another is read. */
  ghost function Slide(v: View, k: nat): View {
    if v.readErr.Some? then View(v.next, [], v.readErr, v.src)
    else
      var r := ReadFull(v.src, k);
      View(v.next, r.bytes, if r.error == Some(UnexpectedEOF) then Some(EOF) else r.error, r.src)
  }

  ghost predicate ValidView(v: View, k: nat) {
    && |v.curr| <= k && |v.next| <= k
    && (v.next != [] ==> |v.curr| == k)
    && (0 < |v.next| < k ==> v.readErr.Some? || v.src.rest == [])
  }

  /**
   * The bytes still to be emitted: the current block, the block read ahead and what the reader will
   * yet deliver. Without a block read ahead the current one is the last, whatever the reader holds.
   */
  ghost function RemainingOf(v: View, k: nat): Bytes
    requires k > 0
  {
    if v.next == [] then v.curr
    else v.curr + (v.next + if v.readErr.None? then Harvest(v.src, k).got else [])
  }

  /** The first two reads lose nothing: the view stands for everything the reader will deliver. */
  lemma PrimeRemaining(src: Source, k: nat)
    requires k > 0
    ensures var (v, error) := Prime(src, k);
            && ValidView(v, k)
            && (error.Some? <==> ReadFull(src, k).error == Some(ReadFailed))
            && RemainingOf(v, k) == (if error.Some? then ReadFull(src, k).bytes else Harvest(src, k).got)
            && |RemainingOf(v, k)| <= |src.rest|
  {
    var r1 := ReadFull(src, k);
    ReadFullFacts(src, k);
    HarvestFacts(src, k);
    ReadFullFacts(r1.src, k);
    HarvestOfRest(ReadFull(r1.src, k).src, k);
  }

  lemma HarvestOfRest(s: Source, k: nat)
    requires k > 0
    ensures s.rest == [] ==> Harvest(s, k).got == []
  {
    if s.rest == [] {
      HarvestOfNothing(s, k);
    }
  }

  /** Sliding drops exactly the block that was emitted. */
  lemma SlideRemaining(v: View, k: nat)
    requires k > 0 && ValidView(v, k) && v.next != []
    ensures ValidView(Slide(v, k), k)
    ensures RemainingOf(v, k) == v.curr + RemainingOf(Slide(v, k), k)
  {
    if v.readErr.None? {
      var r := ReadFull(v.src, k);
      ReadFullFacts(v.src, k);
      HarvestOfRest(v.src, k);
      HarvestOfRest(r.src, k);
      assert v.next + [] == v.next;
      assert r.error.None? ==> Harvest(v.src, k).got == r.bytes + Harvest(r.src, k).got;
    } else {
      assert v.next + [] == v.next;
    }
  }

  /** The blocks of a text, or none when its indices and offsets would not fit. */
  ghost function BlocksOf(text: Bytes, k: nat, sequence: nat, offset: nat): seq<Block> {
    if k > 0 && Fits(text, sequence, offset) then Cut(text, k, sequence, offset) else []
  }

  /** The blocks to come from a reader nothing has been read from yet. */
  ghost function FutureOfSource(src: Source, k: nat): seq<Block> {
    if k > 0 then BlocksOf(Harvest(src, k).got, k, 0, 0) else []
  }

  /** The blocks to come once the two buffers are in use; none when the buffers do not fit together. */
  ghost function FutureOf(v: View, k: nat, sequence: nat, offset: nat): seq<Block> {
    if k > 0 && ValidView(v, k) && (v.curr == [] ==> v.next == [] && sequence == offset == 0)
    then BlocksOf(RemainingOf(v, k), k, sequence, offset)
    else []
  }

  /** Priming keeps the blocks to come; after a fault in the first block only the bytes it got remain. */
  lemma PrimeKeepsFuture(src: Source, k: nat)
    requires FutureOfSource(src, k) != []
    ensures var (v, error) := Prime(src, k);
            && (error == if ReadFull(src, k).error == Some(ReadFailed) then Some(ReadFailed) else None)
            && FutureOf(v, k, 0, 0) == (if error.Some? then BlocksOf(ReadFull(src, k).bytes, k, 0, 0)
                                        else FutureOfSource(src, k))
            && FutureOf(v, k, 0, 0) != []
  {
    PrimeRemaining(src, k);
    ReadFullFacts(src, k);
    HarvestStartsWithFirstRead(src, k);
  }

  lemma HarvestStartsWithFirstRead(src: Source, k: nat)
    requires k > 0
    ensures |ReadFull(src, k).bytes| <= |Harvest(src, k).got|
  {
    ReadFullFacts(src, k);
  }

  /** With nothing read ahead, the current buffer is the only block left, and the last. */
  lemma CurrentIsLastBlock(v: View, k: nat, sequence: nat, offset: nat)
    requires FutureOf(v, k, sequence, offset) != [] && v.next == []
    ensures sequence <= MAX_INT64 && offset <= MAX_INT64
    ensures FutureOf(v, k, sequence, offset) == [Block(sequence, offset, v.curr, true)]
    ensures v.curr == [] ==> sequence == offset == 0
  {
  }

  lemma BlocksStep(block: Bytes, later: Bytes, k: nat, sequence: nat, offset: nat)
    requires |block| == k > 0 && later != [] && BlocksOf(block + later, k, sequence, offset) != []
    ensures sequence <= MAX_INT64 && offset <= MAX_INT64
    ensures BlocksOf(block + later, k, sequence, offset)
         == [Block(sequence, offset, block, false)] + BlocksOf(later, k, sequence + 1, offset + k)
    ensures BlocksOf(later, k, sequence + 1, offset + k) != []
  {
    assert (block + later)[..k] == block && (block + later)[k..] == later;
  }

  /** With a block read ahead, the current buffer is a full block; after the slide the buffers stand for the others. */
  lemma CurrentIsFirstBlock(v: View, k: nat, sequence: nat, offset: nat)
    requires FutureOf(v, k, sequence, offset) != [] && v.next != []
    ensures sequence <= MAX_INT64 && offset <= MAX_INT64 && v.curr != []
    ensures var later := FutureOf(Slide(v, k), k, sequence + 1, offset + |v.curr|);
            FutureOf(v, k, sequence, offset) == [Block(sequence, offset, v.curr, false)] + later && later != []
  {
    SlideRemaining(v, k);
    BlocksStep(v.curr, RemainingOf(Slide(v, k), k), k, sequence, offset);
  }
}
