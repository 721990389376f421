/**
 * Splitter.Stream feeding AsReader through a bounded channel, as interleaved steps: the producing
 * goroutine, the consuming goroutine with its assembler and pipe, the reader at the far end, and two
 * contexts that may be cancelled at any moment.
 */
module Pipeline {
  import opened Basics
  import opened Core
  import opened AssemblerModel
  import opened Reassembly
  import opened Transport
  import opened Sources
  import opened Lookahead
  import Split = SplitModel
  import opened EndToEnd

  /** Where the producer is: before its poll of the context, holding a chunk to send, or returned. */
  datatype Producer = Polling | Holding | Returned(error: Option<Error>)

  /** Where the consumer is: at its select, inside a pipe write, or with the pipe closed. */
  datatype Consumer = Selecting | Writing(last: bool) | Closed(error: Option<Error>)

  datatype World = World(
    producer: Producer,
    taken: nat,              // chunks obtained from Next
    queue: seq<Chunk>,       // the channel; it is closed once the producer has returned
    consumer: Consumer,
    asm: State,
    pipe: Bytes,             // offered by the consumer, not yet read
    delivered: Bytes,        // what the reader has got
    producerCancelled: bool,
    consumerCancelled: bool)

  /**
   * The fixed surroundings: the chunks the splitter will produce, the depth of the channel, and whether the
   * first block of the source cannot be read, so that there will be none.
   */
  datatype Setting = Setting(cfg: Config, fam: seq<Chunk>, depth: nat, faulty: bool)

  ghost predicate GoodSetting(e: Setting) {
    IsStream(e.cfg, e.fam) && e.depth > 0
  }

  datatype Action =
    | CancelProducer
    | CancelConsumer
    | Fetch            // poll the context, then Next
    | FetchFails       // the same when Next reports a fault, which goes to the error channel
    | Send             // chunkCh <- chunk
    | GiveUp           // the producer sees its context cancelled
    | Receive          // <-chunkCh, then WriteChunk offers its bytes to the pipe
    | Drained          // WriteChunk returns
    | Finish           // the channel is closed and empty
    | Abort            // the consumer sees its context cancelled
    | Read(n: nat)     // the reader takes n bytes

  ghost predicate Enabled(e: Setting, w: World, a: Action) {
    match a
    case CancelProducer => !w.producerCancelled
    case CancelConsumer => !w.consumerCancelled
    case Fetch => w.producer.Polling? && !w.producerCancelled && w.taken < |e.fam| && !e.faulty
    case FetchFails => w.producer.Polling? && !w.producerCancelled && e.faulty
    case Send => w.producer.Holding? && |w.queue| < e.depth && 0 < w.taken <= |e.fam|
    case GiveUp => (w.producer.Polling? || w.producer.Holding?) && w.producerCancelled
    case Receive => w.consumer.Selecting? && w.queue != []
    case Drained => w.consumer.Writing? && w.pipe == []
    case Finish => w.consumer.Selecting? && w.queue == [] && w.producer.Returned?
    case Abort => w.consumer.Selecting? && w.consumerCancelled
    case Read(n) => 0 < n <= |w.pipe|
  }

  ghost function Apply(e: Setting, w: World, a: Action): World
    requires Enabled(e, w, a)
  {
    match a
    case CancelProducer => w.(producerCancelled := true)
    case CancelConsumer => w.(consumerCancelled := true)
    case Fetch => w.(producer := Holding, taken := w.taken + 1)
    case Send =>
      var c := e.fam[w.taken - 1];
      w.(queue := w.queue + [c], producer := if IsLast(c) then Returned(None) else Polling)
    case FetchFails => w.(producer := Returned(Some(ReadFailed)))
    case GiveUp => w.(producer := Returned(Some(Cancelled)))
    case Receive =>
      var c := w.queue[0];
      var r := Step(e.cfg, w.asm, c);
      var offered := if |w.asm.writer.contents| <= |r.state.writer.contents|
                     then r.state.writer.contents[|w.asm.writer.contents|..] else [];
      w.(queue := w.queue[1..], asm := r.state, pipe := w.pipe + offered,
         consumer := if r.error.Some? then Closed(r.error) else Writing(IsLast(c)))
    case Drained => w.(consumer := if w.consumer.last then Closed(None) else Selecting)
    case Finish => w.(consumer := Closed(if w.asm.completed then None else Some(StreamIncomplete)))
    case Abort => w.(consumer := Closed(Some(Cancelled)))
    case Read(n) => w.(delivered := w.delivered + w.pipe[..n], pipe := w.pipe[n..])
  }

  const INITIAL: World := World(Polling, 0, [], Selecting, START, [], [], false, false)

  /** The reader's next Read returns io.EOF, or an error. */
  predicate SeesEOF(w: World) {
    w.pipe == [] && w.consumer == Closed(None)
  }

  predicate SeesError(w: World) {
    w.pipe == [] && w.consumer.Closed? && w.consumer.error.Some?
  }

  // -------------------------------------------------------------- invariant

  ghost predicate Inv(e: Setting, w: World)
    requires GoodSetting(e)
  {
    var n, m := |e.fam|, w.asm.next;
    && InOrder(e.cfg, e.fam, w.asm, m)
    && w.delivered + w.pipe == w.asm.writer.contents
    && w.taken <= n
    && w.taken == m + |w.queue| + (if w.producer.Holding? then 1 else 0)
           + (if w.producer == Returned(Some(Cancelled)) then Lost(w) else 0)
    && (forall i :: 0 <= i < |w.queue| ==> m + i < n && w.queue[i] == e.fam[m + i])
    && |w.queue| <= e.depth
    && (w.producer.Polling? ==> w.taken < n)
    && (w.producer.Returned? ==>
          || (w.producer.error == None && w.taken == n)
          || (w.producer.error == Some(Cancelled) && w.producerCancelled && m + |w.queue| < n)
          || (w.producer.error == Some(ReadFailed) && e.faulty))
    && (e.faulty ==> w.taken == 0)
    && (w.consumer.Selecting? ==> m < n && w.pipe == [])
    && (w.consumer.Writing? ==> (w.consumer.last <==> m == n))
    && (w.consumer.Closed? ==> w.pipe == [] && (w.consumer.error == None <==> m == n))
    && (w.consumer.Closed? && m < n ==>
          || (w.consumer.error == Some(Cancelled) && w.consumerCancelled)
          || (w.consumer.error == Some(StreamIncomplete) && w.producer.Returned? && w.producer.error.Some?))
  }

  /** A producer that gave up drops the chunk it held, if any. */
  ghost function Lost(w: World): nat {
    if w.taken > w.asm.next + |w.queue| then 1 else 0
  }

  lemma InitialInv(e: Setting)
    requires GoodSetting(e)
    ensures Inv(e, INITIAL)
  {
    StartInOrder(e.cfg, e.fam);
  }

  /** Writing the next chunk offers exactly its payload to the pipe. */
  lemma OfferNext(e: Setting, s: State)
    requires GoodSetting(e) && s.next < |e.fam| && InOrder(e.cfg, e.fam, s, s.next)
    ensures var r := Step(e.cfg, s, e.fam[s.next]);
            && r.error == None && InOrder(e.cfg, e.fam, r.state, s.next + 1)
            && r.state.writer.contents == s.writer.contents + Payload(e.cfg, e.fam[s.next]).0.value
            && IsLast(e.fam[s.next]) == (s.next + 1 == |e.fam|)
  {
    assert IsStreamChunk(e.cfg, e.fam[s.next], s.next, |e.fam|);
    StepInOrder(e.cfg, e.fam, s);
    TextStep(e.cfg, e.fam, s.next);
  }

  lemma ReceiveEffect(e: Setting, w: World)
    requires GoodSetting(e) && Inv(e, w) && Enabled(e, w, Receive)
    ensures w.asm.next < |e.fam| && w.queue[0] == e.fam[w.asm.next]
    ensures var c := e.fam[w.asm.next];
            var v := Apply(e, w, Receive);
            v == w.(queue := w.queue[1..], asm := Step(e.cfg, w.asm, c).state,
                    pipe := Payload(e.cfg, c).0.value, consumer := Writing(w.asm.next + 1 == |e.fam|))
  {
    var m := w.asm.next;
    assert w.queue[0] == e.fam[m + 0];
    OfferNext(e, w.asm);
    var before, p := w.asm.writer.contents, Payload(e.cfg, e.fam[m]).0.value;
    assert (before + p)[|before|..] == p;
    assert w.pipe + p == p;
  }

  lemma ReceiveInv(e: Setting, w: World)
    requires GoodSetting(e) && Inv(e, w) && Enabled(e, w, Receive)
    ensures Inv(e, Apply(e, w, Receive))
  {
    ReceiveEffect(e, w);
    OfferNext(e, w.asm);
    assert w.delivered + [] == w.delivered;
  }

  lemma SendInv(e: Setting, w: World)
    requires GoodSetting(e) && Inv(e, w) && Enabled(e, w, Send)
    ensures Inv(e, Apply(e, w, Send))
  {
    assert IsStreamChunk(e.cfg, e.fam[w.taken - 1], w.taken - 1, |e.fam|);
  }

  lemma ProducerInv(e: Setting, w: World, a: Action)
    requires GoodSetting(e) && Inv(e, w) && Enabled(e, w, a)
    requires a.CancelProducer? || a.CancelConsumer? || a.Fetch? || a.FetchFails? || a.GiveUp?
    ensures Inv(e, Apply(e, w, a))
  {
  }

  lemma ConsumerInv(e: Setting, w: World, a: Action)
    requires GoodSetting(e) && Inv(e, w) && Enabled(e, w, a)
    requires a.Drained? || a.Finish? || a.Abort?
    ensures Inv(e, Apply(e, w, a))
  {
  }

  lemma ReadInv(e: Setting, w: World, n: nat)
    requires GoodSetting(e) && Inv(e, w) && Enabled(e, w, Read(n))
    ensures Inv(e, Apply(e, w, Read(n)))
  {
    assert w.pipe == w.pipe[..n] + w.pipe[n..];
  }

  /** Every step of every participant keeps the invariant. */
  lemma StepInv(e: Setting, w: World, a: Action)
    requires GoodSetting(e) && Inv(e, w) && Enabled(e, w, a)
    ensures Inv(e, Apply(e, w, a))
  {
    if a.Receive? {
      ReceiveInv(e, w);
    } else if a.Send? {
      SendInv(e, w);
    } else if a.Read? {
      ReadInv(e, w, a.n);
    } else if a.Drained? || a.Finish? || a.Abort? {
      ConsumerInv(e, w, a);
    } else {
      ProducerInv(e, w, a);
    }
  }

  // ------------------------------------------------------------------- runs

  /** The actions happen one after the other, each of them possible when it happens. */
  ghost predicate IsRun(e: Setting, w: World, actions: seq<Action>)
    decreases |actions|
  {
    actions == [] || (Enabled(e, w, actions[0]) && IsRun(e, Apply(e, w, actions[0]), actions[1..]))
  }

  ghost function After(e: Setting, w: World, actions: seq<Action>): World
    requires IsRun(e, w, actions)
    decreases |actions|
  {
    if actions == [] then w else After(e, Apply(e, w, actions[0]), actions[1..])
  }

  lemma {:induction false} RunInv(e: Setting, w: World, actions: seq<Action>)
    requires GoodSetting(e) && Inv(e, w) && IsRun(e, w, actions)
    ensures Inv(e, After(e, w, actions))
    decreases |actions|
  {
    if actions != [] {
      StepInv(e, w, actions[0]);
      RunInv(e, Apply(e, w, actions[0]), actions[1..]);
    }
  }

  // ------------------------------------------------------------- conservation

  /** The payloads of chunks lo..hi. */
  ghost function Between(e: Setting, lo: nat, hi: nat): Bytes
    requires GoodSetting(e) && lo <= hi <= |e.fam|
  {
    Flatten(Payloads(e.cfg, e.fam)[lo..hi])
  }

  lemma BetweenJoin(e: Setting, a: nat, b: nat, c: nat)
    requires GoodSetting(e) && a <= b <= c <= |e.fam|
    ensures Between(e, a, c) == Between(e, a, b) + Between(e, b, c)
  {
    var ps := Payloads(e.cfg, e.fam);
    assert ps[a..c] == ps[a..b] + ps[b..c];
    FlattenConcat(ps[a..b], ps[b..c]);
  }

  lemma WholeInFour(e: Setting, m: nat, q: nat, t: nat)
    requires GoodSetting(e) && m <= q <= t <= |e.fam|
    ensures Text(e.cfg, e.fam, m) + Between(e, m, q) + Between(e, q, t) + Between(e, t, |e.fam|) == Whole(e.cfg, e.fam)
  {
    var ps, n := Payloads(e.cfg, e.fam), |e.fam|;
    BetweenJoin(e, 0, m, q);
    BetweenJoin(e, 0, q, t);
    BetweenJoin(e, 0, t, n);
    assert ps[0..n] == ps && ps[0..m] == ps[..m];
  }

  lemma QueueInOrder(e: Setting, w: World)
    requires GoodSetting(e) && Inv(e, w)
    ensures w.asm.next + |w.queue| <= w.taken <= |e.fam|
    ensures w.queue == e.fam[w.asm.next..w.asm.next + |w.queue|]
  {
    var m, q := w.asm.next, w.asm.next + |w.queue|;
    forall i | 0 <= i < |w.queue|
      ensures w.queue[i] == e.fam[m..q][i]
    {
      assert w.queue[i] == e.fam[m + i];
    }
  }

  /**
   * At every moment the bytes delivered, the bytes in the pipe, the queued payloads, the payload the
   * producer holds (or lost when it gave up) and the part of the source not yet fetched make up the source.
   */
  lemma NothingLostOrRepeated(e: Setting, w: World)
    requires GoodSetting(e) && Inv(e, w)
    ensures w.asm.next <= w.asm.next + |w.queue| <= w.taken <= |e.fam|
    ensures var m, q, n := w.asm.next, w.asm.next + |w.queue|, |e.fam|;
            && w.queue == e.fam[m..q]
            && w.delivered + w.pipe + Between(e, m, q) + Between(e, q, w.taken) + Between(e, w.taken, n)
               == Whole(e.cfg, e.fam)
            && w.taken - q <= 1 && (w.taken > q ==> w.producer.Holding? || w.producer == Returned(Some(Cancelled)))
  {
    QueueInOrder(e, w);
    WholeInFour(e, w.asm.next, w.asm.next + |w.queue|, w.taken);
    assert w.delivered + w.pipe == Text(e.cfg, e.fam, w.asm.next);
  }

  // ------------------------------------------------------------------ safety

  /**
   * Whatever the interleaving: the reader has a prefix of the source; it sees a clean end of file only
   * after the whole source; it sees an error only after a cancellation or a fault in the first block, and
   * then the source is not complete.
   */
  lemma ReaderSeesThePrefix(e: Setting, actions: seq<Action>)
    requires GoodSetting(e) && IsRun(e, INITIAL, actions)
    ensures var w := After(e, INITIAL, actions);
            && w.delivered <= Whole(e.cfg, e.fam)
            && |w.queue| <= e.depth
            && (SeesEOF(w) ==> w.delivered == Whole(e.cfg, e.fam))
            && (SeesError(w) ==> (w.producerCancelled || w.consumerCancelled || e.faulty) && !w.asm.completed)
            && (e.faulty ==> w.delivered == [] && !SeesEOF(w))
  {
    InitialInv(e);
    RunInv(e, INITIAL, actions);
    var w := After(e, INITIAL, actions);
    TextIsPrefix(e.cfg, e.fam, w.asm.next);
    if SeesEOF(w) {
      assert w.delivered + [] == w.delivered;
    }
  }

  /** What either goroutine says when it has ended, and why it may say so. */
  lemma EndsTold(e: Setting, actions: seq<Action>)
    requires GoodSetting(e) && IsRun(e, INITIAL, actions)
    ensures var w := After(e, INITIAL, actions);
            && (w.producer.Returned? ==>
                  || (w.producer.error == None && w.taken == |e.fam|)
                  || (w.producer.error == Some(Cancelled) && w.producerCancelled)
                  || (w.producer.error == Some(ReadFailed) && e.faulty))
            && (w.consumer.Closed? ==>
                  || (w.consumer.error == None && w.asm.completed)
                  || (w.consumer.error == Some(Cancelled) && w.consumerCancelled)
                  || (w.consumer.error == Some(StreamIncomplete) && w.producer.Returned? && w.producer.error.Some?))
  {
    InitialInv(e);
    RunInv(e, INITIAL, actions);
  }

  /** From the moment its context is cancelled the producer fetches nothing more. */
  lemma {:induction false} CancelledFetchesNothing(e: Setting, w: World, actions: seq<Action>)
    requires w.producerCancelled && IsRun(e, w, actions)
    ensures var v := After(e, w, actions);
            && v.taken == w.taken && v.producerCancelled
            && (v.producer == Returned(Some(ReadFailed)) <==> w.producer == Returned(Some(ReadFailed)))
    decreases |actions|
  {
    if actions != [] {
      CancelledFetchesNothing(e, Apply(e, w, actions[0]), actions[1..]);
    }
  }

  // ---------------------------------------------------------------- liveness

  ghost function Cost(e: Setting, w: World): int
    requires GoodSetting(e) && w.asm.next <= |e.fam|
  {
    8 * (|e.fam| - w.taken)
    + (match w.producer case Polling => 1 case Holding => 6 case Returned(_) => 0)
    + 4 * |w.queue|
    + (match w.consumer case Selecting => 1 case Writing(_) => 3 case Closed(_) => 0)
    + |w.pipe| + |Whole(e.cfg, e.fam)| - |w.asm.writer.contents|
    + (if w.producerCancelled then 0 else 1) + (if w.consumerCancelled then 0 else 1)
  }

  lemma ReceiveCosts(e: Setting, w: World)
    requires GoodSetting(e) && Inv(e, w) && Enabled(e, w, Receive)
    requires Apply(e, w, Receive).asm.next <= |e.fam|
    ensures Cost(e, Apply(e, w, Receive)) < Cost(e, w)
  {
    ReceiveEffect(e, w);
    OfferNext(e, w.asm);
  }

  lemma OtherCosts(e: Setting, w: World, a: Action)
    requires GoodSetting(e) && w.asm.next <= |e.fam| && Enabled(e, w, a) && !a.Receive?
    ensures Cost(e, Apply(e, w, a)) < Cost(e, w)
  {
  }

  /** Every step uses something up. */
  lemma StepCosts(e: Setting, w: World, a: Action)
    requires GoodSetting(e) && Inv(e, w) && Enabled(e, w, a)
    ensures Inv(e, Apply(e, w, a)) && Cost(e, Apply(e, w, a)) < Cost(e, w)
  {
    StepInv(e, w, a);
    if a.Receive? {
      ReceiveCosts(e, w);
    } else {
      OtherCosts(e, w, a);
    }
  }

  lemma CostNotNegative(e: Setting, w: World)
    requires GoodSetting(e) && Inv(e, w)
    ensures Cost(e, w) >= 0
  {
    TextIsPrefix(e.cfg, e.fam, w.asm.next);
  }

  /** No run goes on for ever. */
  lemma {:induction false} RunsAreBounded(e: Setting, w: World, actions: seq<Action>)
    requires GoodSetting(e) && Inv(e, w) && IsRun(e, w, actions)
    ensures |actions| <= Cost(e, w)
    decreases |actions|
  {
    if actions == [] {
      CostNotNegative(e, w);
    } else {
      StepCosts(e, w, actions[0]);
      RunsAreBounded(e, Apply(e, w, actions[0]), actions[1..]);
    }
  }

  /** An action of a participant, as opposed to a cancellation from outside. */
  predicate IsInternal(a: Action) {
    !a.CancelProducer? && !a.CancelConsumer?
  }

  ghost predicate Stuck(e: Setting, w: World) {
    forall a :: IsInternal(a) ==> !Enabled(e, w, a)
  }

  /**
   * Exactly when nothing moves any more: the pipe is closed and drained, and the producer has returned
   * or waits for ever to send into a full channel nobody empties and under a context nobody cancels.
   */
  lemma StuckIff(e: Setting, w: World)
    requires GoodSetting(e) && Inv(e, w)
    ensures Stuck(e, w) <==>
              && w.consumer.Closed?
              && (w.producer.Returned? || (w.producer.Holding? && |w.queue| == e.depth && !w.producerCancelled))
  {
    if Stuck(e, w) {
      assert !Enabled(e, w, Fetch) && !Enabled(e, w, FetchFails) && !Enabled(e, w, Send) && !Enabled(e, w, GiveUp);
      assert !Enabled(e, w, Receive) && !Enabled(e, w, Drained) && !Enabled(e, w, Finish);
      assert !Enabled(e, w, Read(|w.pipe|));
    }
  }

  /**
   * That second end is reached: with room for one chunk, a producer whose consumer alone is cancelled after
   * the second fetch waits for ever.
   */
  lemma ProducerWaitsForEver(e: Setting)
    requires GoodSetting(e) && e.depth == 1 && |e.fam| >= 2 && !e.faulty
    ensures var actions := [Fetch, Send, Fetch, CancelConsumer, Abort];
            && IsRun(e, INITIAL, actions)
            && var w := After(e, INITIAL, actions);
               Stuck(e, w) && w.producer.Holding? && !w.producerCancelled && w.consumer == Closed(Some(Cancelled))
  {
    var a0, a1, a2, a3, a4 := Fetch, Send, Fetch, CancelConsumer, Abort;
    var actions := [a0, a1, a2, a3, a4];
    assert IsStreamChunk(e.cfg, e.fam[0], 0, |e.fam|);
    var w1 := Apply(e, INITIAL, a0);
    var w2 := Apply(e, w1, a1);
    var w3 := Apply(e, w2, a2);
    var w4 := Apply(e, w3, a3);
    var w5 := Apply(e, w4, a4);
    FirstAction(e, w4, a4, []);
    FirstAction(e, w3, a3, [a4]);
    FirstAction(e, w2, a2, [a3, a4]);
    FirstAction(e, w1, a1, [a2, a3, a4]);
    FirstAction(e, INITIAL, a0, [a1, a2, a3, a4]);
    assert [a0] + ([a1] + ([a2] + ([a3] + ([a4] + [])))) == actions;
    InitialInv(e);
    RunInv(e, INITIAL, actions);
    StuckIff(e, w5);
  }

  lemma FirstAction(e: Setting, w: World, a: Action, rest: seq<Action>)
    requires Enabled(e, w, a) && IsRun(e, Apply(e, w, a), rest)
    ensures IsRun(e, w, [a] + rest) && After(e, w, [a] + rest) == After(e, Apply(e, w, a), rest)
  {
    var all := [a] + rest;
    assert all[1..] == rest;
  }

  /** The one chunk is in the channel: received, read and written to the end. */
  lemma LastChunkThrough(e: Setting, w: World, p: Bytes) returns (v: World)
    requires GoodSetting(e) && |e.fam| == 1 && Payload(e.cfg, e.fam[0]).0 == Some(p) && p != []
    requires Inv(e, w) && w.queue == [e.fam[0]] && w.consumer.Selecting? && w.asm == START
    ensures IsRun(e, w, [Receive, Read(|p|), Drained]) && v == After(e, w, [Receive, Read(|p|), Drained])
    ensures SeesEOF(v) && v.delivered == p
  {
    ReceiveEffect(e, w);
    assert w.delivered + w.pipe == [];
    var w1 := Apply(e, w, Receive);
    var w2 := w1.(delivered := p, pipe := []);
    assert p[..|p|] == p && p[|p|..] == [] && [] + p == p;
    v := w2.(consumer := Closed(None));
    FirstAction(e, w2, Drained, []);
    FirstAction(e, w1, Read(|p|), [Drained]);
    FirstAction(e, w, Receive, [Read(|p|), Drained]);
    assert [Drained] + [] == [Drained] && [Read(|p|)] + [Drained] == [Read(|p|), Drained];
    assert [Receive] + [Read(|p|), Drained] == [Receive, Read(|p|), Drained];
  }

  /**
   * Cancelling is a race: with both contexts cancelled after the fetch, the chunk may still be sent, received and
   * written, and the far end then reads to a clean end of file.
   */
  lemma CancelledMayStillDeliver(e: Setting, p: Bytes) returns (v: World)
    requires GoodSetting(e) && |e.fam| == 1 && !e.faulty && Payload(e.cfg, e.fam[0]).0 == Some(p) && p != []
    ensures var before, after := [Fetch, CancelProducer, CancelConsumer, Send], [Receive, Read(|p|), Drained];
            IsRun(e, INITIAL, before + after) && v == After(e, INITIAL, before + after)
    ensures SeesEOF(v) && v.delivered == p
  {
    InitialInv(e);
    assert IsStreamChunk(e.cfg, e.fam[0], 0, |e.fam|);
    var later := [Receive, Read(|p|), Drained];
    var w1 := Apply(e, INITIAL, Fetch);
    var w2 := Apply(e, w1, CancelProducer);
    var w3 := Apply(e, w2, CancelConsumer);
    StepInv(e, INITIAL, Fetch);
    StepInv(e, w1, CancelProducer);
    StepInv(e, w2, CancelConsumer);
    StepInv(e, w3, Send);
    assert [] + [e.fam[0]] == [e.fam[0]];
    v := LastChunkThrough(e, Apply(e, w3, Send), p);
    FirstAction(e, w3, Send, later);
    FirstAction(e, w2, CancelConsumer, [Send] + later);
    FirstAction(e, w1, CancelProducer, [CancelConsumer] + ([Send] + later));
    FirstAction(e, INITIAL, Fetch, [CancelProducer] + ([CancelConsumer] + ([Send] + later)));
    assert [Fetch] + ([CancelProducer] + ([CancelConsumer] + ([Send] + later)))
        == [Fetch, CancelProducer, CancelConsumer, Send] + later;
  }

  /** However a run ends, with or without cancellations, the reader is told: end of file or an error. */
  lemma EveryEndIsSeen(e: Setting, actions: seq<Action>)
    requires GoodSetting(e) && IsRun(e, INITIAL, actions)
    ensures var w := After(e, INITIAL, actions); Stuck(e, w) ==> SeesEOF(w) || SeesError(w)
  {
    InitialInv(e);
    RunInv(e, INITIAL, actions);
    StuckIff(e, After(e, INITIAL, actions));
  }

  /**
   * Liveness: a run that goes on until nothing moves, and in which nothing was cancelled, ends with the
   * producer returned and the reader at a clean end of file with the whole source, or at an error if the
   * first block could not be read.
   */
  lemma UncancelledRunDelivers(e: Setting, actions: seq<Action>)
    requires GoodSetting(e) && IsRun(e, INITIAL, actions)
    requires var w := After(e, INITIAL, actions);
             Stuck(e, w) && !w.producerCancelled && !w.consumerCancelled
    ensures var w := After(e, INITIAL, actions);
            if e.faulty then SeesError(w) && w.producer == Returned(Some(ReadFailed))
            else SeesEOF(w) && w.delivered == Whole(e.cfg, e.fam) && w.producer == Returned(None) && w.queue == []
  {
    InitialInv(e);
    RunInv(e, INITIAL, actions);
    EveryEndIsSeen(e, actions);
    StuckIff(e, After(e, INITIAL, actions));
    ReaderSeesThePrefix(e, actions);
  }

  /** The pipeline over a reader. */
  ghost function SettingOf(sc: Split.Config, ac: Config, src: Source, depth: nat): Setting
    requires sc.chunkSize > 0 && |src.rest| <= MAX_INT64
  {
    HarvestFacts(src, sc.chunkSize);
    Setting(ac, Emitted(sc, Harvest(src, sc.chunkSize).got), depth,
            ReadFull(src, sc.chunkSize).error == Some(ReadFailed))
  }

  /**
   * Over any reader and for any interleaving: the far end has a prefix of the source; a clean end of file
   * means all of it exactly when no answer of the reader lost bytes; every run that can go no further ends
   * in end of file or an error, and in end of file if nothing was cancelled and the first block was readable.
   */
  lemma StreamedSourceArrives(sc: Split.Config, ac: Config, src: Source, depth: nat, actions: seq<Action>)
    requires Compatible(sc, ac) && |src.rest| <= MAX_INT64 && depth > 0
    requires IsRun(SettingOf(sc, ac, src, depth), INITIAL, actions)
    ensures var e, k := SettingOf(sc, ac, src, depth), sc.chunkSize;
            var w := After(e, INITIAL, actions);
            && w.delivered <= src.rest
            && (SeesEOF(w) ==> !e.faulty && (w.delivered == src.rest <==> !Loses(src.script, |src.rest|, k, k)))
            && (Stuck(e, w) ==> SeesEOF(w) || SeesError(w))
            && (Stuck(e, w) && !w.producerCancelled && !w.consumerCancelled && !e.faulty ==> SeesEOF(w))
  {
    var e, got := SettingOf(sc, ac, src, depth), Harvest(src, sc.chunkSize).got;
    HarvestFacts(src, sc.chunkSize);
    HarvestWholeIff(src, sc.chunkSize);
    EmittedIsStream(sc, ac, got);
    ReaderSeesThePrefix(e, actions);
    EveryEndIsSeen(e, actions);
    var w := After(e, INITIAL, actions);
    if Stuck(e, w) && !w.producerCancelled && !w.consumerCancelled {
      UncancelledRunDelivers(e, actions);
    }
  }
}
