/** Chunks on the wire (pkg/transport/http/http.go): the framed send and receive loops. */
module Transport {
  import opened Basics
  import opened Core
  import opened Checksum
  import opened Codec
  import opened AssemblerModel
  import opened Reassembly
  import opened Recovery
  import opened Delivery
  import opened ChunkIO
  import Split = SplitModel
  import opened EndToEnd

  // ---------------------------------------------------------------- the wire

  /** f is an encoding of c, for one of the orders its metadata may be walked in. */
  ghost predicate IsFrameOf(f: Bytes, c: Chunk) {
    exists order :: IsOrder(order, c.metadata.Keys) && f == Frame(c, order)
  }

  /** One frame for each chunk; every frame may walk its map differently. */
  ghost predicate Encodes(frames: seq<Bytes>, chunks: seq<Chunk>) {
    |frames| == |chunks| && forall i :: 0 <= i < |chunks| ==> IsFrameOf(frames[i], chunks[i])
  }

  ghost predicate AllWithinLimits(chunks: seq<Chunk>) {
    forall i :: 0 <= i < |chunks| ==> WithinLimits(chunks[i])
  }

  /** What the byte stream looks like: the frames one after the other. */
  function Join(frames: seq<Bytes>): Bytes
    decreases |frames|
  {
    if frames == [] then [] else frames[0] + Join(frames[1..])
  }

  /** The receiving side knows its parser only as a function that uses up input when it succeeds. */
  type Decoder = Bytes -> Parse<Chunk>

  ghost predicate Progresses(decode: Decoder) {
    forall b :: decode(b).Parsed? ==> |decode(b).rest| < |b|
  }

  /** DecodeBinary over a reader that ends in a fault of its own. */
  function FaultyDecode(b: Bytes): Parse<Chunk> {
    match Decode(b)
    case Parsed(c, rest) => Parsed(c, rest)
    case Failed(e, rest) => Failed(SeenError(e, true), rest)
  }

  function DecoderOf(faulty: bool): Decoder {
    if faulty then FaultyDecode else Decode
  }

  lemma DecodeProgresses(faulty: bool)
    ensures Progresses(DecoderOf(faulty))
  {
    forall b
      ensures Decode(b).Parsed? ==> |Decode(b).rest| < |b|
    {
      DecodeConsumes(b);
    }
  }

  /** f stands for c on the wire: read as c whatever follows, and never readable when cut short. */
  ghost predicate Delimits(decode: Decoder, f: Bytes, c: Chunk) {
    && (forall r :: decode(f + r) == Parsed(c, r))
    && (forall cut :: cut < f ==> decode(cut).Failed? && CutShort(decode(cut).error))
  }

  predicate CutShort(e: Error) {
    RanOut(e) || e == ReadFailed
  }

  ghost predicate AreFrames(decode: Decoder, frames: seq<Bytes>, chunks: seq<Chunk>) {
    |frames| == |chunks| && forall i :: 0 <= i < |chunks| ==> Delimits(decode, frames[i], chunks[i])
  }

  lemma FrameAt(decode: Decoder, frames: seq<Bytes>, chunks: seq<Chunk>, i: nat)
    requires AreFrames(decode, frames, chunks) && i < |chunks|
    ensures Delimits(decode, frames[i], chunks[i])
  {
  }

  lemma FramesBetween(decode: Decoder, frames: seq<Bytes>, chunks: seq<Chunk>, lo: nat, hi: nat)
    requires AreFrames(decode, frames, chunks) && lo <= hi <= |chunks|
    ensures AreFrames(decode, frames[lo..hi], chunks[lo..hi])
  {
    forall i | 0 <= i < hi - lo
      ensures Delimits(decode, frames[lo..hi][i], chunks[lo..hi][i])
    {
      FrameAt(decode, frames, chunks, lo + i);
    }
  }

  lemma EncodingDelimits(f: Bytes, c: Chunk, faulty: bool)
    requires IsFrameOf(f, c) && WithinLimits(c)
    ensures Delimits(DecoderOf(faulty), f, c)
  {
    var order :| IsOrder(order, c.metadata.Keys) && f == Frame(c, order);
    forall r
      ensures Decode(f + r) == Parsed(c, r)
    {
      FrameRoundTrip(c, order, r);
    }
    forall cut | cut < f
      ensures Decode(cut).Failed? && RanOut(Decode(cut).error)
    {
      TruncatedFrameRunsOut(c, order, cut);
    }
  }

  /** The part of a frame that has come ends where the decoder would go on to its next read. */
  ghost predicate BetweenReads(f: Bytes, c: Chunk, part: Bytes) {
    exists order :: IsOrder(order, c.metadata.Keys) && f == Frame(c, order) && Boundary(FrameReads(c, order), |part|)
  }

  lemma CutFrame(f: Bytes, c: Chunk, part: Bytes)
    requires IsFrameOf(f, c) && WithinLimits(c) && part < f
    ensures Decode(part) == Failed(if BetweenReads(f, c, part) then EOF else UnexpectedEOF, [])
  {
    var order :| IsOrder(order, c.metadata.Keys) && f == Frame(c, order);
    TruncatedFrameRunsOut(c, order, part);
    if BetweenReads(f, c, part) {
      var other :| IsOrder(other, c.metadata.Keys) && f == Frame(c, other) && Boundary(FrameReads(c, other), |part|);
      TruncatedFrameRunsOut(c, other, part);
    }
  }

  lemma EncodingsAreFrames(frames: seq<Bytes>, chunks: seq<Chunk>, faulty: bool)
    requires Encodes(frames, chunks) && AllWithinLimits(chunks)
    ensures AreFrames(DecoderOf(faulty), frames, chunks)
  {
    forall i | 0 <= i < |chunks|
      ensures Delimits(DecoderOf(faulty), frames[i], chunks[i])
    {
      EncodingDelimits(frames[i], chunks[i], faulty);
    }
  }

  /** Frame after frame until the input is used up or cannot be read on. */
  ghost function DecodeAll(decode: Decoder, bytes: Bytes): (seq<Chunk>, Bytes)
    requires Progresses(decode)
    decreases |bytes|
  {
    match decode(bytes)
    case Failed(_, _) => ([], bytes)
    case Parsed(c, rest) =>
      var (cs, left) := DecodeAll(decode, rest);
      ([c] + cs, left)
  }

  lemma {:induction false} FramesDecode(decode: Decoder, frames: seq<Bytes>, chunks: seq<Chunk>)
    requires Progresses(decode) && AreFrames(decode, frames, chunks) && decode([]).Failed?
    ensures DecodeAll(decode, Join(frames)) == (chunks, [])
    decreases |chunks|
  {
    if chunks != [] {
      var f, fs := frames[0], frames[1..|chunks|];
      var c, cs := chunks[0], chunks[1..|chunks|];
      assert chunks == [c] + cs && frames[1..] == fs;
      FrameAt(decode, frames, chunks, 0);
      FramesBetween(decode, frames, chunks, 1, |chunks|);
      FramesDecode(decode, fs, cs);
      assert decode(f + Join(fs)) == Parsed(c, Join(fs));
    }
  }

  ghost function DecodeFrames(bytes: Bytes): (seq<Chunk>, Bytes) {
    DecodeProgresses(false);
    DecodeAll(Decode, bytes)
  }

  /** Frames separate themselves: a list of encoded chunks decodes to those chunks and nothing is left over. */
  lemma FramesRoundTrip(frames: seq<Bytes>, chunks: seq<Chunk>)
    requires Encodes(frames, chunks) && AllWithinLimits(chunks)
    ensures DecodeFrames(Join(frames)) == (chunks, [])
  {
    DecodeProgresses(false);
    EncodingsAreFrames(frames, chunks, false);
    FramesDecode(Decode, frames, chunks);
  }

  // ---------------------------------------------------------------- receiving

  /** How many frames may still be read before the context is found cancelled; None for never. */
  type Patience = Option<nat>

  function Less(p: Patience): Patience {
    match p
    case Some(n) => if n > 0 then Some(n - 1) else p
    case None => None
  }

  /** The loop of ReceiveRequest and of ReadStreamResponse. */
  ghost function Receive(decode: Decoder, cfg: Config, s: State, bytes: Bytes, patience: Patience): Reply
    requires Progresses(decode)
    decreases |bytes|
  {
    if patience == Some(0) then Reply(s, Some(Cancelled))
    else
      match decode(bytes)
      case Failed(e, _) =>
        if e != EOF then Reply(s, Some(e))
        else if s.completed then Reply(s, None)
        else Reply(s, Some(StreamIncomplete))
      case Parsed(c, rest) =>
        var r := Step(cfg, s, c);
        if r.error.Some? || IsLast(c) then r else Receive(decode, cfg, r.state, rest, Less(patience))
  }

  /** Frame by frame: receiving a frame is one call of WriteChunk, and the last-flagged one ends the loop. */
  lemma ReceiveFrame(decode: Decoder, cfg: Config, s: State, f: Bytes, c: Chunk, rest: Bytes, patience: Patience)
    requires Progresses(decode) && Delimits(decode, f, c) && patience != Some(0)
    ensures var r := Step(cfg, s, c);
            Receive(decode, cfg, s, f + rest, patience)
              == if r.error.Some? || IsLast(c) then r else Receive(decode, cfg, r.state, rest, Less(patience))
  {
    assert decode(f + rest) == Parsed(c, rest);
  }

  /**
   * While nothing is cancelled, receiving frames is passing their chunks on one by one, if the input ends in an
   * end of file or if a last-flagged chunk keeps the loop from looking.
   */
  lemma {:induction false} ReceiveIsPassOn(decode: Decoder, cfg: Config, s: State, frames: seq<Bytes>,
                                           chunks: seq<Chunk>)
    requires Progresses(decode) && AreFrames(decode, frames, chunks)
    requires decode([]) == Failed(EOF, []) || exists c :: c in chunks && IsLast(c)
    ensures Receive(decode, cfg, s, Join(frames), None) == PassOn(cfg, s, chunks)
    decreases |chunks|
  {
    if chunks != [] {
      var c, cs := chunks[0], chunks[1..|chunks|];
      var f, fs := frames[0], frames[1..|chunks|];
      assert frames[1..] == fs && chunks[1..] == cs;
      FrameAt(decode, frames, chunks, 0);
      FramesBetween(decode, frames, chunks, 1, |chunks|);
      ReceiveFrame(decode, cfg, s, f, c, Join(fs), None);
      if !IsLast(c) {
        assert forall x :: x in chunks && IsLast(x) ==> x in cs;
        ReceiveIsPassOn(decode, cfg, Step(cfg, s, c).state, fs, cs);
      }
    }
  }

  lemma RunCons(cfg: Config, s: State, c: Chunk, calls: seq<Chunk>)
    ensures Run(cfg, s, [c] + calls) == Run(cfg, Step(cfg, s, c).state, calls)
    decreases |calls|
  {
    var all := [c] + calls;
    if calls == [] {
      assert all == [c] && all[..0] == [];
    } else {
      var n := |calls| - 1;
      assert all[..|all| - 1] == [c] + calls[..n];
      RunCons(cfg, s, c, calls[..n]);
    }
  }

  /** No call before the last one of `calls` fails or carries the last flag. */
  ghost predicate Uneventful(cfg: Config, s: State, calls: seq<Chunk>)
    decreases |calls|
  {
    calls == [] ||
    (var r := Step(cfg, s, calls[0]); r.error.None? && !IsLast(calls[0]) && Uneventful(cfg, r.state, calls[1..]))
  }

  function LessBy(p: Patience, n: nat): Patience {
    match p
    case Some(v) => Some(if v >= n then v - n else 0)
    case None => None
  }

  lemma LessByOneMore(p: Patience, n: nat)
    requires p.Some? ==> p.value > n
    ensures LessBy(Less(p), n) == LessBy(p, n + 1)
  {
  }

  lemma ReceiveGoesOn(decode: Decoder, cfg: Config, s: State, f: Bytes, c: Chunk, rest: Bytes, patience: Patience)
    requires Progresses(decode) && Delimits(decode, f, c) && patience != Some(0)
    requires Step(cfg, s, c).error.None? && !IsLast(c)
    ensures Receive(decode, cfg, s, f + rest, patience)
         == Receive(decode, cfg, Step(cfg, s, c).state, rest, Less(patience))
  {
    ReceiveFrame(decode, cfg, s, f, c, rest, patience);
  }

  lemma ReceiveFirst(decode: Decoder, cfg: Config, s: State, frames: seq<Bytes>, chunks: seq<Chunk>, tail: Bytes,
                     patience: Patience)
    requires Progresses(decode) && AreFrames(decode, frames, chunks) && chunks != [] && patience != Some(0)
    requires Step(cfg, s, chunks[0]).error.None? && !IsLast(chunks[0])
    ensures Receive(decode, cfg, s, Join(frames) + tail, patience)
         == Receive(decode, cfg, Step(cfg, s, chunks[0]).state, Join(frames[1..]) + tail, Less(patience))
  {
    FrameAt(decode, frames, chunks, 0);
    Regroup(frames[0], Join(frames[1..]), tail);
    ReceiveGoesOn(decode, cfg, s, frames[0], chunks[0], Join(frames[1..]) + tail, patience);
  }

  lemma LaterFrames(decode: Decoder, frames: seq<Bytes>, chunks: seq<Chunk>)
    requires AreFrames(decode, frames, chunks) && chunks != []
    ensures AreFrames(decode, frames[1..], chunks[1..])
  {
    FramesBetween(decode, frames, chunks, 1, |chunks|);
    assert frames[1..|chunks|] == frames[1..] && chunks[1..|chunks|] == chunks[1..];
  }

  lemma UneventfulCons(cfg: Config, s: State, c: Chunk, rest: seq<Chunk>)
    requires Step(cfg, s, c).error.None? && !IsLast(c) && Uneventful(cfg, Step(cfg, s, c).state, rest)
    ensures Uneventful(cfg, s, [c] + rest) && Run(cfg, s, [c] + rest) == Run(cfg, Step(cfg, s, c).state, rest)
  {
    RunCons(cfg, s, c, rest);
    assert ([c] + rest)[1..] == rest;
  }

  /** One uneventful call, and the state behind it. */
  lemma FirstUneventful(decode: Decoder, cfg: Config, s: State, frames: seq<Bytes>, chunks: seq<Chunk>, tail: Bytes,
                        patience: Patience)
    returns (t: State)
    requires Progresses(decode) && AreFrames(decode, frames, chunks) && Uneventful(cfg, s, chunks)
    requires chunks != [] && patience != Some(0)
    ensures AreFrames(decode, frames[1..], chunks[1..]) && Uneventful(cfg, t, chunks[1..])
    ensures Receive(decode, cfg, s, Join(frames) + tail, patience)
         == Receive(decode, cfg, t, Join(frames[1..]) + tail, Less(patience))
    ensures Run(cfg, s, chunks) == Run(cfg, t, chunks[1..])
  {
    t := Step(cfg, s, chunks[0]).state;
    ReceiveFirst(decode, cfg, s, frames, chunks, tail, patience);
    LaterFrames(decode, frames, chunks);
    RunCons(cfg, s, chunks[0], chunks[1..]);
    assert chunks == [chunks[0]] + chunks[1..];
  }

  lemma {:induction false} ReceiveUneventful(decode: Decoder, cfg: Config, s: State, frames: seq<Bytes>,
                                             chunks: seq<Chunk>, tail: Bytes, patience: Patience)
    requires Progresses(decode) && AreFrames(decode, frames, chunks) && Uneventful(cfg, s, chunks)
    requires patience.Some? ==> patience.value >= |chunks|
    ensures Receive(decode, cfg, s, Join(frames) + tail, patience)
         == Receive(decode, cfg, Run(cfg, s, chunks), tail, LessBy(patience, |chunks|))
    decreases |chunks|
  {
    if chunks == [] {
      assert Join(frames) + tail == tail;
    } else {
      var t := FirstUneventful(decode, cfg, s, frames, chunks, tail, patience);
      ReceiveUneventful(decode, cfg, t, frames[1..], chunks[1..], tail, Less(patience));
      LessByOneMore(patience, |chunks| - 1);
    }
  }

  lemma {:induction false} QuietIsUneventful(cfg: Config, s: State, calls: seq<Chunk>)
    requires Quiet(cfg, s, calls, |calls|)
    ensures Uneventful(cfg, s, calls)
    decreases |calls|
  {
    if calls != [] {
      var c, rest := calls[0], calls[1..];
      var t := Step(cfg, s, c).state;
      assert calls[..0] == [] && Answer(cfg, s, calls, 0).None?;
      forall u | 0 <= u < |rest|
        ensures Answer(cfg, t, rest, u).None? && rest[u].flags % 2 == 0
      {
        assert Answer(cfg, s, calls, u + 1).None?;
        assert calls[..u + 1] == [c] + rest[..u];
        RunCons(cfg, s, c, rest[..u]);
      }
      QuietIsUneventful(cfg, t, rest);
    }
  }

  lemma AllUsed(patience: Patience, n: nat) returns (left: Patience)
    requires patience.Some? ==> patience.value >= n
    ensures left == LessBy(patience, n) && (left == Some(0) <==> patience == Some(n))
  {
    left := LessBy(patience, n);
  }

  lemma AcceptedFrames(decode: Decoder, cfg: Config, s: State, frames: seq<Bytes>, chunks: seq<Chunk>, tail: Bytes,
                       patience: Patience, left: Patience, t: State)
    returns (r: Reply)
    requires Progresses(decode) && AreFrames(decode, frames, chunks) && Quiet(cfg, s, chunks, |chunks|)
    requires patience.Some? ==> patience.value >= |chunks|
    requires left == LessBy(patience, |chunks|) && t == Run(cfg, s, chunks)
    ensures r == Receive(decode, cfg, s, Join(frames) + tail, patience) && r == Receive(decode, cfg, t, tail, left)
  {
    QuietIsUneventful(cfg, s, chunks);
    ReceiveUneventful(decode, cfg, s, frames, chunks, tail, patience);
    r := Receive(decode, cfg, t, tail, left);
  }

  lemma ReceiveQuiet(decode: Decoder, cfg: Config, s: State, frames: seq<Bytes>, chunks: seq<Chunk>, tail: Bytes,
                     patience: Patience)
    returns (r: Reply, t: State, left: Patience)
    requires Progresses(decode) && AreFrames(decode, frames, chunks) && Quiet(cfg, s, chunks, |chunks|)
    requires patience.Some? ==> patience.value >= |chunks|
    ensures r == Receive(decode, cfg, s, Join(frames) + tail, patience) && t == Run(cfg, s, chunks)
    ensures r == Receive(decode, cfg, t, tail, left) && (left == Some(0) <==> patience == Some(|chunks|))
  {
    t := Run(cfg, s, chunks);
    left := AllUsed(patience, |chunks|);
    r := AcceptedFrames(decode, cfg, s, frames, chunks, tail, patience, left, t);
  }

  /**
   * How the loop ends here, if it does: a cancelled context comes first, then what cannot be decoded, which is an
   * error unless it is an end of file and the stream is complete, and then the next chunk, whose answer is the loop's
   * if it is an error or the last flag is set.
   */
  ghost function EndingHere(decode: Decoder, cfg: Config, t: State, tail: Bytes, cancelled: bool): Option<Reply> {
    if cancelled then Some(Reply(t, Some(Cancelled)))
    else
      match decode(tail)
      case Failed(e, _) =>
        Some(Reply(t, if e != EOF then Some(e) else if t.completed then None else Some(StreamIncomplete)))
      case Parsed(c, _) =>
        var q := Step(cfg, t, c);
        if q.error.Some? || c.flags % 2 == 1 then Some(q) else None
  }

  lemma ReceiveHere(decode: Decoder, cfg: Config, t: State, tail: Bytes, patience: Patience, cancelled: bool)
    returns (r: Reply, ending: Option<Reply>)
    requires Progresses(decode) && (patience == Some(0) <==> cancelled)
    ensures r == Receive(decode, cfg, t, tail, patience)
    ensures ending == EndingHere(decode, cfg, t, tail, cancelled) && (ending.Some? ==> r == ending.value)
  {
    r := Receive(decode, cfg, t, tail, patience);
    ending := EndingHere(decode, cfg, t, tail, cancelled);
  }

  /** Whatever the chunks are, behind frames whose chunks were accepted and not flagged last the loop ends so. */
  lemma ReceiveEnds(decode: Decoder, cfg: Config, s: State, frames: seq<Bytes>, chunks: seq<Chunk>, tail: Bytes,
                    patience: Patience)
    returns (r: Reply, t: State, ending: Option<Reply>)
    requires Progresses(decode) && AreFrames(decode, frames, chunks) && Quiet(cfg, s, chunks, |chunks|)
    requires patience.Some? ==> patience.value >= |chunks|
    ensures r == Receive(decode, cfg, s, Join(frames) + tail, patience) && t == Run(cfg, s, chunks)
    ensures ending == EndingHere(decode, cfg, t, tail, patience == Some(|chunks|))
    ensures ending.Some? ==> r == ending.value
  {
    var left;
    r, t, left := ReceiveQuiet(decode, cfg, s, frames, chunks, tail, patience);
    r, ending := ReceiveHere(decode, cfg, t, tail, left, patience == Some(|chunks|));
  }

  // ----------------------------------------------------------------- in order

  /** The state after the first m chunks of a stream arrived in order. */
  ghost predicate InOrder(cfg: Config, fam: seq<Chunk>, s: State, m: nat)
    requires IsStream(cfg, fam)
  {
    && m <= |fam| && s.next == m && s.pending == map[] && s.writer.script == []
    && HasOutput(cfg, fam, s)
  }

  lemma StepInOrder(cfg: Config, fam: seq<Chunk>, s: State)
    requires IsStream(cfg, fam) && s.next < |fam| && InOrder(cfg, fam, s, s.next)
    ensures var r := Step(cfg, s, fam[s.next]); r.error.None? && InOrder(cfg, fam, r.state, s.next + 1)
  {
    assert IsStreamChunk(cfg, fam[s.next], s.next, |fam|);
    FlushMember(cfg, fam, s);
  }

  lemma {:induction false} RestUneventful(cfg: Config, fam: seq<Chunk>, s: State, m: nat)
    requires IsStream(cfg, fam) && s.next <= m < |fam| && InOrder(cfg, fam, s, s.next)
    ensures Uneventful(cfg, s, fam[s.next..m]) && InOrder(cfg, fam, Run(cfg, s, fam[s.next..m]), m)
    decreases m - s.next
  {
    if s.next < m {
      var c := fam[s.next];
      var rest := fam[s.next + 1..m];
      assert IsStreamChunk(cfg, c, s.next, |fam|);
      StepInOrder(cfg, fam, s);
      RestUneventful(cfg, fam, Step(cfg, s, c).state, m);
      UneventfulCons(cfg, s, c, rest);
      assert fam[s.next..m] == [c] + rest;
    } else {
      assert fam[s.next..m] == [];
    }
  }

  lemma StartInOrder(cfg: Config, fam: seq<Chunk>)
    requires IsStream(cfg, fam)
    ensures InOrder(cfg, fam, START, 0)
  {
    assert Text(cfg, fam, 0) == [];
  }

  lemma {:induction false} JoinSplit(frames: seq<Bytes>, m: nat)
    requires m <= |frames|
    ensures Join(frames) == Join(frames[..m]) + Join(frames[m..])
    decreases m
  {
    if m > 0 {
      var fs := frames[1..];
      JoinSplit(fs, m - 1);
      assert frames[..m][1..] == fs[..m - 1];
      assert fs[m - 1..] == frames[m..];
    } else {
      assert frames[..0] == [] && frames[0..] == frames;
    }
  }

  /** The frames of the first m chunks arrive whole, followed by something else. */
  lemma ReceivePrefix(decode: Decoder, cfg: Config, fam: seq<Chunk>, frames: seq<Bytes>, m: nat, tail: Bytes,
                      patience: Patience)
    requires IsStream(cfg, fam) && Progresses(decode) && m < |fam| && AreFrames(decode, frames, fam[..m])
    requires patience.Some? ==> patience.value >= m
    ensures InOrder(cfg, fam, Run(cfg, START, fam[..m]), m)
    ensures Receive(decode, cfg, START, Join(frames) + tail, patience)
         == Receive(decode, cfg, Run(cfg, START, fam[..m]), tail, LessBy(patience, m))
  {
    StartInOrder(cfg, fam);
    RestUneventful(cfg, fam, START, m);
    assert fam[0..m] == fam[..m];
    ReceiveUneventful(decode, cfg, START, frames, fam[..m], tail, patience);
  }

  lemma FirstFrames(decode: Decoder, frames: seq<Bytes>, chunks: seq<Chunk>, m: nat)
    requires AreFrames(decode, frames, chunks) && m <= |chunks|
    ensures AreFrames(decode, frames[..m], chunks[..m])
  {
    FramesBetween(decode, frames, chunks, 0, m);
    assert frames[0..m] == frames[..m] && chunks[0..m] == chunks[..m];
  }

  /** A whole stream on the wire is received without an error, whatever follows it, unless it is cancelled before. */
  lemma WireRoundTrip(decode: Decoder, cfg: Config, fam: seq<Chunk>, frames: seq<Bytes>, tail: Bytes,
                      patience: Patience)
    requires IsStream(cfg, fam) && Progresses(decode) && AreFrames(decode, frames, fam)
    requires patience.Some? ==> patience.value >= |fam|
    ensures var r := Receive(decode, cfg, START, Join(frames) + tail, patience);
            && r.error == None && r.state.completed && r.state.next == |fam|
            && r.state.writer.contents == Whole(cfg, fam)
  {
    var m := |fam| - 1;
    assert frames == frames[..m] + [frames[m]];
    JoinLast(frames[..m], frames[m], tail);
    FirstFrames(decode, frames, fam, m);
    ReceivePrefix(decode, cfg, fam, frames[..m], m, frames[m] + tail, patience);
    var s := Run(cfg, START, fam[..m]);
    FrameAt(decode, frames, fam, m);
    ReceiveFrame(decode, cfg, s, frames[m], fam[m], tail, LessBy(patience, m));
    assert IsStreamChunk(cfg, fam[m], m, |fam|);
    StepInOrder(cfg, fam, s);
    TextIsPrefix(cfg, fam, |fam|);
  }

  /** Cancelled after p frames, the receiver has exactly their payloads and says that it was cancelled. */
  lemma CancelledAfter(decode: Decoder, cfg: Config, fam: seq<Chunk>, frames: seq<Bytes>, tail: Bytes, p: nat)
    requires IsStream(cfg, fam) && Progresses(decode) && p < |fam| && AreFrames(decode, frames, fam[..p])
    ensures var r := Receive(decode, cfg, START, Join(frames) + tail, Some(p));
            && r.error == Some(Cancelled) && !r.state.completed && r.state.next == p
            && r.state.writer.contents == Text(cfg, fam, p)
  {
    ReceivePrefix(decode, cfg, fam, frames, p, tail, Some(p));
  }

  lemma {:induction false} JoinSnoc(frames: seq<Bytes>, f: Bytes)
    ensures Join(frames + [f]) == Join(frames) + f
    decreases |frames|
  {
    var all := frames + [f];
    if frames == [] {
      assert all[1..] == [];
    } else {
      assert all[1..] == frames[1..] + [f];
      JoinSnoc(frames[1..], f);
    }
  }

  lemma JoinLast(front: seq<Bytes>, f: Bytes, tail: Bytes)
    ensures Join(front + [f]) + tail == Join(front) + (f + tail)
  {
    JoinSnoc(front, f);
    Regroup(Join(front), f, tail);
  }

  // --------------------------------------------------------------- truncation

  /** The cut falls inside frame m: m whole frames and a proper part of the next one. */
  lemma {:induction false} LocateCut(frames: seq<Bytes>, cut: Bytes) returns (m: nat, part: Bytes)
    requires cut < Join(frames)
    ensures m < |frames| && cut == Join(frames[..m]) + part && part < frames[m]
    decreases |frames|
  {
    var first, fs := frames[0], frames[1..];
    var all := Join(frames);
    if |cut| < |first| {
      m, part := 0, cut;
      assert frames[..0] == [] && Join(frames[..0]) + cut == cut;
      assert cut == all[..|cut|] == first[..|cut|];
    } else {
      var cut' := cut[|first|..];
      assert first == all[..|first|] == cut[..|first|];
      assert Join(fs) == all[|first|..];
      assert cut' == Join(fs)[..|cut'|];
      m, part := LocateCut(fs, cut');
      m := m + 1;
      assert frames[..m][1..] == fs[..m - 1];
      assert cut == first + cut';
    }
  }

  /**
   * Truncation is never mistaken for success: cut the wire bytes of a stream anywhere, inside a frame or
   * between two, and the receiver reports an error, having written exactly the payloads of the m frames
   * that arrived whole. It is the decoder's error on the rest, or for an end of file that the stream is incomplete.
   */
  lemma TruncationDetected(decode: Decoder, cfg: Config, fam: seq<Chunk>, frames: seq<Bytes>, m: nat, part: Bytes,
                           patience: Patience)
    requires IsStream(cfg, fam) && Progresses(decode) && AreFrames(decode, frames, fam)
    requires m < |fam| && part < frames[m] && (patience.Some? ==> patience.value > m)
    ensures var r := Receive(decode, cfg, START, Join(frames[..m]) + part, patience);
            && decode(part).Failed? && r.error == Some(AtEnd(decode, part)) && r.state.next == m
            && r.state.writer.contents == Text(cfg, fam, m) && !r.state.completed
  {
    FirstFrames(decode, frames, fam, m);
    ReceivePrefix(decode, cfg, fam, frames[..m], m, part, patience);
    FrameAt(decode, frames, fam, m);
  }

  /** The error of an incomplete stream: an end of file becomes a word of its own. */
  function AtEnd(decode: Decoder, part: Bytes): Error {
    if decode(part).Failed? && decode(part).error != EOF then decode(part).error else StreamIncomplete
  }

  /** How many frames are looked at when m of them arrive whole. */
  function Looked(m: nat, patience: Patience): nat {
    if patience.Some? && patience.value < m then patience.value else m
  }

  /** How the loop ends when m whole frames of a stream of n chunks have come and it may look at q of them. */
  ghost predicate EndsAs(error: Option<Error>, n: nat, q: nat, atEnd: Error, patience: Patience) {
    error == if q == n then None else if patience == Some(q) then Some(Cancelled) else Some(atEnd)
  }

  /** In order: m whole frames and part of the next, under any cancellation. */
  lemma ReceiveInOrder(decode: Decoder, cfg: Config, fam: seq<Chunk>, frames: seq<Bytes>, m: nat, part: Bytes,
                       patience: Patience)
    requires IsStream(cfg, fam) && Progresses(decode) && AreFrames(decode, frames, fam)
    requires m <= |fam| && (m < |fam| ==> part < frames[m])
    ensures var r := Receive(decode, cfg, START, Join(frames[..m]) + part, patience);
            var q := Looked(m, patience);
            && EndsAs(r.error, |fam|, q, AtEnd(decode, part), patience) && r.state.next == q
            && r.state.writer.contents == Text(cfg, fam, q) && (r.state.completed <==> q == |fam|)
  {
    var q := Looked(m, patience);
    if q == |fam| {
      assert frames[..m] == frames;
      WireRoundTrip(decode, cfg, fam, frames, part, patience);
      TextIsPrefix(cfg, fam, |fam|);
    } else if patience == Some(q) {
      JoinSplit(frames[..m], q);
      assert frames[..m][..q] == frames[..q];
      Regroup(Join(frames[..q]), Join(frames[..m][q..]), part);
      FirstFrames(decode, frames, fam, q);
      CancelledAfter(decode, cfg, fam, frames[..q], Join(frames[..m][q..]) + part, q);
    } else {
      TruncationDetected(decode, cfg, fam, frames, m, part, patience);
    }
  }

  // -------------------------------------------------------------- what nil means

  /** From a stream not yet complete, the end-of-file branch never reports success: nil takes a last-flagged chunk. */
  lemma {:induction false} NilNeedsLastChunk(decode: Decoder, cfg: Config, s: State, bytes: Bytes, patience: Patience)
    requires Progresses(decode) && !s.completed && NoLastPending(s)
    requires Receive(decode, cfg, s, bytes, patience).error == None
    ensures exists c :: c in DecodeAll(decode, bytes).0 && IsLast(c)
    decreases |bytes|
  {
    if patience != Some(0) && decode(bytes).Parsed? {
      var c, rest := decode(bytes).value, decode(bytes).rest;
      var later := DecodeAll(decode, rest).0;
      assert DecodeAll(decode, bytes).0 == [c] + later;
      if IsLast(c) {
        assert c in [c] + later;
      } else {
        StepWithoutLast(cfg, s, c);
        NilNeedsLastChunk(decode, cfg, Step(cfg, s, c).state, rest, Less(patience));
        var c' :| c' in later && IsLast(c');
        assert c' in [c] + later;
      }
    }
  }

  ghost predicate NoLastPending(s: State) {
    forall k :: k in s.pending ==> !IsLast(s.pending[k])
  }

  lemma {:induction false} DrainWithoutLast(cfg: Config, s: State)
    requires !s.completed && NoLastPending(s)
    ensures !Drain(cfg, s).state.completed && NoLastPending(Drain(cfg, s).state)
    decreases |s.pending|
  {
    if s.next in s.pending {
      RemoveKeyShrinks(s.pending, s.next);
      var r := Flush(cfg, s.(pending := s.pending - {s.next}), s.pending[s.next]);
      if r.error.None? {
        DrainWithoutLast(cfg, r.state);
      }
    }
  }

  lemma StepWithoutLast(cfg: Config, s: State, c: Chunk)
    requires !s.completed && NoLastPending(s) && !IsLast(c)
    ensures !Step(cfg, s, c).state.completed && NoLastPending(Step(cfg, s, c).state)
  {
    if c.sequence == s.next && Flush(cfg, s, c).error.None? {
      DrainWithoutLast(cfg, Flush(cfg, s, c).state);
    }
  }

  /**
   * Success without completeness, exactly: the frames of chunks of one stream, in any order, with any losses
   * and repetitions, the last-flagged one coming first at position t, in front of any destination. Unless a
   * write fails, the receiver returns nil exactly when no frame up to that one overflows the reorder buffer.
   * The output is then complete exactly when every chunk was among those frames.
   */
  lemma NilMeansComplete(decode: Decoder, cfg: Config, fam: seq<Chunk>, script: seq<Outcome>, calls: seq<Chunk>,
                         frames: seq<Bytes>, t: nat)
    requires IsStream(cfg, fam) && FromStream(fam, calls) && IsFirstLast(calls, t)
    requires Progresses(decode) && AreFrames(decode, frames, calls)
    ensures var r := Receive(decode, cfg, Fresh(script), Join(frames), None);
            && (r.error == None <==> NoOverflow(cfg, calls, t + 1) && r.error != Some(WriteFailed))
            && (AlwaysAccepts(script) ==> r.error != Some(WriteFailed))
            && PassOn(cfg, START, calls).state.next <= |fam|
            && ToldFailure(r) == FailureBefore(cfg, fam, 0, script, PassOn(cfg, START, calls).state.next)
            && (r.error == None ==> (r.state.completed <==> Sequences(calls[..t + 1]) == Range(0, |fam|)))
            && r.state.writer.contents <= Whole(cfg, fam)
            && r.state.next <= |fam|
            && (AllClean(script) ==> r.state.writer.contents == Text(cfg, fam, r.state.next))
            && (r.state.completed ==> r.error == None && r.state.writer.contents == Whole(cfg, fam))
  {
    assert calls[t] in calls;
    ReceiveIsPassOn(decode, cfg, Fresh(script), frames, calls);
    SuccessMeansComplete(cfg, fam, script, calls, t);
  }

  lemma PositionOfLast(order: seq<nat>, n: nat) returns (t: nat)
    requires IsPermutation(order, n) && n > 0
    ensures t < n && order[t] == n - 1 && (t + 1 == n <==> order[n - 1] == n - 1)
    ensures forall u :: 0 <= u < n && u != t ==> order[u] != n - 1
  {
    assert n - 1 in order;
    t :| 0 <= t < n && order[t] == n - 1;
  }

  lemma {:induction false} ArrivalSequences(cfg: Config, fam: seq<Chunk>, order: seq<nat>, calls: seq<Chunk>, u: nat)
    requires IsStream(cfg, fam) && Delivers(fam, order, calls) && u <= |fam|
    ensures Sequences(calls[..u]) == Firsts(order, u)
  {
    if u > 0 {
      ArrivalSequences(cfg, fam, order, calls, u - 1);
      SequencesAt(calls, u - 1);
      FirstsStep(order, u - 1);
      assert IsStreamChunk(cfg, fam[order[u - 1]], order[u - 1], |fam|);
    }
  }

  /** The awaited chunk is still to come, at most maxReorder positions late. */
  lemma AwaitedIsNear(cfg: Config, fam: seq<Chunk>, order: seq<nat>, m: nat, u: nat)
    requires IsPermutation(order, |fam|) && WithinWindow(cfg, order) && u < |fam|
    requires m < order[u] && m !in Firsts(order, u)
    ensures u < m + cfg.maxReorder
  {
    var v := StillToCome(fam, order, m, u);
    assert v <= order[v] + cfg.maxReorder;
  }

  lemma OnTimeFits(cfg: Config, fam: seq<Chunk>, order: seq<nat>, calls: seq<Chunk>, u: nat)
    requires IsStream(cfg, fam) && Delivers(fam, order, calls) && WithinWindow(cfg, order) && u < |fam|
    ensures !Overflows(cfg, calls, u)
  {
    ArrivalSequences(cfg, fam, order, calls, u);
    assert IsStreamChunk(cfg, fam[order[u]], order[u], |fam|);
    FirstsSize(order, u);
    forall m: nat | IsLeastMissing(Firsts(order, u), m) && order[u] > m
      ensures u < m + cfg.maxReorder
    {
      AwaitedIsNear(cfg, fam, order, m, u);
    }
  }

  lemma AllSequencesCame(cfg: Config, fam: seq<Chunk>, order: seq<nat>, calls: seq<Chunk>, u: nat)
    requires IsStream(cfg, fam) && Delivers(fam, order, calls) && u <= |fam|
    ensures Sequences(calls[..u]) == Range(0, |fam|) <==> u == |fam|
  {
    ArrivalSequences(cfg, fam, order, calls, u);
    FirstsSize(order, u);
    if u == |fam| {
      AllArrived(order, |fam|);
    }
  }

  /** A shuffle within the window, as the theorem above sees it: the last-flagged chunk is the t-th. */
  lemma ShuffleFacts(cfg: Config, fam: seq<Chunk>, order: seq<nat>, calls: seq<Chunk>) returns (t: nat)
    requires IsStream(cfg, fam) && Delivers(fam, order, calls) && WithinWindow(cfg, order)
    ensures FromStream(fam, calls) && IsFirstLast(calls, t) && NoOverflow(cfg, calls, t + 1)
    ensures t + 1 == |fam| <==> order[|fam| - 1] == |fam| - 1
  {
    t := PositionOfLast(order, |fam|);
    forall u | 0 <= u < |fam|
      ensures !Overflows(cfg, calls, u) && calls[u] in fam && (IsLast(calls[u]) <==> u == t)
    {
      OnTimeFits(cfg, fam, order, calls, u);
      assert IsStreamChunk(cfg, fam[order[u]], order[u], |fam|);
    }
  }

  /** Every chunk framed once, shuffled within the window: complete exactly when the last-flagged frame comes last. */
  lemma NilMeansCompleteIffLastComesLast(decode: Decoder, cfg: Config, fam: seq<Chunk>, order: seq<nat>,
                                         calls: seq<Chunk>, frames: seq<Bytes>)
    requires IsStream(cfg, fam) && Delivers(fam, order, calls) && WithinWindow(cfg, order)
    requires Progresses(decode) && AreFrames(decode, frames, calls)
    ensures var r := Receive(decode, cfg, START, Join(frames), None);
            && r.error == None
            && (r.state.completed <==> order[|fam| - 1] == |fam| - 1)
            && (r.state.completed ==> r.state.writer.contents == Whole(cfg, fam))
  {
    var t := ShuffleFacts(cfg, fam, order, calls);
    NilMeansComplete(decode, cfg, fam, [], calls, frames, t);
    AllSequencesCame(cfg, fam, order, calls, t + 1);
  }

  // ------------------------------------------------------------- source to sink

  /** Every frame the splitter can produce keeps within the lengths the format has room for. */
  ghost predicate WireReady(sc: Split.Config) {
    && |sc.sessionID| < 0x1_0000
    && |sc.metadata| < 0x1_0000 && SmallEntries(sc.metadata)
    && 0 < sc.chunkSize < 0x1_0000_0000
  }

  lemma ChunkWithinLimits(sc: Split.Config, sha: Sha256, b: Split.Block)
    requires WireReady(sc) && Split.HasherFits(sc, sha) && |b.bytes| <= sc.chunkSize
    ensures WithinLimits(Split.ChunkOf(sc, b))
  {
    var c := Split.ChunkOf(sc, b);
    assert |c.data| <= |b.bytes|;
    assert sc.hasher(c.data) == Compute(sha, sc.checksumType, c.data);
    assert |Compute(sha, sc.checksumType, c.data).full| <= 32;
  }

  lemma EmittedWithinLimits(sc: Split.Config, sha: Sha256, text: Bytes)
    requires |text| <= MAX_INT64 && WireReady(sc) && Split.HasherFits(sc, sha)
    ensures AllWithinLimits(Emitted(sc, text))
  {
    var blocks := Split.Cut(text, sc.chunkSize, 0, 0);
    forall i | 0 <= i < |blocks|
      ensures WithinLimits(Split.ChunkOf(sc, blocks[i]))
    {
      Split.BlockSize(text, sc.chunkSize, 0, 0, i);
      ChunkWithinLimits(sc, sha, blocks[i]);
    }
  }

  /** The receive loop over DecodeBinary and a reader that ends in an end of file or in a fault. */
  ghost function ReceiveFrames(cfg: Config, s: State, bytes: Bytes, patience: Patience, faulty: bool): Reply {
    DecodeProgresses(faulty);
    Receive(DecoderOf(faulty), cfg, s, bytes, patience)
  }

  /** What cannot be read behind m whole frames is reported with its error, and nothing of it is written. */
  lemma GarbageReported(decode: Decoder, cfg: Config, fam: seq<Chunk>, frames: seq<Bytes>, m: nat, tail: Bytes,
                        patience: Patience)
    returns (r: Reply)
    requires IsStream(cfg, fam) && Progresses(decode) && m < |fam| && AreFrames(decode, frames, fam[..m])
    requires (patience.Some? ==> patience.value > m) && decode(tail).Failed? && decode(tail).error != EOF
    ensures r == Receive(decode, cfg, START, Join(frames) + tail, patience)
    ensures r.error == Some(decode(tail).error) && r.state.writer.contents == Text(cfg, fam, m) && !r.state.completed
  {
    ReceivePrefix(decode, cfg, fam, frames, m, tail, patience);
    var ending;
    r, ending := ReceiveHere(decode, cfg, Run(cfg, START, fam[..m]), tail, LessBy(patience, m), false);
  }

  /** The error for three bytes that do not begin a frame of this protocol and version. */
  function ForeignError(magic: Bytes): Error {
    if magic != [0x53, 0x47] then InvalidMagicHeader else UnsupportedVersion
  }

  lemma ForeignDecodes(tail: Bytes, faulty: bool)
    requires |tail| >= 3 && !(tail[0] == 0x53 && tail[1] == 0x47 && tail[2] == 1)
    ensures DecoderOf(faulty)(tail) == Failed(ForeignError(tail[..2]), tail[3..])
  {
    DecodeErrors(tail);
    assert tail[..2] == [tail[0], tail[1]];
  }

  /** Bytes of another protocol or version are reported as such. */
  lemma ForeignFrameReported(cfg: Config, fam: seq<Chunk>, frames: seq<Bytes>, m: nat, tail: Bytes,
                             patience: Patience, faulty: bool)
    returns (r: Reply)
    requires IsStream(cfg, fam) && m < |fam| && AreFrames(DecoderOf(faulty), frames, fam[..m])
    requires patience.Some? ==> patience.value > m
    requires |tail| >= 3 && !(tail[0] == 0x53 && tail[1] == 0x47 && tail[2] == 1)
    ensures r == ReceiveFrames(cfg, START, Join(frames) + tail, patience, faulty)
    ensures r.error == Some(if tail[..2] != [0x53, 0x47] then InvalidMagicHeader else UnsupportedVersion)
    ensures r.state.writer.contents == Text(cfg, fam, m) && !r.state.completed
  {
    DecodeProgresses(faulty);
    ForeignDecodes(tail, faulty);
    r := GarbageReported(DecoderOf(faulty), cfg, fam, frames, m, tail, patience);
  }

  /** A decoder does not write: none of its errors is a failed write. */
  ghost predicate OnlyReads(decode: Decoder) {
    forall b :: decode(b).Failed? ==> decode(b).error != WriteFailed
  }

  lemma DecodeOnlyReads(faulty: bool)
    ensures OnlyReads(DecoderOf(faulty))
  {
    forall b
      ensures Decode(b).Failed? ==> Decode(b).error != WriteFailed
    {
      DecodeErrors(b);
    }
  }

  /** A destination that fails ends the loop early; otherwise its answers change nothing. */
  lemma {:induction false} ReceiveMirrors(decode: Decoder, cfg: Config, s: State, bytes: Bytes, patience: Patience)
    requires Progresses(decode) && OnlyReads(decode)
    ensures Mirrors(s, Receive(decode, cfg, s, bytes, patience), Receive(decode, cfg, Plain(s), bytes, patience))
    decreases |bytes|
  {
    if patience != Some(0) && decode(bytes).Parsed? {
      var c, rest := decode(bytes).value, decode(bytes).rest;
      var r, q := Step(cfg, s, c), Step(cfg, Plain(s), c);
      StepMirrors(cfg, s, c);
      if r.error.None? && !IsLast(c) {
        ReceiveMirrors(decode, cfg, r.state, rest, Less(patience));
        MirrorsOn(s, r, q, Receive(decode, cfg, r.state, rest, Less(patience)),
                  Receive(decode, cfg, q.state, rest, Less(patience)));
      } else if q.error.None? && !IsLast(c) {
        StepMirrors(cfg, Plain(s), c);
        ReceiveMirrors(decode, cfg, q.state, rest, Less(patience));
        MirrorsFailed(s, r, q, Receive(decode, cfg, q.state, rest, Less(patience)));
      }
    }
  }

  /** Frames of a stream in any order, and something behind them that is no frame. */
  lemma {:induction false} ReceiveSound(decode: Decoder, cfg: Config, fam: seq<Chunk>, s: State, frames: seq<Bytes>,
                                        chunks: seq<Chunk>, tail: Bytes, patience: Patience)
    requires IsStream(cfg, fam) && Sound(cfg, fam, s) && FromStream(fam, chunks)
    requires Progresses(decode) && AreFrames(decode, frames, chunks)
    requires decode(tail).Failed? && OnlyReads(decode)
    ensures SoundReply(cfg, fam, s, Receive(decode, cfg, s, Join(frames) + tail, patience))
    decreases |chunks|
  {
    if chunks == [] {
      assert Join(frames) + tail == tail;
    } else if patience != Some(0) {
      var r := Step(cfg, s, chunks[0]);
      StepSoundReply(cfg, fam, s, chunks[0]);
      FrameAt(decode, frames, chunks, 0);
      Regroup(frames[0], Join(frames[1..]), tail);
      ReceiveFrame(decode, cfg, s, frames[0], chunks[0], Join(frames[1..]) + tail, patience);
      if r.error.None? && !IsLast(chunks[0]) {
        LaterFrames(decode, frames, chunks);
        ReceiveSound(decode, cfg, fam, r.state, frames[1..], chunks[1..], tail, Less(patience));
      }
    }
  }

  /** Frames for the chunks behind those already framed. */
  lemma {:induction false} CompleteFrames(frames: seq<Bytes>, chunks: seq<Chunk>) returns (full: seq<Bytes>)
    requires |frames| <= |chunks| && Encodes(frames, chunks[..|frames|])
    ensures frames <= full && Encodes(full, chunks)
    decreases |chunks| - |frames|
  {
    var n := |frames|;
    if n == |chunks| {
      assert chunks[..n] == chunks;
      full := frames;
    } else {
      var order := SomeOrder(chunks[n].metadata.Keys);
      var f := Frame(chunks[n], order);
      forall i | 0 <= i < n + 1
        ensures IsFrameOf((frames + [f])[i], chunks[..n + 1][i])
      {
        if i < n {
          assert IsFrameOf(frames[i], chunks[..n][i]);
        }
      }
      full := CompleteFrames(frames + [f], chunks);
    }
  }

  /** Where a prefix of the wire ends: behind m whole frames, in or before the next one. */
  ghost predicate EndsAt(frames: seq<Bytes>, wire: Bytes, m: nat, part: Bytes) {
    && m <= |frames| && wire == Join(frames[..m]) + part
    && (if m == |frames| then part == [] && wire == Join(frames) else part < frames[m])
  }

  lemma LocateEnd(frames: seq<Bytes>, wire: Bytes) returns (m: nat, part: Bytes)
    requires wire <= Join(frames)
    ensures EndsAt(frames, wire, m, part)
  {
    if wire == Join(frames) {
      m, part := |frames|, [];
      assert frames[..m] == frames;
    } else {
      m, part := LocateCut(frames, wire);
    }
  }

  /** The wire ends behind a whole frame, or where the decoder would go on to read a field of the next. */
  ghost predicate CleanEnd(frames: seq<Bytes>, chunks: seq<Chunk>, m: nat, part: Bytes) {
    part == [] || (m < |frames| == |chunks| && BetweenReads(frames[m], chunks[m], part))
  }

  /** What the receiver reports of an incomplete stream. */
  function CutAnswer(faulty: bool, clean: bool): Error {
    if faulty then ReadFailed else if clean then StreamIncomplete else UnexpectedEOF
  }

  lemma CutAtEnd(frames: seq<Bytes>, chunks: seq<Chunk>, wire: Bytes, m: nat, part: Bytes, faulty: bool)
    requires Encodes(frames, chunks) && AllWithinLimits(chunks) && EndsAt(frames, wire, m, part)
    ensures DecoderOf(faulty)(part).Failed?
    ensures AtEnd(DecoderOf(faulty), part) == CutAnswer(faulty, CleanEnd(frames, chunks, m, part))
  {
    if part == [] {
      DecodeNothing();
    } else {
      assert IsFrameOf(frames[m], chunks[m]);
      CutFrame(frames[m], chunks[m], part);
    }
    AnswerAtEnd(part, if CleanEnd(frames, chunks, m, part) then EOF else UnexpectedEOF, faulty);
  }

  lemma DecodeNothing()
    ensures Decode([]) == Failed(EOF, [])
  {
  }

  lemma AnswerAtEnd(part: Bytes, e: Error, faulty: bool)
    requires Decode(part) == Failed(e, []) && RanOut(e)
    ensures DecoderOf(faulty)(part).Failed? && AtEnd(DecoderOf(faulty), part) == CutAnswer(faulty, e == EOF)
  {
  }

  lemma EmittedFrames(sc: Split.Config, ac: Config, text: Bytes, frames: seq<Bytes>)
    requires Compatible(sc, ac) && WireReady(sc) && |text| <= MAX_INT64 && Encodes(frames, Emitted(sc, text))
    ensures IsStream(ac, Emitted(sc, text)) && Whole(ac, Emitted(sc, text)) == text
    ensures AllWithinLimits(Emitted(sc, text))
  {
    EmittedIsStream(sc, ac, text);
    EmittedWithinLimits(sc, ac.sha, text);
  }

  /**
   * What the receiver has made of a wire that ends behind m whole frames of n, of which it looked at q. A
   * destination that accepts everything holds what they carry, and the answer says how the wire ended. One
   * that fails a write holds a beginning of that.
   */
  ghost predicate Received(r: Reply, script: seq<Outcome>, n: nat, q: nat, atEnd: Error, patience: Patience, got: Bytes)
  {
    if r.error == Some(WriteFailed)
    then !AlwaysAccepts(script) && !r.state.completed && r.state.writer.contents <= got
    else EndsAs(r.error, n, q, atEnd, patience) && (r.state.completed <==> q == n) && r.state.writer.contents == got
  }

  lemma FramesOnReliable(cfg: Config, fam: seq<Chunk>, frames: seq<Bytes>, wire: Bytes, patience: Patience,
                         faulty: bool)
    returns (m: nat, part: Bytes)
    requires IsStream(cfg, fam) && Encodes(frames, fam) && AllWithinLimits(fam) && wire <= Join(frames)
    ensures EndsAt(frames, wire, m, part)
    ensures DecoderOf(faulty)(part).Failed?
    ensures var r, q := ReceiveFrames(cfg, START, wire, patience, faulty), Looked(m, patience);
            && EndsAs(r.error, |fam|, q, CutAnswer(faulty, CleanEnd(frames, fam, m, part)), patience)
            && r.state.next == q && r.state.writer.contents == Text(cfg, fam, q) && (r.state.completed <==> q == |fam|)
  {
    DecodeProgresses(faulty);
    EncodingsAreFrames(frames, fam, faulty);
    m, part := LocateEnd(frames, wire);
    CutAtEnd(frames, fam, wire, m, part, faulty);
    ReceiveInOrder(DecoderOf(faulty), cfg, fam, frames, m, part, patience);
  }

  lemma FreshSound(cfg: Config, fam: seq<Chunk>, script: seq<Outcome>, frames: seq<Bytes>, m: nat, part: Bytes,
                   patience: Patience, faulty: bool)
    requires IsStream(cfg, fam) && Encodes(frames, fam) && AllWithinLimits(fam) && m <= |frames|
    requires DecoderOf(faulty)(part).Failed?
    ensures var r := ReceiveFrames(cfg, Fresh(script), Join(frames[..m]) + part, patience, faulty);
            SoundReply(cfg, fam, Fresh(script), r)
  {
    DecodeProgresses(faulty);
    DecodeOnlyReads(faulty);
    EncodingsAreFrames(frames, fam, faulty);
    FirstFrames(DecoderOf(faulty), frames, fam, m);
    FreshIsSound(cfg, fam, script);
    ReceiveSound(DecoderOf(faulty), cfg, fam, Fresh(script), frames[..m], fam[..m], part, patience);
  }

  /** One frame of a stream, and the same frame before a destination that accepts. */
  lemma ReceiveOnce(decode: Decoder, cfg: Config, fam: seq<Chunk>, s: State, frames: seq<Bytes>, chunks: seq<Chunk>,
                    tail: Bytes, patience: Patience)
    returns (r: Reply, p: Reply)
    requires IsStream(cfg, fam) && OnCourse(cfg, fam, s) && s.next !in s.pending && FromStream(fam, chunks)
    requires Progresses(decode) && AreFrames(decode, frames, chunks) && chunks != [] && patience != Some(0)
    ensures Abreast(cfg, fam, s, r, p)
    ensures r.error.None? ==> r.state.next !in r.state.pending
    ensures p.error.None? ==> p.state.next !in p.state.pending
    ensures Receive(decode, cfg, s, Join(frames) + tail, patience)
         == if r.error.Some? || IsLast(chunks[0]) then r
            else Receive(decode, cfg, r.state, Join(frames[1..]) + tail, Less(patience))
    ensures Receive(decode, cfg, Plain(s), Join(frames) + tail, patience)
         == if p.error.Some? || IsLast(chunks[0]) then p
            else Receive(decode, cfg, p.state, Join(frames[1..]) + tail, Less(patience))
  {
    r, p := Step(cfg, s, chunks[0]), Step(cfg, Plain(s), chunks[0]);
    StepAbreast(cfg, fam, s, chunks[0]);
    StepAbreast(cfg, fam, Plain(s), chunks[0]);
    FrameAt(decode, frames, chunks, 0);
    Regroup(frames[0], Join(frames[1..]), tail);
    ReceiveFrame(decode, cfg, s, frames[0], chunks[0], Join(frames[1..]) + tail, patience);
    ReceiveFrame(decode, cfg, Plain(s), frames[0], chunks[0], Join(frames[1..]) + tail, patience);
  }

  lemma ReceiveNothing(decode: Decoder, cfg: Config, fam: seq<Chunk>, s: State, tail: Bytes, patience: Patience)
    requires IsStream(cfg, fam) && OnCourse(cfg, fam, s) && Progresses(decode) && OnlyReads(decode)
    requires decode(tail).Failed? || patience == Some(0)
    ensures Abreast(cfg, fam, s, Receive(decode, cfg, s, tail, patience),
                    Receive(decode, cfg, Plain(s), tail, patience))
  {
    Unmoved(cfg, fam, s, Receive(decode, cfg, s, tail, patience));
  }

  /** Frames of a stream in any order: the failing write is the first that an accepting destination is asked for too. */
  lemma {:induction false} ReceiveAbreast(decode: Decoder, cfg: Config, fam: seq<Chunk>, s: State, frames: seq<Bytes>,
                                          chunks: seq<Chunk>, tail: Bytes, patience: Patience)
    requires IsStream(cfg, fam) && OnCourse(cfg, fam, s) && s.next !in s.pending && FromStream(fam, chunks)
    requires Progresses(decode) && OnlyReads(decode) && AreFrames(decode, frames, chunks) && decode(tail).Failed?
    ensures var bytes := Join(frames) + tail;
            Abreast(cfg, fam, s, Receive(decode, cfg, s, bytes, patience),
                    Receive(decode, cfg, Plain(s), bytes, patience))
    decreases |chunks|
  {
    if chunks == [] || patience == Some(0) {
      assert chunks == [] ==> Join(frames) + tail == tail;
      ReceiveNothing(decode, cfg, fam, s, Join(frames) + tail, patience);
    } else {
      var r, p := ReceiveOnce(decode, cfg, fam, s, frames, chunks, tail, patience);
      if p.error.None? && !IsLast(chunks[0]) {
        var t, later := if r.error.None? then r.state else p.state, Join(frames[1..]) + tail;
        LaterFrames(decode, frames, chunks);
        ReceiveAbreast(decode, cfg, fam, t, frames[1..], chunks[1..], tail, Less(patience));
        AbreastOn(cfg, fam, s, r, p, t, Receive(decode, cfg, t, later, Less(patience)),
                  Receive(decode, cfg, p.state, later, Less(patience)));
      }
    }
  }

  lemma FreshFailure(cfg: Config, fam: seq<Chunk>, script: seq<Outcome>, frames: seq<Bytes>, m: nat, part: Bytes,
                     patience: Patience, faulty: bool)
    requires IsStream(cfg, fam) && Encodes(frames, fam) && AllWithinLimits(fam) && m <= |frames|
    requires DecoderOf(faulty)(part).Failed?
    ensures var wire := Join(frames[..m]) + part;
            Abreast(cfg, fam, Fresh(script), ReceiveFrames(cfg, Fresh(script), wire, patience, faulty),
                    ReceiveFrames(cfg, START, wire, patience, faulty))
  {
    DecodeProgresses(faulty);
    DecodeOnlyReads(faulty);
    EncodingsAreFrames(frames, fam, faulty);
    FirstFrames(DecoderOf(faulty), frames, fam, m);
    FreshIsSound(cfg, fam, script);
    ReceiveAbreast(DecoderOf(faulty), cfg, fam, Fresh(script), frames[..m], fam[..m], part, patience);
  }

  /** From the wire of any stream to any destination, in terms of its chunks. */
  lemma FramesReceived(cfg: Config, fam: seq<Chunk>, script: seq<Outcome>, frames: seq<Bytes>, wire: Bytes,
                       patience: Patience, faulty: bool)
    returns (m: nat, part: Bytes)
    requires IsStream(cfg, fam) && Encodes(frames, fam) && AllWithinLimits(fam) && wire <= Join(frames)
    ensures EndsAt(frames, wire, m, part)
    ensures var r, q := ReceiveFrames(cfg, Fresh(script), wire, patience, faulty), Looked(m, patience);
            && Received(r, script, |fam|, q, CutAnswer(faulty, CleanEnd(frames, fam, m, part)), patience,
                        Text(cfg, fam, q))
            && ToldFailure(r) == FailureBefore(cfg, fam, 0, script, q)
            && r.state.next <= |fam|
            && (AllClean(script) ==> r.state.writer.contents == Text(cfg, fam, r.state.next))
  {
    m, part := FramesOnReliable(cfg, fam, frames, wire, patience, faulty);
    FreshFailure(cfg, fam, script, frames, m, part, patience, faulty);
    FreshSound(cfg, fam, script, frames, m, part, patience, faulty);
    FreshIsSound(cfg, fam, script);
    DecodeProgresses(faulty);
    DecodeOnlyReads(faulty);
    ReceiveMirrors(DecoderOf(faulty), cfg, Fresh(script), wire, patience);
  }

  /** The write of block w is the first to fail and takes `partial` bytes at most: what the destination then holds. */
  function SourceFailure(text: Bytes, k: nat, script: seq<Outcome>, q: nat): Option<(nat, Bytes)> {
    var w := FirstFail(script);
    if text != [] && w < |script| && w < q
    then Some((w, text[..Min(w * k + Min(script[w].partial, k), |text|)]))
    else None
  }

  lemma EmittedPayloads(sc: Split.Config, ac: Config, text: Bytes, i: nat)
    requires Compatible(sc, ac) && |text| <= MAX_INT64 && IsStream(ac, Emitted(sc, text)) && i < |Emitted(sc, text)|
    ensures var p, k := Payloads(ac, Emitted(sc, text))[i], sc.chunkSize;
            i * k <= |text| && p == text[i * k..Min(i * k + k, |text|)] && (text != [] ==> p != [])
  {
    EmittedPayload(sc, ac, text, i);
    BlockIsStreamChunk(sc, ac, text, i);
    var blocks := Split.Cut(text, sc.chunkSize, 0, 0);
    Split.CutByIndex(text, sc.chunkSize, 0, 0, i);
    if blocks[i].bytes == [] {
      Split.EmptyBlockIsAlone(text, sc.chunkSize, i);
    }
  }

  lemma PartOfSlice(text: Bytes, a: nat, k: nat, partial: nat)
    requires a <= |text|
    ensures var slice := text[a..Min(a + k, |text|)];
            text[..Min(a, |text|)] + slice[..Min(partial, |slice|)] == text[..Min(a + Min(partial, k), |text|)]
  {
  }

  lemma EmptyFailure(sc: Split.Config, ac: Config, script: seq<Outcome>, q: nat)
    requires Compatible(sc, ac) && IsStream(ac, Emitted(sc, [])) && q <= |Emitted(sc, [])|
    ensures FailureBefore(ac, Emitted(sc, []), 0, script, q) == None
  {
    var ps := Payloads(ac, Emitted(sc, []));
    Split.CutCount([], sc.chunkSize, 0, 0);
    EmittedPayloads(sc, ac, [], 0);
    assert ps == [[]] && ps[0..] == ps;
    assert FirstFailure(ps, script) == (1, 0);
  }

  lemma EmittedComing(sc: Split.Config, ac: Config, text: Bytes, script: seq<Outcome>)
    requires Compatible(sc, ac) && 0 < |text| <= MAX_INT64 && IsStream(ac, Emitted(sc, text))
    ensures var ps, w := Payloads(ac, Emitted(sc, text)), FirstFail(script);
            Coming(ac, Emitted(sc, text), 0, script)
            == if w < |ps| && w < |script| then (w, Min(script[w].partial, |ps[w]|)) else (|ps|, 0)
  {
    var ps := Payloads(ac, Emitted(sc, text));
    forall i | 0 <= i < |ps|
      ensures ps[i] != []
    {
      EmittedPayloads(sc, ac, text, i);
    }
    FirstFailureIs(ps, script);
    assert ps[0..] == ps;
  }

  lemma PartOfBlock(sc: Split.Config, ac: Config, text: Bytes, w: nat, partial: nat)
    requires Compatible(sc, ac) && |text| <= MAX_INT64 && IsStream(ac, Emitted(sc, text)) && w < |Emitted(sc, text)|
    ensures var p, k := Payloads(ac, Emitted(sc, text))[w], sc.chunkSize;
            Text(ac, Emitted(sc, text), w) + p[..Min(partial, |p|)] == text[..Min(w * k + Min(partial, k), |text|)]
  {
    var k := sc.chunkSize;
    EmittedPayloads(sc, ac, text, w);
    EmittedText(sc, ac, text, w);
    PartOfSlice(text, w * k, k, partial);
  }

  lemma EmittedFailure(sc: Split.Config, ac: Config, text: Bytes, script: seq<Outcome>, q: nat)
    requires Compatible(sc, ac) && |text| <= MAX_INT64 && IsStream(ac, Emitted(sc, text)) && q <= |Emitted(sc, text)|
    ensures FailureBefore(ac, Emitted(sc, text), 0, script, q) == SourceFailure(text, sc.chunkSize, script, q)
  {
    var w := FirstFail(script);
    if text == [] {
      EmptyFailure(sc, ac, script, q);
    } else {
      EmittedComing(sc, ac, text, script);
      if w < q && w < |script| {
        PartOfBlock(sc, ac, text, w, script[w].partial);
      }
    }
  }

  /**
   * From source to wire to sink, for any part of the wire, any cancellation and any destination: m frames
   * arrived whole, q of them were looked at, and a receiver whose writes succeed has exactly their bytes of the
   * source. It returns nil exactly when everything arrived and was looked at; otherwise the error tells
   * cancellation from truncation, a broken connection from an ended one, and a cut between two reads of the
   * decoder from a cut inside one. A failed write is told of exactly when the first failing answer comes among
   * those to the q blocks, and leaves the blocks in front of it and the part of its own block that was taken.
   */
  lemma SourceToSink(sc: Split.Config, ac: Config, script: seq<Outcome>, text: Bytes, frames: seq<Bytes>,
                     wire: Bytes, patience: Patience, faulty: bool)
    returns (m: nat, part: Bytes)
    requires Compatible(sc, ac) && WireReady(sc) && |text| <= MAX_INT64
    requires Encodes(frames, Emitted(sc, text)) && wire <= Join(frames)
    ensures EndsAt(frames, wire, m, part)
    ensures var fam, q := Emitted(sc, text), Looked(m, patience);
            var r := ReceiveFrames(ac, Fresh(script), wire, patience, faulty);
            && Received(r, script, |fam|, q, CutAnswer(faulty, CleanEnd(frames, fam, m, part)), patience,
                        FirstBytes(text, q, sc.chunkSize))
            && ToldFailure(r) == SourceFailure(text, sc.chunkSize, script, q)
            && (r.error == None ==> r.state.writer.contents == text)
            && (AllClean(script) ==> r.state.writer.contents == FirstBytes(text, r.state.next, sc.chunkSize))
  {
    var fam := Emitted(sc, text);
    EmittedFrames(sc, ac, text, frames);
    m, part := FramesReceived(ac, fam, script, frames, wire, patience, faulty);
    var r := ReceiveFrames(ac, Fresh(script), wire, patience, faulty);
    EmittedFailure(sc, ac, text, script, Looked(m, patience));
    EmittedText(sc, ac, text, Looked(m, patience));
    EmittedText(sc, ac, text, r.state.next);
    TextIsPrefix(ac, fam, Looked(m, patience));
  }

  lemma SourceToReliable(sc: Split.Config, ac: Config, text: Bytes, frames: seq<Bytes>, wire: Bytes,
                         patience: Patience, faulty: bool)
    returns (m: nat, part: Bytes)
    requires Compatible(sc, ac) && WireReady(sc) && |text| <= MAX_INT64
    requires Encodes(frames, Emitted(sc, text)) && wire <= Join(frames)
    ensures EndsAt(frames, wire, m, part)
    ensures var r, q := ReceiveFrames(ac, START, wire, patience, faulty), Looked(m, patience);
            && EndsAs(r.error, |frames|, q, CutAnswer(faulty, CleanEnd(frames, Emitted(sc, text), m, part)), patience)
            && (r.state.completed <==> q == |frames|) && r.state.writer.contents == FirstBytes(text, q, sc.chunkSize)
            && (r.error == None ==> r.state.writer.contents == text)
  {
    m, part := SourceToSink(sc, ac, [], text, frames, wire, patience, faulty);
  }

  lemma MoreFramesLonger(frames: seq<Bytes>, a: nat, b: nat, part: Bytes)
    requires a < b <= |frames| && |part| < |frames[a]|
    ensures |Join(frames[..a]) + part| < |Join(frames[..b])|
  {
    JoinSplit(frames[..b], a);
    assert frames[..b][..a] == frames[..a];
    var rest := frames[..b][a..];
    assert rest[0] == frames[a];
  }

  lemma WholeFramesEnd(frames: seq<Bytes>, m: nat, m': nat, part: Bytes)
    requires m <= |frames| && (forall i :: 0 <= i < |frames| ==> frames[i] != [])
    requires EndsAt(frames, Join(frames[..m]), m', part)
    ensures m' == m && part == []
  {
    if m' < m {
      MoreFramesLonger(frames, m', m, part);
      assert false;
    } else if m < m' {
      MoreFramesLonger(frames, m, m', []);
      assert false;
    } else {
      SameTail(Join(frames[..m]), part, []);
    }
  }

  lemma SameTail(a: Bytes, b: Bytes, c: Bytes)
    ensures a + b == a + c ==> b == c
    ensures a + [] == a
  {
    if a + b == a + c {
      assert (a + b)[|a|..] == b && (a + c)[|a|..] == c;
    }
  }

  /**
   * A sender that stops between two frames, after m of the chunks: the receiver has exactly their bytes and
   * knows that the stream is incomplete, unless they were all of them.
   */
  lemma PartialSendReceived(sc: Split.Config, ac: Config, text: Bytes, frames: seq<Bytes>, faulty: bool)
    requires Compatible(sc, ac) && WireReady(sc) && |text| <= MAX_INT64
    requires |frames| <= |Emitted(sc, text)| && Encodes(frames, Emitted(sc, text)[..|frames|])
    ensures var r, n, m := ReceiveFrames(ac, START, Join(frames), None, faulty), |Emitted(sc, text)|, |frames|;
            && r.error == (if m == n then None else Some(if faulty then ReadFailed else StreamIncomplete))
            && r.state.writer.contents == FirstBytes(text, m, sc.chunkSize)
            && (m == n ==> r.state.completed && r.state.writer.contents == text)
  {
    var full := CompleteFrames(frames, Emitted(sc, text));
    StopsBehind(frames, full);
    var m, part := SourceToReliable(sc, ac, text, full, Join(frames), None, faulty);
    FramesNotEmpty(full, Emitted(sc, text));
    WholeFramesEnd(full, |frames|, m, part);
  }

  lemma StopsBehind(frames: seq<Bytes>, full: seq<Bytes>)
    requires frames <= full
    ensures full[..|frames|] == frames && Join(frames) <= Join(full)
  {
    JoinSplit(full, |frames|);
  }

  lemma FramesNotEmpty(frames: seq<Bytes>, chunks: seq<Chunk>)
    requires Encodes(frames, chunks)
    ensures forall i :: 0 <= i < |frames| ==> frames[i] != []
  {
    forall i | 0 <= i < |frames|
      ensures frames[i] != []
    {
      assert IsFrameOf(frames[i], chunks[i]);
      FrameNotEmpty(frames[i], chunks[i]);
    }
  }

  lemma FrameNotEmpty(f: Bytes, c: Chunk)
    requires IsFrameOf(f, c)
    ensures f != []
  {
    var order :| IsOrder(order, c.metadata.Keys) && f == Frame(c, order);
    assert |FrontBytes(c)| >= 3;
  }
}
