/** Chunks passed to an assembler one by one until the last-flagged one: what success then means. */
module Delivery {
  import opened Basics
  import opened Core
  import opened Checksum
  import opened AssemblerModel
  import opened Reassembly
  import opened Recovery

  /**
   * The loop that AsReader runs over its channel and the receive loops run over decoded frames: it ends
   * with the first error, with the chunk flagged last, or when nothing more comes.
   */
  ghost function PassOn(cfg: Config, s: State, chunks: seq<Chunk>): Reply
    decreases |chunks|
  {
    if chunks == [] then Reply(s, if s.completed then None else Some(StreamIncomplete))
    else
      var r := Step(cfg, s, chunks[0]);
      if r.error.Some? || IsLast(chunks[0]) then r else PassOn(cfg, r.state, chunks[1..])
  }

  /** The first t calls are answered without an error, and none of them brings a chunk with the last flag. */
  ghost predicate Quiet(cfg: Config, s: State, calls: seq<Chunk>, t: nat) {
    t <= |calls| && forall u :: 0 <= u < t ==> Answer(cfg, s, calls, u).None? && calls[u].flags % 2 == 0
  }

  lemma {:induction false} QuietCallsPass(cfg: Config, s: State, calls: seq<Chunk>, t: nat)
    requires Quiet(cfg, s, calls, t)
    ensures PassOn(cfg, s, calls) == PassOn(cfg, Run(cfg, s, calls[..t]), calls[t..])
    decreases t
  {
    if t == 0 {
      assert calls[..0] == [] && calls[0..] == calls;
    } else {
      QuietCallsPass(cfg, s, calls, t - 1);
      RunStep(cfg, s, calls, t - 1);
      assert Answer(cfg, s, calls, t - 1).None?;
      assert calls[t - 1..][0] == calls[t - 1] && calls[t - 1..][1..] == calls[t..];
    }
  }

  /**
   * Whatever the chunks are: the first call that is answered with an error, or that brings the chunk with the last
   * flag, ends the loop, and its answer is the loop's. Without such a call the chunks run out, which is an error
   * unless the stream is complete.
   */
  lemma LoopEnds(cfg: Config, s: State, calls: seq<Chunk>, t: nat)
    requires Quiet(cfg, s, calls, t)
    ensures t < |calls| && (Answer(cfg, s, calls, t).Some? || calls[t].flags % 2 == 1) ==>
              PassOn(cfg, s, calls) == Reply(Run(cfg, s, calls[..t + 1]), Answer(cfg, s, calls, t))
    ensures t == |calls| ==>
              var r := Run(cfg, s, calls);
              PassOn(cfg, s, calls) == Reply(r, if r.completed then None else Some(StreamIncomplete))
  {
    QuietCallsPass(cfg, s, calls, t);
    if t < |calls| {
      RunStep(cfg, s, calls, t);
      assert calls[t..][0] == calls[t];
    } else {
      assert calls[..t] == calls && calls[t..] == [];
    }
  }

  /** The loop can get no further than this call. */
  ghost predicate IsFirstLast(calls: seq<Chunk>, t: nat) {
    t < |calls| && IsLast(calls[t]) && NoLastBefore(calls, t)
  }

  ghost predicate NoLastBefore(calls: seq<Chunk>, t: nat) {
    t <= |calls| && forall u :: 0 <= u < t ==> !IsLast(calls[u])
  }

  ghost predicate IsLeastMissing(have: set<int>, m: nat) {
    m !in have && forall i :: 0 <= i < m ==> i in have
  }

  /** With the chunks `have`, the buffer is full, and chunk i is neither the awaited one nor an old one. */
  ghost predicate TooFar(cfg: Config, have: set<int>, i: int) {
    exists m: nat :: IsLeastMissing(have, m) && i > m && |have| - m >= cfg.maxReorder
  }

  ghost predicate Overflows(cfg: Config, calls: seq<Chunk>, u: nat)
    requires u < |calls|
  {
    TooFar(cfg, Sequences(calls[..u]), calls[u].sequence)
  }

  ghost predicate NoOverflow(cfg: Config, calls: seq<Chunk>, n: nat)
    requires n <= |calls|
  {
    forall u :: 0 <= u < n ==> !Overflows(cfg, calls, u)
  }

  ghost predicate FromStream(fam: seq<Chunk>, calls: seq<Chunk>) {
    forall c :: c in calls ==> c in fam
  }

  /** Every delivery so far was accepted. */
  ghost predicate Caught(cfg: Config, fam: seq<Chunk>, s: State, have: set<int>)
    requires IsStream(cfg, fam)
  {
    Represents(cfg, fam, s, have) && s.writer.script == []
  }

  lemma WithoutLastIncomplete(cfg: Config, fam: seq<Chunk>, calls: seq<Chunk>, t: nat)
    requires IsStream(cfg, fam) && FromStream(fam, calls) && NoLastBefore(calls, t)
    ensures |fam| - 1 !in Sequences(calls[..t])
  {
    if |fam| - 1 in Sequences(calls[..t]) {
      var u :| 0 <= u < t && calls[..t][u].sequence == |fam| - 1;
      assert calls[u] in calls;
      MemberFacts(cfg, fam, calls[u]);
      assert false;
    }
  }

  lemma NotCompleted(cfg: Config, fam: seq<Chunk>, s: State, have: set<int>)
    requires IsStream(cfg, fam) && Represents(cfg, fam, s, have) && |fam| - 1 !in have
    ensures !s.completed
  {
    CompletedIffAllAccepted(cfg, fam, s, have);
    assert |fam| - 1 in Range(0, |fam|);
  }

  /** What the next call answers, and that it keeps up when it is not refused. */
  lemma NextCall(cfg: Config, fam: seq<Chunk>, s: State, have: set<int>, c: Chunk)
    requires IsStream(cfg, fam) && Caught(cfg, fam, s, have) && !s.completed && c in fam
    ensures var r := Step(cfg, s, c);
            if TooFar(cfg, have, c.sequence) then r == Reply(s, Some(ReorderBufferFull))
            else r.error == None && Caught(cfg, fam, r.state, have + {c.sequence})
  {
    StepRepresents(cfg, fam, s, have, c);
    AcceptedSize(cfg, fam, s, have);
    RefusalChangesNothing(cfg, s, c);
    assert IsLeastMissing(have, s.next);
    LeastUniqueIn(have);
  }

  lemma LeastUniqueIn(have: set<int>)
    ensures forall m: nat, n: nat :: IsLeastMissing(have, m) && IsLeastMissing(have, n) ==> m == n
  {
  }

  lemma SequencesAt(calls: seq<Chunk>, t: nat)
    requires t < |calls|
    ensures Sequences(calls[..t + 1]) == Sequences(calls[..t]) + {calls[t].sequence}
  {
    assert calls[..t + 1][..t] == calls[..t];
    SequencesStep(calls[..t + 1]);
  }

  /** While nothing overflows and no last-flagged chunk has come, exactly the chunks delivered are accepted. */
  lemma {:induction false} CaughtSoFar(cfg: Config, fam: seq<Chunk>, calls: seq<Chunk>, t: nat)
    requires IsStream(cfg, fam) && FromStream(fam, calls) && NoLastBefore(calls, t) && NoOverflow(cfg, calls, t)
    ensures Caught(cfg, fam, Run(cfg, START, calls[..t]), Sequences(calls[..t]))
    ensures !Run(cfg, START, calls[..t]).completed
  {
    if t == 0 {
      RunRepresents(cfg, fam, []);
      assert Sequences(calls[..0]) == {};
    } else {
      var s := Run(cfg, START, calls[..t - 1]);
      CaughtSoFar(cfg, fam, calls, t - 1);
      assert !Overflows(cfg, calls, t - 1);
      NextCall(cfg, fam, s, Sequences(calls[..t - 1]), calls[t - 1]);
      SequencesAt(calls, t - 1);
      RunStep(cfg, START, calls, t - 1);
    }
    WithoutLastIncomplete(cfg, fam, calls, t);
    NotCompleted(cfg, fam, Run(cfg, START, calls[..t]), Sequences(calls[..t]));
  }

  /** The loop has made its first t calls. */
  lemma {:induction false} PassOnFrom(cfg: Config, fam: seq<Chunk>, calls: seq<Chunk>, u: nat, t: nat)
    requires IsStream(cfg, fam) && FromStream(fam, calls) && u <= t
    requires NoLastBefore(calls, t) && NoOverflow(cfg, calls, t)
    ensures PassOn(cfg, Run(cfg, START, calls[..u]), calls[u..]) == PassOn(cfg, Run(cfg, START, calls[..t]), calls[t..])
    decreases t - u
  {
    if u < t {
      var s := Run(cfg, START, calls[..u]);
      CaughtSoFar(cfg, fam, calls, u);
      assert !Overflows(cfg, calls, u);
      NextCall(cfg, fam, s, Sequences(calls[..u]), calls[u]);
      RunStep(cfg, START, calls, u);
      assert calls[u..][0] == calls[u] && calls[u..][1..] == calls[u + 1..];
      PassOnFrom(cfg, fam, calls, u + 1, t);
    }
  }

  /** The call the loop stops at: an overflow, or the last-flagged chunk. */
  lemma PassOnStops(cfg: Config, fam: seq<Chunk>, calls: seq<Chunk>, t: nat)
    requires IsStream(cfg, fam) && FromStream(fam, calls) && t < |calls|
    requires NoLastBefore(calls, t) && NoOverflow(cfg, calls, t)
    requires Overflows(cfg, calls, t) || IsLast(calls[t])
    ensures var r := PassOn(cfg, START, calls);
            if Overflows(cfg, calls, t)
            then r == Reply(Run(cfg, START, calls[..t]), Some(ReorderBufferFull))
            else r.error == None && Caught(cfg, fam, r.state, Sequences(calls[..t + 1]))
  {
    var s := Run(cfg, START, calls[..t]);
    assert calls[..0] == [] && calls[0..] == calls;
    PassOnFrom(cfg, fam, calls, 0, t);
    CaughtSoFar(cfg, fam, calls, t);
    NextCall(cfg, fam, s, Sequences(calls[..t]), calls[t]);
    SequencesAt(calls, t);
    assert calls[t..][0] == calls[t];
  }

  lemma {:induction false} FirstOverflow(cfg: Config, calls: seq<Chunk>, n: nat) returns (u: nat)
    requires n <= |calls| && !NoOverflow(cfg, calls, n)
    ensures u < n && Overflows(cfg, calls, u) && NoOverflow(cfg, calls, u)
  {
    if NoOverflow(cfg, calls, n - 1) {
      u := n - 1;
    } else {
      u := FirstOverflow(cfg, calls, n - 1);
    }
  }

  lemma CaughtOutput(cfg: Config, fam: seq<Chunk>, s: State, have: set<int>)
    requires IsStream(cfg, fam) && Caught(cfg, fam, s, have)
    ensures s.writer.contents <= Whole(cfg, fam)
    ensures s.completed <==> have == Range(0, |fam|)
    ensures s.completed ==> s.writer.contents == Whole(cfg, fam)
  {
    TextIsPrefix(cfg, fam, s.next);
    CompletedIffAllAccepted(cfg, fam, s, have);
  }

  lemma SuccessOnReliable(cfg: Config, fam: seq<Chunk>, calls: seq<Chunk>, t: nat)
    requires IsStream(cfg, fam) && FromStream(fam, calls) && IsFirstLast(calls, t)
    ensures var r := PassOn(cfg, START, calls);
            && (r.error == None <==> NoOverflow(cfg, calls, t + 1))
            && (r.error == None ==> (r.state.completed <==> Sequences(calls[..t + 1]) == Range(0, |fam|)))
            && r.state.writer.contents <= Whole(cfg, fam)
            && (r.state.completed ==> r.error == None && r.state.writer.contents == Whole(cfg, fam))
  {
    if NoOverflow(cfg, calls, t + 1) {
      assert !Overflows(cfg, calls, t);
      PassOnStops(cfg, fam, calls, t);
      CaughtOutput(cfg, fam, PassOn(cfg, START, calls).state, Sequences(calls[..t + 1]));
    } else {
      var u := FirstOverflow(cfg, calls, t + 1);
      PassOnStops(cfg, fam, calls, u);
      CaughtSoFar(cfg, fam, calls, u);
      CaughtOutput(cfg, fam, Run(cfg, START, calls[..u]), Sequences(calls[..u]));
    }
  }

  // ------------------------------------------------- destinations that may fail

  /** An assembler that has received nothing, in front of a destination that answers as the script says. */
  function Fresh(script: seq<Outcome>): State {
    Initial(Writer([], script))
  }

  /** The same state in front of a destination that accepts from now on. */
  function Plain(s: State): State {
    s.(writer := Writer(s.writer.contents, []))
  }

  ghost predicate AlwaysAccepts(script: seq<Outcome>) {
    forall i :: 0 <= i < |script| ==> script[i].Accept?
  }

  /** r went as q did, or its destination failed and holds a beginning of what q's destination holds. */
  ghost predicate Mirrors(s: State, r: Reply, q: Reply) {
    && (if r.error == Some(WriteFailed) then r.state.writer.contents <= q.state.writer.contents
        else r.error == q.error && Plain(r.state) == q.state)
    && s.writer.contents <= q.state.writer.contents && s.next <= q.state.next
    && (AlwaysAccepts(s.writer.script) ==> r.error != Some(WriteFailed) && AlwaysAccepts(r.state.writer.script))
  }

  lemma FlushMirrors(cfg: Config, s: State, c: Chunk)
    ensures Mirrors(s, Flush(cfg, s, c), Flush(cfg, Plain(s), c))
  {
  }

  lemma MirrorsOn(s: State, r: Reply, q: Reply, r': Reply, q': Reply)
    requires Mirrors(s, r, q) && r.error.None? && Mirrors(r.state, r', q')
    ensures Mirrors(s, r', q')
  {
  }

  lemma MirrorsFailed(s: State, r: Reply, q: Reply, q': Reply)
    requires Mirrors(s, r, q) && r.error == Some(WriteFailed)
    requires q.state.writer.contents <= q'.state.writer.contents && q.state.next <= q'.state.next
    ensures Mirrors(s, r, q')
  {
  }

  lemma {:induction false} DrainMirrors(cfg: Config, s: State)
    ensures Mirrors(s, Drain(cfg, s), Drain(cfg, Plain(s)))
    decreases |s.pending|
  {
    if s.next in s.pending {
      RemoveKeyShrinks(s.pending, s.next);
      var s1, c := s.(pending := s.pending - {s.next}), s.pending[s.next];
      var r, q := Flush(cfg, s1, c), Flush(cfg, Plain(s1), c);
      FlushMirrors(cfg, s1, c);
      if r.error.None? {
        DrainMirrors(cfg, r.state);
        MirrorsOn(s, r, q, Drain(cfg, r.state), Drain(cfg, q.state));
      } else if q.error.None? {
        DrainGrows(cfg, q.state);
        MirrorsFailed(s, r, q, Drain(cfg, q.state));
      }
    }
  }

  lemma DrainGrows(cfg: Config, s: State)
    requires s == Plain(s)
    ensures s.writer.contents <= Drain(cfg, s).state.writer.contents && s.next <= Drain(cfg, s).state.next
    decreases |s.pending|
  {
    if s.next in s.pending {
      RemoveKeyShrinks(s.pending, s.next);
      var r := Flush(cfg, s.(pending := s.pending - {s.next}), s.pending[s.next]);
      if r.error.None? {
        DrainGrows(cfg, r.state);
      }
    }
  }

  lemma StepMirrors(cfg: Config, s: State, c: Chunk)
    ensures Mirrors(s, Step(cfg, s, c), Step(cfg, Plain(s), c))
  {
    if PassesChecks(cfg, s, c) && c.sequence == s.next {
      var r, q := Flush(cfg, s, c), Flush(cfg, Plain(s), c);
      FlushMirrors(cfg, s, c);
      if r.error.None? {
        DrainMirrors(cfg, r.state);
        MirrorsOn(s, r, q, Drain(cfg, r.state), Drain(cfg, q.state));
      } else if q.error.None? {
        DrainGrows(cfg, q.state);
        MirrorsFailed(s, r, q, Drain(cfg, q.state));
      }
    }
  }

  lemma {:induction false} PassOnMirrors(cfg: Config, s: State, chunks: seq<Chunk>)
    ensures Mirrors(s, PassOn(cfg, s, chunks), PassOn(cfg, Plain(s), chunks))
    decreases |chunks|
  {
    if chunks != [] {
      var r, q := Step(cfg, s, chunks[0]), Step(cfg, Plain(s), chunks[0]);
      StepMirrors(cfg, s, chunks[0]);
      if r.error.None? && !IsLast(chunks[0]) {
        PassOnMirrors(cfg, r.state, chunks[1..]);
        MirrorsOn(s, r, q, PassOn(cfg, r.state, chunks[1..]), PassOn(cfg, q.state, chunks[1..]));
      } else if q.error.None? && !IsLast(chunks[0]) {
        StepMirrors(cfg, Plain(s), chunks[0]);
        PassOnMirrors(cfg, q.state, chunks[1..]);
        MirrorsFailed(s, r, q, PassOn(cfg, q.state, chunks[1..]));
      }
    }
  }

  /** How many payloads are written before the first failed write, and how much of the next one is taken. */
  function FirstFailure(ps: seq<Bytes>, script: seq<Outcome>): (f: (nat, nat))
    ensures f.0 <= |ps| && (f.0 < |ps| ==> f.1 <= |ps[f.0]|)
    decreases |ps|
  {
    if ps == [] then (0, 0)
    else if ps[0] != [] && script != [] && script[0].Fail? then (0, Min(script[0].partial, |ps[0]|))
    else
      var (at, taken) := FirstFailure(ps[1..], if ps[0] == [] || script == [] then script else script[1..]);
      (at + 1, taken)
  }

  /** The position of the first failure in a script, or its length. */
  function FirstFail(script: seq<Outcome>): (w: nat)
    ensures w <= |script| && (w < |script| ==> script[w].Fail?)
  {
    if script == [] || script[0].Fail? then 0 else 1 + FirstFail(script[1..])
  }

  /** When every payload is written, the position in the script is that of the payload. */
  lemma {:induction false} FirstFailureIs(ps: seq<Bytes>, script: seq<Outcome>)
    requires forall i :: 0 <= i < |ps| ==> ps[i] != []
    ensures var w := FirstFail(script);
            FirstFailure(ps, script)
            == if w < |ps| && w < |script| then (w, Min(script[w].partial, |ps[w]|)) else (|ps|, 0)
    decreases |ps|
  {
    if ps != [] && (script == [] || script[0].Accept?) {
      FirstFailureIs(ps[1..], if script == [] then script else script[1..]);
    }
  }

  // A run that ends with a failed write has not completed the stream.
  lemma {:induction false} DrainFailed(cfg: Config, fam: seq<Chunk>, s: State)
    requires IsStream(cfg, fam) && Written(cfg, fam, s) && Buffered(cfg, fam, s.pending, s.next)
    requires Drain(cfg, s).error == Some(WriteFailed)
    ensures !Drain(cfg, s).state.completed
    decreases |s.pending|
  {
    RemoveKeyShrinks(s.pending, s.next);
    var s1, c := s.(pending := s.pending - {s.next}), s.pending[s.next];
    FlushWritten(cfg, fam, s1, c);
    if Flush(cfg, s1, c).error.None? {
      DrainFailed(cfg, fam, Flush(cfg, s1, c).state);
    }
  }

  lemma StepFailed(cfg: Config, fam: seq<Chunk>, s: State, c: Chunk)
    requires IsStream(cfg, fam) && Sound(cfg, fam, s) && c in fam && Step(cfg, s, c).error == Some(WriteFailed)
    ensures !Step(cfg, s, c).state.completed
  {
    MemberFacts(cfg, fam, c);
    FlushWritten(cfg, fam, s, c);
    if Flush(cfg, s, c).error.None? {
      DrainFailed(cfg, fam, Flush(cfg, s, c).state);
    }
  }

  /** Counted bytes are the text below `next`; a failed write ends the run before the end of the stream. */
  ghost predicate SoundReply(cfg: Config, fam: seq<Chunk>, s: State, r: Reply)
    requires IsStream(cfg, fam)
  {
    && Sound(cfg, fam, r.state)
    && (r.error == Some(WriteFailed) ==> !r.state.completed)
    && (s.writer.contents == s.hashed && AllClean(s.writer.script) ==>
          r.state.writer.contents == r.state.hashed && AllClean(r.state.writer.script))
  }

  lemma StepSoundReply(cfg: Config, fam: seq<Chunk>, s: State, c: Chunk)
    requires IsStream(cfg, fam) && Sound(cfg, fam, s) && c in fam
    ensures SoundReply(cfg, fam, s, Step(cfg, s, c))
  {
    StepSound(cfg, fam, s, c);
    if Step(cfg, s, c).error == Some(WriteFailed) {
      StepFailed(cfg, fam, s, c);
    }
    if s.writer.contents == s.hashed && AllClean(s.writer.script) {
      var t := Step(cfg, s, c).state;
      StepOutput(cfg, s, c);
      CleanConcat(Consumed(s, t), t.writer.script);
    }
  }

  lemma {:induction false} PassOnSound(cfg: Config, fam: seq<Chunk>, s: State, calls: seq<Chunk>)
    requires IsStream(cfg, fam) && Sound(cfg, fam, s) && FromStream(fam, calls)
    ensures SoundReply(cfg, fam, s, PassOn(cfg, s, calls))
    decreases |calls|
  {
    if calls != [] {
      var r := Step(cfg, s, calls[0]);
      StepSoundReply(cfg, fam, s, calls[0]);
      if r.error.None? && !IsLast(calls[0]) {
        PassOnSound(cfg, fam, r.state, calls[1..]);
      }
    }
  }

  // ---------------------------------------------- which write fails, and when

  /** The failed write a reply tells of: the chunk still awaited and what the destination holds. */
  function ToldFailure(r: Reply): Option<(nat, Bytes)> {
    if r.error == Some(WriteFailed) then Some((r.state.next, r.state.writer.contents)) else None
  }

  /** The chunk whose write will be the first to fail, and how much of it will be taken. */
  ghost function Coming(cfg: Config, fam: seq<Chunk>, next: nat, script: seq<Outcome>): (c: (nat, nat))
    requires IsStream(cfg, fam) && next <= |fam|
    ensures next <= c.0 <= |fam| && (c.0 < |fam| ==> c.1 <= |Payloads(cfg, fam)[c.0]|)
  {
    var (n, taken) := FirstFailure(Payloads(cfg, fam)[next..], script);
    (next + n, taken)
  }

  /** The failed write that comes if the chunks of the stream below q are all to be written. */
  ghost function FailureBefore(cfg: Config, fam: seq<Chunk>, next: nat, script: seq<Outcome>, q: nat)
    : Option<(nat, Bytes)>
    requires IsStream(cfg, fam) && next <= |fam| && q <= |fam|
  {
    var (at, taken) := Coming(cfg, fam, next, script);
    if at < q then Some((at, Text(cfg, fam, at) + Payloads(cfg, fam)[at][..taken])) else None
  }

  /** Nothing but chunks of the stream has come and no write has failed. */
  ghost predicate OnCourse(cfg: Config, fam: seq<Chunk>, s: State)
    requires IsStream(cfg, fam)
  {
    HasOutput(cfg, fam, s) && forall k :: k in s.pending ==> s.next <= k < |fam| && s.pending[k] == fam[k]
  }

  /** r fails at the write that had to fail on the way to q, or gets to q. */
  ghost predicate FailsAsMust(cfg: Config, fam: seq<Chunk>, s: State, r: Reply, q: nat)
    requires IsStream(cfg, fam) && s.next <= |fam| && q <= |fam|
  {
    && ToldFailure(r) == FailureBefore(cfg, fam, s.next, s.writer.script, q)
    && (r.error != Some(WriteFailed) ==>
          && OnCourse(cfg, fam, r.state) && r.state.next == q
          && Coming(cfg, fam, q, r.state.writer.script) == Coming(cfg, fam, s.next, s.writer.script))
  }

  /** What the answer to the next payload says about the failure to come. */
  lemma ComingNext(cfg: Config, fam: seq<Chunk>, next: nat, script: seq<Outcome>)
    requires IsStream(cfg, fam) && next < |fam|
    ensures var p, later := Payloads(cfg, fam)[next], if script == [] then [] else script[1..];
            var (at, taken) := Coming(cfg, fam, next, script);
            if p != [] && script != [] && script[0].Fail? then (at, taken) == (next, Min(script[0].partial, |p|))
            else at > next && Coming(cfg, fam, next + 1, if p == [] then script else later) == (at, taken)
  {
    var ps := Payloads(cfg, fam)[next..];
    assert ps[0] == Payloads(cfg, fam)[next] && ps[1..] == Payloads(cfg, fam)[next + 1..];
  }

  lemma FlushRefused(cfg: Config, fam: seq<Chunk>, s: State)
    requires IsStream(cfg, fam) && s.next < |fam| && OnCourse(cfg, fam, s)
    requires Payloads(cfg, fam)[s.next] != [] && !s.writer.Accepts()
    ensures var r := Flush(cfg, s, fam[s.next]);
            r.error == Some(WriteFailed) && FailsAsMust(cfg, fam, s, r, s.next + 1) && r.state.pending == s.pending
  {
    ComingNext(cfg, fam, s.next, s.writer.script);
    assert IsStreamChunk(cfg, fam[s.next], s.next, |fam|);
  }

  lemma FlushAccepted(cfg: Config, fam: seq<Chunk>, s: State)
    requires IsStream(cfg, fam) && s.next < |fam| && OnCourse(cfg, fam, s) && s.next !in s.pending
    requires Payloads(cfg, fam)[s.next] == [] || s.writer.Accepts()
    ensures var r := Flush(cfg, s, fam[s.next]);
            r.error == None && FailsAsMust(cfg, fam, s, r, s.next + 1) && r.state.pending == s.pending
  {
    TextStep(cfg, fam, s.next);
    assert IsStreamChunk(cfg, fam[s.next], s.next, |fam|);
    ComingNext(cfg, fam, s.next, s.writer.script);
  }

  /** The next chunk is written, or its write is the failing one; before a destination that accepts, it is written. */
  lemma FlushFails(cfg: Config, fam: seq<Chunk>, s: State)
    requires IsStream(cfg, fam) && s.next < |fam| && OnCourse(cfg, fam, s) && s.next !in s.pending
    ensures var r := Flush(cfg, s, fam[s.next]);
            && FailsAsMust(cfg, fam, s, r, s.next + 1) && r.state.pending == s.pending
            && (r.error == None || r.error == Some(WriteFailed)) && (s == Plain(s) ==> r.error == None)
  {
    if Payloads(cfg, fam)[s.next] != [] && !s.writer.Accepts() {
      FlushRefused(cfg, fam, s);
    } else {
      FlushAccepted(cfg, fam, s);
    }
  }

  /** A call and the same call before a destination that accepts: both get to q, or the first one fails on the way. */
  ghost predicate Abreast(cfg: Config, fam: seq<Chunk>, s: State, r: Reply, p: Reply)
    requires IsStream(cfg, fam) && s.next <= |fam|
  {
    && s.next <= p.state.next <= |fam| && OnCourse(cfg, fam, p.state) && p.state == Plain(p.state)
    && FailsAsMust(cfg, fam, s, r, p.state.next)
    && p.error != Some(WriteFailed)
    && (r.error != Some(WriteFailed) ==> r.error == p.error && Plain(r.state) == p.state)
  }

  lemma FlushAbreast(cfg: Config, fam: seq<Chunk>, s: State)
    requires IsStream(cfg, fam) && s.next < |fam| && OnCourse(cfg, fam, s) && s.next !in s.pending
    ensures var r, p := Flush(cfg, s, fam[s.next]), Flush(cfg, Plain(s), fam[s.next]);
            Abreast(cfg, fam, s, r, p) && p.error == None && r.state.pending == p.state.pending == s.pending
  {
    FlushFails(cfg, fam, s);
    FlushFails(cfg, fam, Plain(s));
    FlushMirrors(cfg, s, fam[s.next]);
  }

  /** First r and p, then r' and p' from where r got to, or p alone if r failed. */
  lemma AbreastOn(cfg: Config, fam: seq<Chunk>, s: State, r: Reply, p: Reply, t: State, r': Reply, p': Reply)
    requires IsStream(cfg, fam) && s.next <= |fam| && Abreast(cfg, fam, s, r, p) && p.error == None
    requires t == (if r.error.None? then r.state else p.state) && Abreast(cfg, fam, t, r', p')
    ensures Abreast(cfg, fam, s, if r.error.None? then r' else r, p')
  {
  }

  lemma DrainOnce(cfg: Config, fam: seq<Chunk>, s: State) returns (r: Reply, p: Reply)
    requires IsStream(cfg, fam) && OnCourse(cfg, fam, s) && s.next in s.pending
    ensures Abreast(cfg, fam, s, r, p) && p.error == None
    ensures |r.state.pending| < |s.pending| && |p.state.pending| < |s.pending|
    ensures Drain(cfg, s) == if r.error.None? then Drain(cfg, r.state) else r
    ensures Drain(cfg, Plain(s)) == Drain(cfg, p.state)
  {
    RemoveKeyShrinks(s.pending, s.next);
    var s1 := s.(pending := s.pending - {s.next});
    r, p := Flush(cfg, s1, fam[s.next]), Flush(cfg, Plain(s1), fam[s.next]);
    FlushAbreast(cfg, fam, s1);
    AbreastOfOther(cfg, fam, s, s1, r, p);
  }

  lemma AbreastOfOther(cfg: Config, fam: seq<Chunk>, s: State, s1: State, r: Reply, p: Reply)
    requires IsStream(cfg, fam) && s.next == s1.next <= |fam| && s.writer == s1.writer && Abreast(cfg, fam, s1, r, p)
    ensures Abreast(cfg, fam, s, r, p)
  {
  }

  /** The drain loop gets as far as it would before a destination that accepts, or fails on the way. */
  lemma {:induction false} DrainAbreast(cfg: Config, fam: seq<Chunk>, s: State)
    requires IsStream(cfg, fam) && OnCourse(cfg, fam, s)
    ensures Abreast(cfg, fam, s, Drain(cfg, s), Drain(cfg, Plain(s)))
    decreases |s.pending|
  {
    if s.next in s.pending {
      var r, p := DrainOnce(cfg, fam, s);
      var t := if r.error.None? then r.state else p.state;
      DrainAbreast(cfg, fam, t);
      AbreastOn(cfg, fam, s, r, p, t, Drain(cfg, t), Drain(cfg, p.state));
    }
  }

  lemma {:induction false} DrainStops(cfg: Config, s: State)
    ensures Drain(cfg, s).error.None? ==> Drain(cfg, s).state.next !in Drain(cfg, s).state.pending
    decreases |s.pending|
  {
    if s.next in s.pending {
      RemoveKeyShrinks(s.pending, s.next);
      var r := Flush(cfg, s.(pending := s.pending - {s.next}), s.pending[s.next]);
      if r.error.None? {
        DrainStops(cfg, r.state);
      }
    }
  }

  lemma StepOnce(cfg: Config, fam: seq<Chunk>, s: State) returns (r: Reply, p: Reply)
    requires IsStream(cfg, fam) && OnCourse(cfg, fam, s) && s.next < |fam| && s.next !in s.pending
    ensures Abreast(cfg, fam, s, r, p) && p.error == None
    ensures Step(cfg, s, fam[s.next]) == if r.error.None? then Drain(cfg, r.state) else r
    ensures Step(cfg, Plain(s), fam[s.next]) == Drain(cfg, p.state)
  {
    assert IsStreamChunk(cfg, fam[s.next], s.next, |fam|);
    r, p := Flush(cfg, s, fam[s.next]), Flush(cfg, Plain(s), fam[s.next]);
    FlushAbreast(cfg, fam, s);
  }

  /** The awaited chunk. */
  lemma StepDrains(cfg: Config, fam: seq<Chunk>, s: State)
    requires IsStream(cfg, fam) && OnCourse(cfg, fam, s) && s.next < |fam| && s.next !in s.pending
    ensures var r := Step(cfg, s, fam[s.next]);
            Abreast(cfg, fam, s, r, Step(cfg, Plain(s), fam[s.next]))
            && (r.error.None? ==> r.state.next !in r.state.pending)
  {
    var r, p := StepOnce(cfg, fam, s);
    var t := if r.error.None? then r.state else p.state;
    DrainAbreast(cfg, fam, t);
    AbreastOn(cfg, fam, s, r, p, t, Drain(cfg, t), Drain(cfg, p.state));
    DrainStops(cfg, r.state);
  }

  /** A call that writes nothing. */
  lemma Unmoved(cfg: Config, fam: seq<Chunk>, s: State, r: Reply)
    requires IsStream(cfg, fam) && OnCourse(cfg, fam, s) && OnCourse(cfg, fam, r.state)
    requires r.state.(pending := s.pending) == s && r.error != Some(WriteFailed)
    ensures Abreast(cfg, fam, s, r, Reply(Plain(r.state), r.error))
  {
  }

  lemma StepAbreast(cfg: Config, fam: seq<Chunk>, s: State, c: Chunk)
    requires IsStream(cfg, fam) && OnCourse(cfg, fam, s) && s.next !in s.pending && c in fam
    ensures Abreast(cfg, fam, s, Step(cfg, s, c), Step(cfg, Plain(s), c))
    ensures Step(cfg, s, c).error.None? ==> Step(cfg, s, c).state.next !in Step(cfg, s, c).state.pending
  {
    MemberFacts(cfg, fam, c);
    if c.sequence == s.next {
      StepDrains(cfg, fam, s);
    } else {
      Unmoved(cfg, fam, s, Step(cfg, s, c));
    }
  }

  lemma PassOnOnce(cfg: Config, fam: seq<Chunk>, s: State, calls: seq<Chunk>)
    returns (r: Reply, p: Reply)
    requires IsStream(cfg, fam) && OnCourse(cfg, fam, s) && s.next !in s.pending
    requires FromStream(fam, calls) && calls != []
    ensures Abreast(cfg, fam, s, r, p)
    ensures r.error.None? ==> r.state.next !in r.state.pending
    ensures p.error.None? ==> p.state.next !in p.state.pending
    ensures PassOn(cfg, s, calls)
         == if r.error.Some? || IsLast(calls[0]) then r else PassOn(cfg, r.state, calls[1..])
    ensures PassOn(cfg, Plain(s), calls)
         == if p.error.Some? || IsLast(calls[0]) then p else PassOn(cfg, p.state, calls[1..])
  {
    r, p := Step(cfg, s, calls[0]), Step(cfg, Plain(s), calls[0]);
    StepAbreast(cfg, fam, s, calls[0]);
    StepAbreast(cfg, fam, Plain(s), calls[0]);
  }

  /** Over any deliveries: the first failing write is met exactly if an accepting destination would get beyond it. */
  lemma {:induction false} PassOnAbreast(cfg: Config, fam: seq<Chunk>, s: State, calls: seq<Chunk>)
    requires IsStream(cfg, fam) && OnCourse(cfg, fam, s) && s.next !in s.pending && FromStream(fam, calls)
    ensures Abreast(cfg, fam, s, PassOn(cfg, s, calls), PassOn(cfg, Plain(s), calls))
    decreases |calls|
  {
    if calls != [] {
      var r, p := PassOnOnce(cfg, fam, s, calls);
      if p.error.None? && !IsLast(calls[0]) {
        var t := if r.error.None? then r.state else p.state;
        PassOnAbreast(cfg, fam, t, calls[1..]);
        AbreastOn(cfg, fam, s, r, p, t, PassOn(cfg, t, calls[1..]), PassOn(cfg, p.state, calls[1..]));
      }
    }
  }

  lemma FreshIsSound(cfg: Config, fam: seq<Chunk>, script: seq<Outcome>)
    requires IsStream(cfg, fam)
    ensures Sound(cfg, fam, Fresh(script)) && OnCourse(cfg, fam, Fresh(script)) && Plain(Fresh(script)) == START
  {
    assert Text(cfg, fam, 0) == [];
  }

  /**
   * Chunks of one stream in any order, with any losses and repetitions, the last-flagged one coming first
   * at position t, in front of any destination. Unless a write fails, the loop succeeds exactly when no
   * delivery up to then overflows the buffer. Success means a complete stream exactly when every chunk was
   * among those deliveries; what came later is not read. The destination always holds a beginning of the
   * stream, and whole payloads if its failures take nothing. The failing write is the first one, in the order
   * of the stream, that a destination accepting everything would also have been asked for.
   */
  lemma SuccessMeansComplete(cfg: Config, fam: seq<Chunk>, script: seq<Outcome>, calls: seq<Chunk>, t: nat)
    requires IsStream(cfg, fam) && FromStream(fam, calls) && IsFirstLast(calls, t)
    ensures var r := PassOn(cfg, Fresh(script), calls);
            && (r.error == None <==> NoOverflow(cfg, calls, t + 1) && r.error != Some(WriteFailed))
            && (AlwaysAccepts(script) ==> r.error != Some(WriteFailed))
            && PassOn(cfg, START, calls).state.next <= |fam|
            && ToldFailure(r) == FailureBefore(cfg, fam, 0, script, PassOn(cfg, START, calls).state.next)
            && (r.error == None ==> (r.state.completed <==> Sequences(calls[..t + 1]) == Range(0, |fam|)))
            && r.state.writer.contents <= Whole(cfg, fam)
            && r.state.next <= |fam|
            && (AllClean(script) ==> r.state.writer.contents == Text(cfg, fam, r.state.next))
            && (r.state.completed ==> r.error == None && r.state.writer.contents == Whole(cfg, fam))
  {
    FreshIsSound(cfg, fam, script);
    SuccessOnReliable(cfg, fam, calls, t);
    PassOnMirrors(cfg, Fresh(script), calls);
    PassOnSound(cfg, fam, Fresh(script), calls);
    PassOnAbreast(cfg, fam, Fresh(script), calls);
  }

  lemma NoLastOnReliable(cfg: Config, fam: seq<Chunk>, calls: seq<Chunk>)
    requires IsStream(cfg, fam) && FromStream(fam, calls) && NoLastBefore(calls, |calls|)
    ensures var r := PassOn(cfg, START, calls);
            r.error == if NoOverflow(cfg, calls, |calls|) then Some(StreamIncomplete) else Some(ReorderBufferFull)
  {
    var n := |calls|;
    if NoOverflow(cfg, calls, n) {
      assert calls[..0] == [] && calls[0..] == calls;
      PassOnFrom(cfg, fam, calls, 0, n);
      CaughtSoFar(cfg, fam, calls, n);
      assert calls[n..] == [];
    } else {
      var u := FirstOverflow(cfg, calls, n);
      PassOnStops(cfg, fam, calls, u);
    }
  }

  /** Without a last-flagged chunk the loop never reports success. */
  lemma NoLastNoSuccess(cfg: Config, fam: seq<Chunk>, script: seq<Outcome>, calls: seq<Chunk>)
    requires IsStream(cfg, fam) && FromStream(fam, calls) && NoLastBefore(calls, |calls|)
    ensures var r := PassOn(cfg, Fresh(script), calls);
            && (AlwaysAccepts(script) ==> r.error != Some(WriteFailed))
            && (r.error != Some(WriteFailed) ==>
                  r.error == if NoOverflow(cfg, calls, |calls|) then Some(StreamIncomplete)
                             else Some(ReorderBufferFull))
  {
    FreshIsSound(cfg, fam, script);
    NoLastOnReliable(cfg, fam, calls);
    PassOnMirrors(cfg, Fresh(script), calls);
  }

  // --------------------------------------------------------------- witnesses

  const PLAIN: Config := Config([], false, 2, None, NO_SHA)

  function PlainChunk(i: byte, last: bool): Chunk {
    Chunk([], i, i, 3, 3, [i], 0, [], CHECKSUM_NONE, if last then FLAG_IS_LAST else 0, map[])
  }

  const THREE: seq<Chunk> := [PlainChunk(0, false), PlainChunk(1, false), PlainChunk(2, true)]

  lemma ThreeIsStream()
    ensures IsStream(PLAIN, THREE) && Whole(PLAIN, THREE) == [0, 1, 2]
  {
    var ps := Payloads(PLAIN, THREE);
    assert ps == [[0], [1], [2]];
    FlattenCons([0], [[1], [2]]);
    FlattenCons([1], [[2]]);
    FlattenCons([2], []);
    assert [[0]] + [[1], [2]] == ps && [[1]] + [[2]] == [[1], [2]] && [[2]] + [] == [[2]];
    assert Flatten([]) == [];
  }

  /** With room for one chunk, chunk 1 comes before chunk 0 and is then sent again: it is refused though it is held. */
  lemma HeldChunkRefused(cfg: Config)
    requires cfg == Config([], false, 1, None, NO_SHA)
    ensures var s := Run(cfg, START, [THREE[1]]);
            && s.pending == map[1 := THREE[1]]
            && Step(cfg, s, THREE[1]) == Reply(s, Some(ReorderBufferFull))
  {
    assert [THREE[1]][..0] == [];
    assert Run(cfg, START, [THREE[1]]) == Step(cfg, START, THREE[1]).state;
    assert map[][1 := THREE[1]] == map[1 := THREE[1]];
  }

  /** Chunk 1 is lost; the last-flagged chunk does come last, the loop succeeds, and the stream is not complete. */
  lemma LossGoesUnnoticed()
    ensures IsStream(PLAIN, THREE) && Whole(PLAIN, THREE) == [0, 1, 2]
    ensures var r := PassOn(PLAIN, START, [THREE[0], THREE[2]]);
            r.error == None && !r.state.completed && r.state.writer.contents == [0]
  {
    ThreeIsStream();
    var s1 := Step(PLAIN, START, THREE[0]).state;
    assert s1.writer.contents == [0] && s1.next == 1 && s1.pending == map[];
    assert [THREE[0], THREE[2]][1..] == [THREE[2]];
  }

  /** Nothing is lost, but the last-flagged chunk overtakes another: the loop succeeds without reading that one. */
  lemma OvertakingGoesUnnoticed()
    ensures var r := PassOn(PLAIN, START, [THREE[0], THREE[2], THREE[1]]);
            r.error == None && !r.state.completed && r.state.writer.contents == [0]
  {
    var s1 := Step(PLAIN, START, THREE[0]).state;
    assert s1.writer.contents == [0] && s1.next == 1 && s1.pending == map[];
    assert [THREE[0], THREE[2], THREE[1]][1..] == [THREE[2], THREE[1]];
  }
}
