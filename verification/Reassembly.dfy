/** What reassembly guarantees over whole runs, whatever order the chunks arrive in. */
module Reassembly {
  import opened Basics
  import opened Core
  import opened AssemblerModel

  // ------------------------------------------------------------- the stream

  /** The chunks of one stream, as its receiver is configured to accept them. */
  ghost predicate IsStream(cfg: Config, fam: seq<Chunk>) {
    && |fam| > 0
    && forall i :: 0 <= i < |fam| ==> IsStreamChunk(cfg, fam[i], i, |fam|)
  }

  ghost predicate IsStreamChunk(cfg: Config, c: Chunk, i: nat, n: nat) {
    && c.sequence == i
    && SessionMatches(cfg, c)
    && ChecksumMatches(cfg, c)
    && Payload(cfg, c).0.Some?
    && (IsLast(c) <==> i == n - 1)
  }

  ghost function Payloads(cfg: Config, fam: seq<Chunk>): (ps: seq<Bytes>)
    requires IsStream(cfg, fam)
    ensures |ps| == |fam|
  {
    seq(|fam|, i requires 0 <= i < |fam| => Payload(cfg, fam[i]).0.value)
  }

  /** The concatenated payloads of the first k chunks. */
  ghost function Text(cfg: Config, fam: seq<Chunk>, k: nat): Bytes
    requires IsStream(cfg, fam) && k <= |fam|
  {
    Flatten(Payloads(cfg, fam)[..k])
  }

  ghost function Whole(cfg: Config, fam: seq<Chunk>): Bytes
    requires IsStream(cfg, fam)
  {
    Flatten(Payloads(cfg, fam))
  }

  lemma TextStep(cfg: Config, fam: seq<Chunk>, k: nat)
    requires IsStream(cfg, fam) && k < |fam|
    ensures Text(cfg, fam, k + 1) == Text(cfg, fam, k) + Payload(cfg, fam[k]).0.value
  {
    FlattenStep(Payloads(cfg, fam), k);
  }

  lemma TextIsPrefix(cfg: Config, fam: seq<Chunk>, k: nat)
    requires IsStream(cfg, fam) && k <= |fam|
    ensures Text(cfg, fam, k) <= Whole(cfg, fam)
    ensures k == |fam| ==> Text(cfg, fam, k) == Whole(cfg, fam)
  {
    FlattenPrefix(Payloads(cfg, fam), k);
    if k == |fam| {
      assert Payloads(cfg, fam)[..k] == Payloads(cfg, fam);
    }
  }

  // ------------------------------------------------- the accepted-set reading

  ghost predicate HasOutput(cfg: Config, fam: seq<Chunk>, s: State)
    requires IsStream(cfg, fam)
  {
    && s.next <= |fam|
    && s.hashed == Text(cfg, fam, s.next)
    && s.writer.contents == s.hashed
    && s.total == |s.hashed|
    && (s.completed <==> s.next == |fam|)
  }

  /** Between two flushes of a drain: everything accepted is either written or buffered. */
  ghost predicate Draining(cfg: Config, fam: seq<Chunk>, s: State, accepted: set<int>)
    requires IsStream(cfg, fam)
  {
    && HasOutput(cfg, fam, s)
    && (forall i :: i in accepted ==> 0 <= i < |fam|)
    && (forall i :: 0 <= i < s.next ==> i in accepted)
    && (forall k :: k in s.pending <==> k in accepted && k >= s.next)
    && (forall k :: k in s.pending ==> s.pending[k] == fam[k])
  }

  /**
   * The state is the one the accepted set calls for: `next` is the least sequence not accepted, the
   * buffer holds exactly the accepted chunks above it and the output is the text below it.
   */
  ghost predicate Represents(cfg: Config, fam: seq<Chunk>, s: State, accepted: set<int>)
    requires IsStream(cfg, fam)
  {
    Draining(cfg, fam, s, accepted) && s.next !in accepted
  }

  lemma LeastUnique(a: nat, b: nat, accepted: set<int>)
    requires a !in accepted && forall i :: 0 <= i < a ==> i in accepted
    requires b !in accepted && forall i :: 0 <= i < b ==> i in accepted
    ensures a == b
  {
  }

  lemma RepresentsDetermines(cfg: Config, fam: seq<Chunk>, s: State, t: State, accepted: set<int>)
    requires IsStream(cfg, fam)
    requires Represents(cfg, fam, s, accepted) && Represents(cfg, fam, t, accepted)
    requires s.writer.script == t.writer.script
    ensures s == t
  {
    LeastUnique(s.next, t.next, accepted);
    forall k
      ensures k in s.pending <==> k in t.pending
      ensures k in s.pending ==> s.pending[k] == t.pending[k]
    {
    }
    assert s.pending == t.pending;
  }

  lemma FlushMember(cfg: Config, fam: seq<Chunk>, s: State)
    requires IsStream(cfg, fam) && HasOutput(cfg, fam, s) && s.next < |fam|
    requires s.writer.script == []
    ensures var r := Flush(cfg, s, fam[s.next]);
            && r.error.None? && HasOutput(cfg, fam, r.state)
            && r.state.next == s.next + 1 && r.state.pending == s.pending && r.state.writer.script == []
  {
    TextStep(cfg, fam, s.next);
    assert IsStreamChunk(cfg, fam[s.next], s.next, |fam|);
  }

  lemma {:induction false} DrainRepresents(cfg: Config, fam: seq<Chunk>, s: State, accepted: set<int>)
    requires IsStream(cfg, fam) && Draining(cfg, fam, s, accepted) && s.writer.script == []
    ensures var r := Drain(cfg, s);
            r.error.None? && Represents(cfg, fam, r.state, accepted) && r.state.writer.script == []
    decreases |s.pending|
  {
    if s.next in s.pending {
      var s1 := s.(pending := s.pending - {s.next});
      RemoveKeyShrinks(s.pending, s.next);
      FlushMember(cfg, fam, s1);
      DrainRepresents(cfg, fam, Flush(cfg, s1, fam[s.next]).state, accepted);
    }
  }

  ghost function Accept(accepted: set<int>, c: Chunk, r: Reply): set<int> {
    if r.error.None? then accepted + {c.sequence} else accepted
  }

  lemma MemberFacts(cfg: Config, fam: seq<Chunk>, c: Chunk)
    requires IsStream(cfg, fam) && c in fam
    ensures 0 <= c.sequence < |fam| && fam[c.sequence] == c && IsStreamChunk(cfg, c, c.sequence, |fam|)
  {
    var i :| 0 <= i < |fam| && fam[i] == c;
    assert IsStreamChunk(cfg, fam[i], i, |fam|);
  }

  lemma StepFlushes(cfg: Config, fam: seq<Chunk>, s: State, accepted: set<int>)
    requires IsStream(cfg, fam) && Represents(cfg, fam, s, accepted) && s.writer.script == []
    requires !s.completed
    ensures var r := Step(cfg, s, fam[s.next]);
            && r.error.None? && r.state.writer.script == []
            && Represents(cfg, fam, r.state, accepted + {s.next})
  {
    var c := fam[s.next];
    assert IsStreamChunk(cfg, c, s.next, |fam|);
    FlushMember(cfg, fam, s);
    DrainRepresents(cfg, fam, Flush(cfg, s, c).state, accepted + {s.next});
  }

  lemma StepRepresents(cfg: Config, fam: seq<Chunk>, s: State, accepted: set<int>, c: Chunk)
    requires IsStream(cfg, fam) && Represents(cfg, fam, s, accepted) && s.writer.script == []
    requires c in fam
    ensures var r := Step(cfg, s, c);
            Represents(cfg, fam, r.state, Accept(accepted, c, r)) && r.state.writer.script == []
    ensures var r := Step(cfg, s, c);
            r.error == if s.completed then Some(StreamCompleted)
                       else if c.sequence > s.next && |s.pending| >= cfg.maxReorder then Some(ReorderBufferFull)
                       else None
  {
    MemberFacts(cfg, fam, c);
    if !s.completed && c.sequence == s.next {
      StepFlushes(cfg, fam, s, accepted);
    } else if !s.completed && c.sequence > s.next && |s.pending| < cfg.maxReorder {
      assert Represents(cfg, fam, s.(pending := s.pending[c.sequence := c]), accepted + {c.sequence});
    } else if c.sequence < s.next {
      assert accepted + {c.sequence} == accepted;
    }
  }

  // --------------------------------------------------------------- whole runs

  /** The state after a list of calls. */
  ghost function Run(cfg: Config, s: State, calls: seq<Chunk>): State {
    if calls == [] then s
    else Step(cfg, Run(cfg, s, calls[..|calls| - 1]), calls[|calls| - 1]).state
  }

  /** What the t-th call answered. */
  ghost function Answer(cfg: Config, s: State, calls: seq<Chunk>, t: nat): Option<Error>
    requires t < |calls|
  {
    Step(cfg, Run(cfg, s, calls[..t]), calls[t]).error
  }

  /** The sequence numbers whose delivery was answered without an error at least once. */
  ghost function Accepted(cfg: Config, s: State, calls: seq<Chunk>): set<int> {
    if calls == [] then {}
    else
      var before := calls[..|calls| - 1];
      var c := calls[|calls| - 1];
      Accept(Accepted(cfg, s, before), c, Step(cfg, Run(cfg, s, before), c))
  }

  /** A destination that never fails. */
  const START: State := Initial(Writer([], []))

  /** The assembler refines "the set of sequence numbers accepted so far". */
  lemma {:induction false} RunRepresents(cfg: Config, fam: seq<Chunk>, calls: seq<Chunk>)
    requires IsStream(cfg, fam) && forall c :: c in calls ==> c in fam
    ensures Represents(cfg, fam, Run(cfg, START, calls), Accepted(cfg, START, calls))
    ensures Run(cfg, START, calls).writer.script == []
    decreases |calls|
  {
    if calls == [] {
      assert Text(cfg, fam, 0) == [];
    } else {
      var before := calls[..|calls| - 1];
      RunRepresents(cfg, fam, before);
      StepRepresents(cfg, fam, Run(cfg, START, before), Accepted(cfg, START, before), calls[|calls| - 1]);
    }
  }

  /** Two runs that accepted the same chunks, in any orders and with any repetitions, end in the same state. */
  lemma OrderIndependence(cfg: Config, fam: seq<Chunk>, a: seq<Chunk>, b: seq<Chunk>)
    requires IsStream(cfg, fam) && (forall c :: c in a ==> c in fam) && (forall c :: c in b ==> c in fam)
    requires Accepted(cfg, START, a) == Accepted(cfg, START, b)
    ensures Run(cfg, START, a) == Run(cfg, START, b)
  {
    RunRepresents(cfg, fam, a);
    RunRepresents(cfg, fam, b);
    RepresentsDetermines(cfg, fam, Run(cfg, START, a), Run(cfg, START, b), Accepted(cfg, START, a));
  }

  lemma LeastMissingIsBound(next: nat, n: nat, accepted: set<int>)
    requires next <= n && next !in accepted
    requires (forall i :: i in accepted ==> 0 <= i < n) && (forall i :: 0 <= i < next ==> i in accepted)
    ensures accepted == Range(0, n) <==> next == n
  {
    assert next < n ==> next in Range(0, n);
  }

  lemma CompletedIffAllAccepted(cfg: Config, fam: seq<Chunk>, s: State, accepted: set<int>)
    requires IsStream(cfg, fam) && Represents(cfg, fam, s, accepted)
    ensures s.completed <==> accepted == Range(0, |fam|)
    ensures s.completed ==> s.pending == map[]
  {
    LeastMissingIsBound(s.next, |fam|, accepted);
    if s.completed {
      assert forall k :: k !in s.pending;
    }
  }

  /**
   * Any order, any repetition: the stream is completed exactly when every sequence was accepted once,
   * then the output is the whole text, and until then it is a prefix of it.
   */
  lemma AnyOrderDelivers(cfg: Config, fam: seq<Chunk>, calls: seq<Chunk>)
    requires IsStream(cfg, fam) && forall c :: c in calls ==> c in fam
    ensures var s := Run(cfg, START, calls);
            && s.writer.contents <= Whole(cfg, fam)
            && (s.completed <==> Accepted(cfg, START, calls) == Range(0, |fam|))
            && (s.completed ==> s.writer.contents == Whole(cfg, fam) && s.pending == map[])
            && s.total == |s.writer.contents| && s.hashed == s.writer.contents
  {
    RunRepresents(cfg, fam, calls);
    var s := Run(cfg, START, calls);
    TextIsPrefix(cfg, fam, s.next);
    CompletedIffAllAccepted(cfg, fam, s, Accepted(cfg, START, calls));
  }

  // ----------------------------------------------------------- buffer capacity

  /** Accepted chunks are those written and those buffered, and no chunk is both. */
  lemma AcceptedSize(cfg: Config, fam: seq<Chunk>, s: State, accepted: set<int>)
    requires IsStream(cfg, fam) && Represents(cfg, fam, s, accepted)
    ensures |accepted| == s.next + |s.pending|
  {
    DisjointSizes(s.next, accepted, s.pending.Keys);
    assert |s.pending.Keys| == |s.pending|;
  }

  lemma DisjointSizes(next: nat, accepted: set<int>, above: set<int>)
    requires forall i :: i in accepted ==> i >= 0
    requires forall i :: 0 <= i < next ==> i in accepted
    requires forall k :: k in above <==> k in accepted && k >= next
    ensures |accepted| == next + |above|
  {
    assert accepted == Range(0, next) + above;
    assert Range(0, next) !! above;
  }

  ghost function Sequences(calls: seq<Chunk>): set<int> {
    set t | 0 <= t < |calls| :: calls[t].sequence
  }

  lemma SequencesStep(calls: seq<Chunk>)
    requires calls != []
    ensures Sequences(calls) == Sequences(calls[..|calls| - 1]) + {calls[|calls| - 1].sequence}
  {
    var n := |calls| - 1;
    forall x | x in Sequences(calls)
      ensures x in Sequences(calls[..n]) + {calls[n].sequence}
    {
      var t :| 0 <= t < |calls| && calls[t].sequence == x;
      if t < n {
        assert calls[..n][t].sequence == x;
      }
    }
    forall x | x in Sequences(calls[..n])
      ensures x in Sequences(calls)
    {
      var t :| 0 <= t < n && calls[..n][t].sequence == x;
      assert calls[t].sequence == x;
    }
  }

  /** A buffer with room for all chunks but one never loses a delivery: what it refuses it already has. */
  lemma {:induction false} AmpleBufferAcceptsAll(cfg: Config, fam: seq<Chunk>, calls: seq<Chunk>)
    requires IsStream(cfg, fam) && forall c :: c in calls ==> c in fam
    requires cfg.maxReorder >= |fam| - 1
    ensures Accepted(cfg, START, calls) == Sequences(calls)
    decreases |calls|
  {
    if calls != [] {
      var before, c := calls[..|calls| - 1], calls[|calls| - 1];
      AmpleBufferAcceptsAll(cfg, fam, before);
      RunRepresents(cfg, fam, before);
      SequencesStep(calls);
      var s, accepted := Run(cfg, START, before), Accepted(cfg, START, before);
      StepRepresents(cfg, fam, s, accepted, c);
      MemberFacts(cfg, fam, c);
      if Step(cfg, s, c).error.Some? && !s.completed {
        FullBufferHoldsAll(cfg, fam, s, accepted, c.sequence);
      }
    }
  }

  lemma FullBufferHoldsAll(cfg: Config, fam: seq<Chunk>, s: State, accepted: set<int>, i: int)
    requires IsStream(cfg, fam) && Represents(cfg, fam, s, accepted)
    requires |s.pending| >= |fam| - 1 && s.next < i < |fam|
    ensures i in accepted
  {
    if i !in accepted {
      assert forall k :: k in s.pending ==> s.next < k < |fam| && k != i;
      assert |s.pending.Keys| == |s.pending|;
      HolesCost(s.pending.Keys, s.next + 1, |fam|, i);
    }
  }

  lemma HolesCost(keys: set<int>, lo: int, hi: int, hole: int)
    requires lo <= hole < hi && forall k :: k in keys ==> lo <= k < hi && k != hole
    ensures |keys| < hi - lo
  {
    assert keys <= Range(lo, hi) - {hole};
    SubsetSize(keys, Range(lo, hi) - {hole});
  }

  /** With such a buffer the stream completes exactly when every chunk was delivered at least once. */
  lemma AmpleBufferCompletes(cfg: Config, fam: seq<Chunk>, calls: seq<Chunk>)
    requires IsStream(cfg, fam) && forall c :: c in calls ==> c in fam
    requires cfg.maxReorder >= |fam| - 1
    ensures Run(cfg, START, calls).completed <==> forall c :: c in fam ==> c in calls
  {
    AmpleBufferAcceptsAll(cfg, fam, calls);
    RunRepresents(cfg, fam, calls);
    CompletedIffAllAccepted(cfg, fam, Run(cfg, START, calls), Sequences(calls));
    AllSequencesIffAllChunks(cfg, fam, calls);
  }

  lemma AllSequencesIffAllChunks(cfg: Config, fam: seq<Chunk>, calls: seq<Chunk>)
    requires IsStream(cfg, fam) && forall c :: c in calls ==> c in fam
    ensures Sequences(calls) == Range(0, |fam|) <==> forall c :: c in fam ==> c in calls
  {
    if forall c :: c in fam ==> c in calls {
      AllChunksAllSequences(cfg, fam, calls);
    }
    if Sequences(calls) == Range(0, |fam|) {
      AllSequencesAllChunks(cfg, fam, calls);
    }
  }

  lemma AllSequencesAllChunks(cfg: Config, fam: seq<Chunk>, calls: seq<Chunk>)
    requires IsStream(cfg, fam) && (forall c :: c in calls ==> c in fam)
    requires forall i :: 0 <= i < |fam| ==> i in Sequences(calls)
    ensures forall c :: c in fam ==> c in calls
  {
    forall c | c in fam
      ensures c in calls
    {
      ChunkWasDelivered(cfg, fam, calls, c);
    }
  }

  lemma ChunkWasDelivered(cfg: Config, fam: seq<Chunk>, calls: seq<Chunk>, c: Chunk)
    requires IsStream(cfg, fam) && (forall d :: d in calls ==> d in fam) && c in fam
    requires forall i :: 0 <= i < |fam| ==> i in Sequences(calls)
    ensures c in calls
  {
    MemberFacts(cfg, fam, c);
    SequenceOfCall(cfg, fam, calls, c.sequence);
  }

  lemma AllChunksAllSequences(cfg: Config, fam: seq<Chunk>, calls: seq<Chunk>)
    requires IsStream(cfg, fam) && (forall c :: c in calls ==> c in fam) && (forall c :: c in fam ==> c in calls)
    ensures Sequences(calls) == Range(0, |fam|)
  {
    forall i | 0 <= i < |fam|
      ensures i in Sequences(calls)
    {
      assert fam[i] in calls && IsStreamChunk(cfg, fam[i], i, |fam|);
      var t :| 0 <= t < |calls| && calls[t] == fam[i];
      assert calls[t].sequence == i;
    }
    forall x | x in Sequences(calls)
      ensures x in Range(0, |fam|)
    {
      SequenceOfCall(cfg, fam, calls, x);
    }
  }

  lemma SequenceOfCall(cfg: Config, fam: seq<Chunk>, calls: seq<Chunk>, x: int)
    requires IsStream(cfg, fam) && forall c :: c in calls ==> c in fam
    requires x in Sequences(calls)
    ensures 0 <= x < |fam| && fam[x] in calls
  {
    var t :| 0 <= t < |calls| && calls[t].sequence == x;
    MemberFacts(cfg, fam, calls[t]);
  }

  // --------------------------------------------------------- how late is late

  /** An arrival order: position t brings chunk order[t], and every chunk arrives once. */
  ghost predicate IsPermutation(order: seq<nat>, n: nat) {
    && |order| == n
    && (forall t :: 0 <= t < n ==> order[t] < n)
    && (forall t, u :: 0 <= t < u < n ==> order[t] != order[u])
    && (forall i :: 0 <= i < n ==> i in order)
  }

  ghost predicate Delivers(fam: seq<Chunk>, order: seq<nat>, calls: seq<Chunk>) {
    && IsPermutation(order, |fam|)
    && |calls| == |fam|
    && forall t :: 0 <= t < |fam| ==> calls[t] == fam[order[t]]
  }

  ghost predicate NeverRefused(cfg: Config, calls: seq<Chunk>) {
    forall t :: 0 <= t < |calls| ==> Answer(cfg, START, calls, t) != Some(ReorderBufferFull)
  }

  /** No chunk arrives more than maxReorder positions after its own index. */
  ghost predicate WithinWindow(cfg: Config, order: seq<nat>) {
    forall t :: 0 <= t < |order| ==> t <= order[t] + cfg.maxReorder
  }

  ghost function Firsts(order: seq<nat>, t: nat): set<int>
    requires t <= |order|
  {
    set u | 0 <= u < t :: order[u] as int
  }

  lemma {:induction false} FirstsSize(order: seq<nat>, t: nat)
    requires t <= |order| && forall u, v :: 0 <= u < v < |order| ==> order[u] != order[v]
    ensures |Firsts(order, t)| == t
  {
    if t > 0 {
      FirstsSize(order, t - 1);
      assert Firsts(order, t) == Firsts(order, t - 1) + {order[t - 1] as int};
    }
  }

  lemma RunStep(cfg: Config, s: State, calls: seq<Chunk>, t: nat)
    requires t < |calls|
    ensures Run(cfg, s, calls[..t + 1]) == Step(cfg, Run(cfg, s, calls[..t]), calls[t]).state
  {
    assert calls[..t + 1][..t] == calls[..t];
  }

  ghost predicate NotRefusedBefore(cfg: Config, calls: seq<Chunk>, t: nat)
    requires t <= |calls|
  {
    forall u :: 0 <= u < t ==> Answer(cfg, START, calls, u) != Some(ReorderBufferFull)
  }

  lemma FirstsStep(order: seq<nat>, t: nat)
    requires t < |order|
    ensures Firsts(order, t + 1) == Firsts(order, t) + {order[t] as int}
  {
  }

  lemma ArrivalAccepted(cfg: Config, fam: seq<Chunk>, order: seq<nat>, s: State, t: nat)
    requires IsStream(cfg, fam) && IsPermutation(order, |fam|) && t < |fam|
    requires Represents(cfg, fam, s, Firsts(order, t)) && s.writer.script == []
    requires Step(cfg, s, fam[order[t]]).error != Some(ReorderBufferFull)
    ensures var r := Step(cfg, s, fam[order[t]]).state;
            Represents(cfg, fam, r, Firsts(order, t + 1)) && r.writer.script == []
  {
    var c := fam[order[t]];
    FirstsStep(order, t);
    assert IsStreamChunk(cfg, c, order[t], |fam|);
    NotYetCompleted(cfg, fam, order, s, t);
    StepRepresents(cfg, fam, s, Firsts(order, t), c);
  }

  lemma NothingArrived(cfg: Config, fam: seq<Chunk>, order: seq<nat>, calls: seq<Chunk>)
    requires IsStream(cfg, fam)
    ensures Run(cfg, START, calls[..0]) == START && Represents(cfg, fam, START, Firsts(order, 0))
  {
    assert Firsts(order, 0) == {};
    RunRepresents(cfg, fam, []);
  }

  /** While nothing has been refused, exactly the first t arrivals are accepted. */
  lemma {:induction false} NothingLost(cfg: Config, fam: seq<Chunk>, order: seq<nat>, calls: seq<Chunk>, t: nat)
    requires IsStream(cfg, fam) && Delivers(fam, order, calls) && t <= |fam|
    requires NotRefusedBefore(cfg, calls, t)
    ensures Represents(cfg, fam, Run(cfg, START, calls[..t]), Firsts(order, t))
    ensures Run(cfg, START, calls[..t]).writer.script == []
  {
    if t == 0 {
      NothingArrived(cfg, fam, order, calls);
    } else {
      var s := Run(cfg, START, calls[..t - 1]);
      NothingLost(cfg, fam, order, calls, t - 1);
      assert Answer(cfg, START, calls, t - 1) != Some(ReorderBufferFull);
      ArrivalAccepted(cfg, fam, order, s, t - 1);
      RunStep(cfg, START, calls, t - 1);
    }
  }

  /** As long as chunks are outstanding the stream is not complete. */
  lemma NotYetCompleted(cfg: Config, fam: seq<Chunk>, order: seq<nat>, s: State, t: nat)
    requires IsStream(cfg, fam) && IsPermutation(order, |fam|) && t < |fam|
    requires Represents(cfg, fam, s, Firsts(order, t))
    ensures !s.completed && s.next <= order[t] && s.next + |s.pending| == t
  {
    AcceptedSize(cfg, fam, s, Firsts(order, t));
    FirstsSize(order, t);
    assert order[t] as int !in Firsts(order, t);
  }

  lemma StillToCome(fam: seq<Chunk>, order: seq<nat>, i: nat, t: nat) returns (u: nat)
    requires IsPermutation(order, |fam|) && t < |fam|
    requires i < |fam| && i as int !in Firsts(order, t) && order[t] != i
    ensures t < u < |fam| && order[u] == i
  {
    forall v | 0 <= v < t
      ensures order[v] != i
    {
      assert order[v] as int in Firsts(order, t);
    }
    assert i in order;
    u :| 0 <= u < |order| && order[u] == i;
  }

  /** The missing chunk is still to come, so at most next + maxReorder - 1 positions have passed. */
  lemma OnTimeIsNotRefused(cfg: Config, fam: seq<Chunk>, order: seq<nat>, calls: seq<Chunk>, t: nat)
    requires IsStream(cfg, fam) && Delivers(fam, order, calls) && t < |fam|
    requires WithinWindow(cfg, order) && NotRefusedBefore(cfg, calls, t)
    ensures Answer(cfg, START, calls, t) != Some(ReorderBufferFull)
  {
    NothingLost(cfg, fam, order, calls, t);
    var s := Run(cfg, START, calls[..t]);
    NotYetCompleted(cfg, fam, order, s, t);
    StepRepresents(cfg, fam, s, Firsts(order, t), calls[t]);
    MemberFacts(cfg, fam, calls[t]);
    assert IsStreamChunk(cfg, fam[order[t]], order[t], |fam|);
    if order[t] > s.next {
      var u := StillToCome(fam, order, s.next, t);
      assert u <= order[u] + cfg.maxReorder;
    }
  }

  lemma {:induction false} WithinWindowNeverRefused(cfg: Config, fam: seq<Chunk>, order: seq<nat>,
                                                    calls: seq<Chunk>, t: nat)
    requires IsStream(cfg, fam) && Delivers(fam, order, calls) && WithinWindow(cfg, order) && t <= |fam|
    ensures NotRefusedBefore(cfg, calls, t)
  {
    if t > 0 {
      WithinWindowNeverRefused(cfg, fam, order, calls, t - 1);
      OnTimeIsNotRefused(cfg, fam, order, calls, t - 1);
    }
  }

  lemma NeverRefusedIsOnTime(cfg: Config, fam: seq<Chunk>, order: seq<nat>, calls: seq<Chunk>, t: nat)
    requires IsStream(cfg, fam) && Delivers(fam, order, calls) && t < |fam| && NeverRefused(cfg, calls)
    ensures t <= order[t] + cfg.maxReorder
  {
    NothingLost(cfg, fam, order, calls, t);
    NotYetCompleted(cfg, fam, order, Run(cfg, START, calls[..t]), t);
    BufferBounded(cfg, START, calls[..t]);
  }

  /** Over every run of arbitrary chunks into any destination, however its writes fail. */
  lemma {:induction false} BufferBounded(cfg: Config, s: State, calls: seq<Chunk>)
    requires |s.pending| <= cfg.maxReorder
    ensures |Run(cfg, s, calls).pending| <= cfg.maxReorder
    decreases |calls|
  {
    if calls != [] {
      BufferBounded(cfg, s, calls[..|calls| - 1]);
      StepBufferBounded(cfg, Run(cfg, s, calls[..|calls| - 1]), calls[|calls| - 1]);
    }
  }

  lemma {:induction false} DrainOnlyRemoves(cfg: Config, s: State)
    ensures |Drain(cfg, s).state.pending| <= |s.pending|
    decreases |s.pending|
  {
    if s.next in s.pending {
      RemoveKeyShrinks(s.pending, s.next);
      var r := Flush(cfg, s.(pending := s.pending - {s.next}), s.pending[s.next]);
      if r.error.None? {
        DrainOnlyRemoves(cfg, r.state);
      }
    }
  }

  lemma StepBufferBounded(cfg: Config, s: State, c: Chunk)
    requires |s.pending| <= cfg.maxReorder
    ensures |Step(cfg, s, c).state.pending| <= cfg.maxReorder
  {
    if c.sequence > s.next {
      assert s.pending[c.sequence := c].Keys == s.pending.Keys + {c.sequence};
      assert |s.pending[c.sequence := c].Keys| == |s.pending[c.sequence := c]|;
      assert |s.pending.Keys| == |s.pending|;
    } else if c.sequence == s.next && Flush(cfg, s, c).error.None? {
      DrainOnlyRemoves(cfg, Flush(cfg, s, c).state);
    }
  }

  /**
   * The reorder window, exactly: when every chunk arrives once, WriteChunk never answers "buffer full"
   * if and only if no chunk comes more than maxReorder positions late; and then the stream completes.
   */
  lemma WindowTheorem(cfg: Config, fam: seq<Chunk>, order: seq<nat>, calls: seq<Chunk>)
    requires IsStream(cfg, fam) && Delivers(fam, order, calls)
    ensures NeverRefused(cfg, calls) <==> WithinWindow(cfg, order)
    ensures WithinWindow(cfg, order) ==>
              Run(cfg, START, calls).completed && Run(cfg, START, calls).writer.contents == Whole(cfg, fam)
  {
    if NeverRefused(cfg, calls) {
      forall t | 0 <= t < |order|
        ensures t <= order[t] + cfg.maxReorder
      {
        NeverRefusedIsOnTime(cfg, fam, order, calls, t);
      }
    }
    if WithinWindow(cfg, order) {
      WithinWindowNeverRefused(cfg, fam, order, calls, |fam|);
      NothingLost(cfg, fam, order, calls, |fam|);
      assert calls[..|fam|] == calls;
      AllArrived(order, |fam|);
      CompletedIffAllAccepted(cfg, fam, Run(cfg, START, calls), Firsts(order, |fam|));
      TextIsPrefix(cfg, fam, |fam|);
    }
  }

  lemma AllArrived(order: seq<nat>, n: nat)
    requires IsPermutation(order, n)
    ensures Firsts(order, n) == Range(0, n)
  {
    forall i | 0 <= i < n
      ensures i in Firsts(order, n)
    {
      assert i in order;
      var u :| 0 <= u < |order| && order[u] == i;
    }
  }
}
