/** The tiered buffer pool (pkg/pool/pool.go). A buffer is an array; its length is the slice's capacity. */
module Pool {
  import opened Basics

  /** findPoolIndex's answer: the first class that fits, or -1. */
  ghost predicate IsFirstFit(sizes: seq<int>, size: int, i: int) {
    && -1 <= i < |sizes|
    && (i >= 0 ==> size <= sizes[i])
    && (forall j :: 0 <= j < (if i < 0 then |sizes| else i) ==> size > sizes[j])
  }

  /** Put's choice: the last class the capacity reaches, or -1. */
  ghost predicate IsLastFit(sizes: seq<int>, capacity: int, i: int) {
    && -1 <= i < |sizes|
    && (i >= 0 ==> capacity >= sizes[i])
    && (forall j :: i < j < |sizes| ==> capacity < sizes[j])
  }

  /** Some class is small enough for a buffer of this capacity to serve it. */
  ghost predicate HasClass(sizes: seq<int>, capacity: int) {
    exists i :: 0 <= i < |sizes| && sizes[i] <= capacity
  }

  const DEFAULT_SIZES: seq<int> := [4096, 16384, 65536, 262144, 1048576, 4194304, 16777216]

  // Each class is a sync.Pool: a bag of buffers handed back and not yet handed out again.
  type Classes = seq<multiset<array<byte>>>

  /** Every buffer sits in the class Put chose for it, so its capacity covers the class size. */
  ghost predicate Classified(sizes: seq<int>, pools: Classes) {
    && |pools| == |sizes|
    && forall i, b :: 0 <= i < |pools| && b in pools[i] ==> IsLastFit(sizes, b.Length, i)
  }

  ghost function Members(pools: Classes): set<array<byte>> {
    set i, b | 0 <= i < |pools| && b in pools[i] :: b
  }

  /** No buffer has been put back twice without having been handed out in between. */
  ghost predicate AtMostOnce(pools: Classes) {
    forall i, b :: 0 <= i < |pools| && b in pools[i] ==> pools[i][b] == 1
  }

  /** A buffer handed out is no longer held, so nobody else can be handed it. */
  lemma HandedOut(sizes: seq<int>, pools: Classes, i: nat, buf: array<byte>)
    requires Classified(sizes, pools) && AtMostOnce(pools) && i < |pools| && buf in pools[i]
    ensures var after := pools[i := pools[i] - multiset{buf}];
            AtMostOnce(after) && Members(after) == Members(pools) - {buf}
  {
    var after := pools[i := pools[i] - multiset{buf}];
    assert pools[i][buf] == 1;
    forall j | 0 <= j < |after|
      ensures buf !in after[j]
    {
      if j != i {
        assert IsLastFit(sizes, buf.Length, i);
        assert buf !in pools[j];
      }
    }
    forall b | b in Members(pools) && b != buf
      ensures b in Members(after)
    {
      var j :| 0 <= j < |pools| && b in pools[j];
      assert b in after[j];
    }
  }

  lemma MembersAfterPut(pools: Classes, i: nat, buf: array<byte>)
    requires i < |pools|
    ensures Members(pools[i := pools[i] + multiset{buf}]) == Members(pools) + {buf}
  {
    var after := pools[i := pools[i] + multiset{buf}];
    assert buf in after[i];
    forall b | b in Members(pools)
      ensures b in Members(after)
    {
      var j :| 0 <= j < |pools| && b in pools[j];
      assert b in after[j];
    }
  }

  class TieredPool {
    const sizes: seq<int>
    var pools: Classes
    ghost var held: set<array<byte>>  // the buffers lying in any of the classes

    ghost predicate Valid()
      reads this
    {
      Classified(sizes, pools) && held == Members(pools)
    }

    ghost predicate NoDuplicates()
      reads this
    {
      AtMostOnce(pools)
    }

    constructor (sizes: seq<int>)
      ensures Valid() && NoDuplicates() && held == {}
      ensures this.sizes == if sizes == [] then DEFAULT_SIZES else sizes
    {
      var s := if sizes == [] then DEFAULT_SIZES else sizes;
      this.sizes := s;
      pools := seq(|s|, _ => multiset{});
      held := {};
    }

    method FindPoolIndex(size: int) returns (i: int)
      ensures IsFirstFit(sizes, size, i)
    {
      for k := 0 to |sizes|
        invariant forall j :: 0 <= j < k ==> size > sizes[j]
      {
        if size <= sizes[k] {
          return k;
        }
      }
      return -1;
    }

    /** sync.Pool.Get of class i: any buffer it holds, or a new one of the class size. */
    method Take(i: nat) returns (buf: array<byte>)
      requires Valid() && i < |sizes| && sizes[i] >= 0
      modifies this`pools, this`held
      ensures Valid() && buf.Length >= sizes[i]
      ensures (fresh(buf) && buf.Length == sizes[i] && pools == old(pools))
           || (buf in old(pools)[i] && pools == old(pools)[i := old(pools)[i] - multiset{buf}])
    {
      if pools[i] != multiset{} {
        if * {
          buf :| buf in pools[i];
          pools := pools[i := pools[i] - multiset{buf}];
          held := Members(pools);
          return;
        }
      }
      buf := new byte[sizes[i]];
    }

    /** The garbage collector may drop an idle buffer at any time. */
    method Drop(i: nat, b: array<byte>)
      requires Valid() && i < |pools|
      modifies this`pools, this`held
      ensures Valid() && pools == old(pools)[i := old(pools)[i] - multiset{b}]
      ensures old(NoDuplicates()) ==> NoDuplicates()
    {
      pools := pools[i := pools[i] - multiset{b}];
      held := Members(pools);
    }

    /** Get: nil for a size that is not positive, otherwise a buffer that can be cut to `size`. */
    method Get(size: int) returns (buf: array?<byte>, ghost class_: int)
      requires Valid()
      modifies this`pools, this`held
      ensures Valid()
      ensures size <= 0 ==> buf == null && pools == old(pools)
      ensures size > 0 ==> buf != null && buf.Length >= size && IsFirstFit(sizes, size, class_)
      ensures size > 0 ==>
                || (fresh(buf) && pools == old(pools) && buf.Length == (if class_ < 0 then size else sizes[class_]))
                || (class_ >= 0 && buf in old(pools)[class_]
                    && pools == old(pools)[class_ := old(pools)[class_] - multiset{buf}])
      ensures old(NoDuplicates()) ==> NoDuplicates() && held <= old(held) && (buf != null ==> buf !in held)
      ensures buf != null ==> fresh(buf) || buf in old(held)
    {
      class_ := -1;
      if size <= 0 {
        return null, -1;
      }
      var i := FindPoolIndex(size);
      class_ := i;
      if i == -1 {
        buf := new byte[size];
      } else {
        buf := Take(i);
        if old(NoDuplicates()) && buf in old(held) && pools != old(pools) {
          HandedOut(sizes, old(pools), i, buf);
        }
      }
    }

    /** Put: back into the last class its capacity reaches; a buffer too small for every class is let go. */
    method Put(buf: array?<byte>) returns (ghost class_: int)
      requires Valid()
      modifies this`pools, this`held
      ensures Valid()
      ensures buf == null || buf.Length == 0 ==> class_ == -1
      ensures buf != null && buf.Length > 0 ==> IsLastFit(sizes, buf.Length, class_)
      ensures pools == if class_ < 0 then old(pools) else old(pools)[class_ := old(pools)[class_] + multiset{buf}]
      ensures held == if class_ < 0 then old(held) else old(held) + {buf}
      ensures buf != null && buf.Length > 0 && HasClass(sizes, buf.Length) ==> buf in held
      ensures old(NoDuplicates()) && (buf == null || buf !in old(held)) ==> NoDuplicates()
    {
      class_ := -1;
      if buf == null || buf.Length == 0 {
        return;
      }
      var c := buf.Length;
      var i := |sizes| - 1;
      while i >= 0
        invariant -1 <= i < |sizes|
        invariant forall j :: i < j < |sizes| ==> c < sizes[j]
        invariant pools == old(pools) && held == old(held)
      {
        if c >= sizes[i] {
          class_ := i;
          MembersAfterPut(pools, i, buf);
          pools := pools[i := pools[i] + multiset{buf}];
          held := Members(pools);
          return;
        }
        i := i - 1;
      }
    }
  }

  // --------------------------------------------------------- smallest class

  /** For this size, the class Get takes from is the smallest of those that fit. */
  ghost predicate TakesSmallest(sizes: seq<int>, size: int) {
    forall i, j :: IsFirstFit(sizes, size, i) && 0 <= j < |sizes| && size <= sizes[j] ==> 0 <= i && sizes[i] <= sizes[j]
  }

  /** Class j, or one of the same size before it, is larger than every class before that one. */
  ghost predicate Leads(sizes: seq<int>, i: int, j: int) {
    0 <= i <= j < |sizes| && sizes[i] == sizes[j] && forall h :: 0 <= h < i ==> sizes[h] < sizes[j]
  }

  ghost predicate Led(sizes: seq<int>, j: int) {
    exists i :: Leads(sizes, i, j)
  }

  ghost predicate EverySizeLeads(sizes: seq<int>) {
    forall j {:trigger Led(sizes, j)} :: 0 <= j < |sizes| && sizes[j] > 0 ==> Led(sizes, j)
  }

  lemma {:induction false} FirstFitUpTo(sizes: seq<int>, size: int, n: nat) returns (i: int)
    requires n <= |sizes|
    ensures IsFirstFit(sizes[..n], size, i)
  {
    if n == 0 {
      i := -1;
    } else {
      i := FirstFitUpTo(sizes, size, n - 1);
      if i < 0 && size <= sizes[n - 1] {
        i := n - 1;
      }
    }
  }

  lemma FirstFitExists(sizes: seq<int>, size: int) returns (i: int)
    ensures IsFirstFit(sizes, size, i)
  {
    i := FirstFitUpTo(sizes, size, |sizes|);
    assert sizes[..|sizes|] == sizes;
  }

  lemma SmallestLeads(sizes: seq<int>, j: int)
    requires 0 <= j < |sizes| && TakesSmallest(sizes, sizes[j])
    ensures Led(sizes, j)
  {
    var i := FirstFitExists(sizes, sizes[j]);
    assert Leads(sizes, i, j);
  }

  lemma LeaderIsSmallest(sizes: seq<int>, size: int, i: int, h: int, j: int)
    requires IsFirstFit(sizes, size, i) && Leads(sizes, h, j) && size <= sizes[j]
    ensures 0 <= i && sizes[i] <= sizes[j]
  {
    assert 0 <= i <= h;
  }

  lemma SmallestAt(sizes: seq<int>, size: int, i: int, j: int)
    requires size > 0 && EverySizeLeads(sizes)
    requires IsFirstFit(sizes, size, i) && 0 <= j < |sizes| && size <= sizes[j]
    ensures 0 <= i && sizes[i] <= sizes[j]
  {
    assert Led(sizes, j);
    var h :| Leads(sizes, h, j);
    LeaderIsSmallest(sizes, size, i, h, j);
  }

  lemma LeadingIsSmallest(sizes: seq<int>, size: int)
    requires size > 0 && EverySizeLeads(sizes)
    ensures TakesSmallest(sizes, size)
  {
    forall i, j | IsFirstFit(sizes, size, i) && 0 <= j < |sizes| && size <= sizes[j]
      ensures 0 <= i && sizes[i] <= sizes[j]
    {
      SmallestAt(sizes, size, i, j);
    }
  }

  ghost predicate Ascending(sizes: seq<int>) {
    forall i, j :: 0 <= i < j < |sizes| ==> sizes[i] < sizes[j]
  }

  lemma AscendingLeads(sizes: seq<int>)
    requires Ascending(sizes)
    ensures EverySizeLeads(sizes)
  {
    forall j | 0 <= j < |sizes| && sizes[j] > 0
      ensures Led(sizes, j)
    {
      assert Leads(sizes, j, j);
    }
  }

  /**
   * Exactly when Get takes the smallest class that fits, for every size: when no class stands behind a
   * larger one unless an equal one stands in front. Ascending sizes are of this kind.
   */
  lemma FirstFitIsSmallest(sizes: seq<int>)
    ensures (forall size :: size > 0 ==> TakesSmallest(sizes, size)) <==> EverySizeLeads(sizes)
    ensures Ascending(sizes) ==> EverySizeLeads(sizes)
  {
    if Ascending(sizes) {
      AscendingLeads(sizes);
    }
    if forall size :: size > 0 ==> TakesSmallest(sizes, size) {
      forall j | 0 <= j < |sizes| && sizes[j] > 0
        ensures Led(sizes, j)
      {
        SmallestLeads(sizes, j);
      }
    }
    if EverySizeLeads(sizes) {
      forall size | size > 0
        ensures TakesSmallest(sizes, size)
      {
        LeadingIsSmallest(sizes, size);
      }
    }
  }

  /** Classes of 16 and then 4 bytes: for three bytes Get takes a 16-byte buffer although four would do. */
  lemma DescendingTakesLarger()
    ensures IsFirstFit([16, 4], 3, 0) && 3 <= [16, 4][1] < [16, 4][0]
    ensures !TakesSmallest([16, 4], 3) && !EverySizeLeads([16, 4])
  {
    var sizes := [16, 4];
    assert IsFirstFit(sizes, 3, 0) && 3 <= sizes[1] < sizes[0];
    FirstFitIsSmallest(sizes);
  }

  /** The default classes run from 4 KiB to 16 MiB in steps of four, so Get takes the smallest that fits. */
  lemma DefaultClasses(size: int)
    requires size > 0
    ensures |DEFAULT_SIZES| == 7 && DEFAULT_SIZES[0] == 4 * 1024 && DEFAULT_SIZES[6] == 16 * 1024 * 1024
    ensures forall i :: 0 <= i < 6 ==> DEFAULT_SIZES[i + 1] == 4 * DEFAULT_SIZES[i]
    ensures TakesSmallest(DEFAULT_SIZES, size)
  {
    var s := DEFAULT_SIZES;
    assert s[0] < s[1] < s[2] < s[3] < s[4] < s[5] < s[6];
    FirstFitIsSmallest(s);
  }

  // ------------------------------------------------------------ power of two

  /** bits.Len */
  function BitLen(n: nat): nat {
    if n == 0 then 0 else 1 + BitLen(n / 2)
  }

  lemma {:induction false} BitLenBounds(n: nat)
    ensures n < Pow2(BitLen(n))
    ensures n > 0 ==> Pow2(BitLen(n)) <= 2 * n
  {
    if n > 0 {
      BitLenBounds(n / 2);
    }
  }

  /** The shift is one of a 64-bit int: 1 << 63 is the smallest of them. */
  function NextPowerOfTwo(n: int64): int64 {
    if n <= 1 then 1 else Wrap64(Pow2(BitLen(n - 1)))
  }

  const TWO_62: int := 0x4000_0000_0000_0000

  lemma LargePowers()
    ensures Pow2(62) == TWO_62 && Pow2(63) == 2 * TWO_62
  {
    assert Pow2(8) == 0x100 && Pow2(16) == 0x1_0000 && Pow2(24) == 0x100_0000 && Pow2(32) == 0x1_0000_0000;
    assert Pow2(40) == 0x100_0000_0000 && Pow2(48) == 0x1_0000_0000_0000 && Pow2(56) == 0x100_0000_0000_0000;
  }

  lemma BitLenBelow(n: nat, k: nat)
    requires n < Pow2(k)
    ensures BitLen(n) <= k
  {
    BitLenBounds(n);
    if BitLen(n) > k {
      Pow2Monotone(k, BitLen(n));
    }
  }

  lemma BitLenAbove(n: nat, k: nat)
    requires Pow2(k) <= n
    ensures BitLen(n) > k
  {
    BitLenBounds(n);
    if BitLen(n) < k {
      Pow2Monotone(BitLen(n), k);
    }
  }

  /** The power itself, before it has to fit an int, is the least that is at least n. */
  lemma LeastPower(n: int, k: nat)
    requires n > 1
    ensures n <= Pow2(BitLen(n - 1))
    ensures Pow2(k) >= n ==> Pow2(BitLen(n - 1)) <= Pow2(k)
  {
    BitLenBounds(n - 1);
    if k < BitLen(n - 1) && Pow2(k) >= n {
      Pow2Monotone(k, BitLen(n - 1));
    } else if k > BitLen(n - 1) {
      Pow2Monotone(BitLen(n - 1), k);
    }
  }

  lemma PowerFits(n: int64)
    requires n > 1
    ensures n <= TWO_62 ==> Pow2(BitLen(n - 1)) <= TWO_62
    ensures n > TWO_62 ==> Pow2(BitLen(n - 1)) == 2 * TWO_62
  {
    LargePowers();
    if n <= TWO_62 {
      BitLenBelow(n - 1, 62);
      if BitLen(n - 1) < 62 {
        Pow2Monotone(BitLen(n - 1), 62);
      }
    } else {
      BitLenAbove(n - 1, 62);
      BitLenBelow(n - 1, 63);
    }
  }

  ghost predicate IsPowerOfTwo(p: int) {
    exists k: nat :: p == Pow2(k)
  }

  /**
   * Up to 2^62 the result is a power of two, at least n, and the least such; beyond, where no int is a
   * power of two at least n, it is the most negative int. So it is at least n exactly up to 2^62.
   */
  lemma NextPowerOfTwoIsLeast(n: int64, k: nat)
    ensures NextPowerOfTwo(n) >= n <==> n <= TWO_62
    ensures n <= TWO_62 ==> IsPowerOfTwo(NextPowerOfTwo(n)) && (Pow2(k) >= n ==> NextPowerOfTwo(n) <= Pow2(k))
    ensures n > TWO_62 ==> NextPowerOfTwo(n) == -0x8000_0000_0000_0000
  {
    if n <= 1 {
      assert Pow2(0) == 1;
    } else {
      LeastPower(n, k);
      PowerFits(n);
      if n <= TWO_62 {
        WrapInRange(Pow2(BitLen(n - 1)));
      }
    }
  }
}
