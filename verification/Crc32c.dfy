/** CRC-32C, the Castagnoli CRC of section 12.1 of RFC 3720, and the errors it is sure to catch. */
module Crc32c {
  import opened Basics

  // A polynomial over GF(2), or a register holding one: index i is bit i of the machine word.
  type Bits = seq<bool>
  type Word = w: Bits | |w| == 32 witness [
    false, false, false, false, false, false, false, false,
    false, false, false, false, false, false, false, false,
    false, false, false, false, false, false, false, false,
    false, false, false, false, false, false, false, false]

  /** The n low bits of v, least significant first: the order in which a byte enters the register. */
  function LowBits(v: nat, n: nat): (bits: Bits)
    ensures |bits| == n
  {
    if n == 0 then [] else [v % 2 == 1] + LowBits(v / 2, n - 1)
  }

  /** The generator x^32 + 0x1EDC6F41 of Castagnoli, reflected. */
  const CASTAGNOLI: Word := LowBits(0x82F63B78, 32)

  /** The generator x^32 + 0x04C11DB7 of IEEE 802.3, reflected. */
  const IEEE: Word := LowBits(0xEDB88320, 32)

  function Xor(a: Word, b: Word): Word {
    seq(32, i requires 0 <= i < 32 => a[i] != b[i])
  }

  const ONES: Word := [
    true, true, true, true, true, true, true, true,
    true, true, true, true, true, true, true, true,
    true, true, true, true, true, true, true, true,
    true, true, true, true, true, true, true, true]

  /** One step of the reflected shift register, after the input bit went into bit 0. */
  function Shift(g: Word, c: Word): Word {
    var down := c[1..] + [false];
    if c[0] then Xor(down, g) else down
  }

  function Feed(g: Word, c: Word, bit: bool): Word {
    Shift(g, c[0 := c[0] != bit])
  }

  function Run(g: Word, c: Word, bits: Bits): Word
    decreases |bits|
  {
    if bits == [] then c else Run(g, Feed(g, c, bits[0]), bits[1..])
  }

  function BitsOf(data: Bytes): (bits: Bits)
    ensures |bits| == 8 * |data|
    decreases |data|
  {
    if data == [] then [] else LowBits(data[0], 8) + BitsOf(data[1..])
  }

  /** The remainder: the register starts as all ones and is complemented at the end. */
  function Remainder(g: Word, bits: Bits): Word {
    Xor(Run(g, ONES, bits), ONES)
  }

  function Number(w: Bits): (n: nat)
    ensures n < Pow2(|w|)
    decreases |w|
  {
    if w == [] then 0 else (if w[0] then 1 else 0) + 2 * Number(w[1..])
  }

  lemma WordRange()
    ensures Pow2(32) == 0x1_0000_0000
  {
    assert Pow2(8) == 0x100;
    assert Pow2(16) == 0x1_0000;
    assert Pow2(24) == 0x100_0000;
  }

  /** crc32.Checksum with the table of generator g. */
  function Crc(g: Word, data: Bytes): uint32 {
    WordRange();
    Number(Remainder(g, BitsOf(data)))
  }

  function CRC32(data: Bytes): uint32 {
    Crc(CASTAGNOLI, data)
  }

  // ------------------------------------------------------- running in pieces

  lemma {:induction false} RunConcat(g: Word, c: Word, a: Bits, b: Bits)
    ensures Run(g, c, a + b) == Run(g, Run(g, c, a), b)
    decreases |a|
  {
    if a == [] {
      assert a + b == b;
    } else {
      assert (a + b)[1..] == a[1..] + b;
      RunConcat(g, Feed(g, c, a[0]), a[1..], b);
    }
  }

  lemma {:induction false} BitsOfConcat(a: Bytes, b: Bytes)
    ensures BitsOf(a + b) == BitsOf(a) + BitsOf(b)
    decreases |a|
  {
    if a == [] {
      assert a + b == b;
    } else {
      assert (a + b)[1..] == a[1..] + b;
      BitsOfConcat(a[1..], b);
    }
  }

  lemma {:induction false} BitsOfInjective(a: Bytes, b: Bytes)
    requires |a| == |b| && BitsOf(a) == BitsOf(b)
    ensures a == b
    decreases |a|
  {
    if a != [] {
      assert BitsOf(a)[..8] == LowBits(a[0], 8) && BitsOf(b)[..8] == LowBits(b[0], 8);
      assert Pow2(8) == 0x100;
      NumberOfLowBits(a[0], 8);
      NumberOfLowBits(b[0], 8);
      assert BitsOf(a)[8..] == BitsOf(a[1..]) && BitsOf(b)[8..] == BitsOf(b[1..]);
      BitsOfInjective(a[1..], b[1..]);
    }
  }

  lemma {:induction false} NumberOfLowBits(v: nat, n: nat)
    requires v < Pow2(n)
    ensures Number(LowBits(v, n)) == v
  {
    if n > 0 {
      NumberOfLowBits(v / 2, n - 1);
      assert LowBits(v, n)[1..] == LowBits(v / 2, n - 1);
    }
  }

  /** The reflected generators as the tables' polynomials are written in Go. */
  lemma GeneratorNumbers()
    ensures Number(CASTAGNOLI) == 0x82F63B78 && Number(IEEE) == 0xEDB88320
  {
    WordRange();
    NumberOfLowBits(0x82F63B78, 32);
    NumberOfLowBits(0xEDB88320, 32);
  }

  lemma {:induction false} NumberInjective(a: Bits, b: Bits)
    requires |a| == |b| && Number(a) == Number(b)
    ensures a == b
    decreases |a|
  {
    if a != [] {
      NumberInjective(a[1..], b[1..]);
      assert a == [a[0]] + a[1..] && b == [b[0]] + b[1..];
    }
  }

  // ------------------------------------------------------------------ bursts

  lemma {:induction false} TopBit(v: nat, n: nat)
    requires n > 0 && Pow2(n - 1) <= v < Pow2(n)
    ensures LowBits(v, n)[n - 1]
  {
    if n > 1 {
      TopBit(v / 2, n - 1);
    }
  }

  /** Bit 31 of either reflected generator is set: all that the burst results need. */
  lemma GeneratorTop()
    ensures CASTAGNOLI[31] && IEEE[31]
  {
    WordRange();
    TopBit(0x82F63B78, 32);
    TopBit(0xEDB88320, 32);
  }

  /** What bit i of the register is after one more input bit. */
  lemma FeedBit(g: Word, c: Word, bit: bool, i: nat)
    requires i < 32
    ensures Feed(g, c, bit)[i] == ((i < 31 && c[i + 1]) != ((c[0] != bit) && g[i]))
  {
  }

  /** Two registers that n more bits bring together can differ only in their n lowest bits. */
  lemma {:induction false} MergeBound(g: Word, a: Word, b: Word, w: Bits, v: Bits)
    requires g[31] && |w| == |v| <= 32 && Run(g, a, w) == Run(g, b, v)
    ensures forall i :: |w| <= i < 32 ==> a[i] == b[i]
    decreases |w|
  {
    if w != [] {
      var a', b' := Feed(g, a, w[0]), Feed(g, b, v[0]);
      MergeBound(g, a', b', w[1..], v[1..]);
      // Bit 31 of the generator is set, so bit 31 shows what was shifted out.
      FeedBit(g, a, w[0], 31);
      FeedBit(g, b, v[0], 31);
      assert (a[0] != w[0]) == (b[0] != v[0]);
      forall i | |w| <= i < 32
        ensures a[i] == b[i]
      {
        FeedBit(g, a, w[0], i - 1);
        FeedBit(g, b, v[0], i - 1);
        assert a'[i - 1] == b'[i - 1];
      }
    }
  }

  /** From one register, two different strings of at most 32 bits lead to different registers. */
  lemma {:induction false} WindowInjective(g: Word, c: Word, w: Bits, v: Bits)
    requires g[31] && |w| == |v| <= 32 && w != v
    ensures Run(g, c, w) != Run(g, c, v)
    decreases |w|
  {
    var a, b := Feed(g, c, w[0]), Feed(g, c, v[0]);
    if w[0] == v[0] {
      assert w == [w[0]] + w[1..] && v == [v[0]] + v[1..];
      WindowInjective(g, a, w[1..], v[1..]);
    } else {
      FeedBit(g, c, w[0], 31);
      FeedBit(g, c, v[0], 31);
      if Run(g, a, w[1..]) == Run(g, b, v[1..]) {
        MergeBound(g, a, b, w[1..], v[1..]);
        assert false;
      }
    }
  }

  lemma FeedInjective(g: Word, a: Word, b: Word, bit: bool)
    requires g[31] && Feed(g, a, bit) == Feed(g, b, bit)
    ensures a == b
  {
    FeedBit(g, a, bit, 31);
    FeedBit(g, b, bit, 31);
    assert a[0] == b[0];
    MergeBound(g, a, b, [bit], [bit]);
    assert forall i :: 0 <= i < 32 ==> a[i] == b[i];
  }

  /** The register step forgets nothing: different registers stay different. */
  lemma {:induction false} RunInjective(g: Word, a: Word, b: Word, bits: Bits)
    requires g[31] && a != b
    ensures Run(g, a, bits) != Run(g, b, bits)
    decreases |bits|
  {
    if bits != [] {
      if Feed(g, a, bits[0]) == Feed(g, b, bits[0]) {
        FeedInjective(g, a, b, bits[0]);
      }
      RunInjective(g, Feed(g, a, bits[0]), Feed(g, b, bits[0]), bits[1..]);
    }
  }

  lemma XorOnesInjective(a: Word, b: Word)
    requires Xor(a, ONES) == Xor(b, ONES)
    ensures a == b
  {
    forall i | 0 <= i < 32
      ensures a[i] == b[i]
    {
      assert Xor(a, ONES)[i] == Xor(b, ONES)[i];
    }
  }

  /** Changing any bits within a window of 32 consecutive bits changes the remainder, whatever the length. */
  lemma BurstChangesRemainder(g: Word, before: Bits, w: Bits, v: Bits, after: Bits)
    requires g[31] && |w| == |v| <= 32 && w != v
    ensures Remainder(g, before + w + after) != Remainder(g, before + v + after)
  {
    var c := Run(g, ONES, before);
    RunConcat(g, ONES, before + w, after);
    RunConcat(g, ONES, before + v, after);
    RunConcat(g, ONES, before, w);
    RunConcat(g, ONES, before, v);
    WindowInjective(g, c, w, v);
    RunInjective(g, Run(g, c, w), Run(g, c, v), after);
    if Remainder(g, before + w + after) == Remainder(g, before + v + after) {
      XorOnesInjective(Run(g, ONES, before + w + after), Run(g, ONES, before + v + after));
    }
  }

  /** No change confined to 32 consecutive bits, aligned to bytes or not, goes unnoticed. */
  lemma BitBurstChangesCrc(g: Word, d: Bytes, e: Bytes, before: Bits, w: Bits, v: Bits, after: Bits)
    requires g[31] && BitsOf(d) == before + w + after && BitsOf(e) == before + v + after
    requires |w| == |v| <= 32 && w != v
    ensures Crc(g, d) != Crc(g, e)
  {
    BurstChangesRemainder(g, before, w, v, after);
    if Crc(g, d) == Crc(g, e) {
      NumberInjective(Remainder(g, BitsOf(d)), Remainder(g, BitsOf(e)));
    }
  }

  /** No change confined to four consecutive bytes goes unnoticed. */
  lemma ByteBurstChangesCrc(g: Word, before: Bytes, w: Bytes, v: Bytes, after: Bytes)
    requires g[31] && |w| == |v| <= 4 && w != v
    ensures Crc(g, before + w + after) != Crc(g, before + v + after)
  {
    BitsOfConcat(before + w, after);
    BitsOfConcat(before + v, after);
    BitsOfConcat(before, w);
    BitsOfConcat(before, v);
    if BitsOf(w) == BitsOf(v) {
      BitsOfInjective(w, v);
    }
    BitBurstChangesCrc(g, before + w + after, before + v + after,
                       BitsOf(before), BitsOf(w), BitsOf(v), BitsOf(after));
  }

  /** Neither the default checksum nor the IEEE one misses such a change. */
  lemma ByteBurstChangesCRC32(before: Bytes, w: Bytes, v: Bytes, after: Bytes)
    requires |w| == |v| <= 4 && w != v
    ensures CRC32(before + w + after) != CRC32(before + v + after)
    ensures Crc(IEEE, before + w + after) != Crc(IEEE, before + v + after)
  {
    GeneratorTop();
    ByteBurstChangesCrc(CASTAGNOLI, before, w, v, after);
    ByteBurstChangesCrc(IEEE, before, w, v, after);
  }
}
