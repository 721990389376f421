/** What the shift register computes: the remainder of a division of polynomials over GF(2). */
module CrcPolynomial {
  import opened Basics
  import opened Crc32c
  import opened CrcValues

  // A polynomial is written with its highest power first: p[0] is the coefficient of x^(|p| - 1).

  function Zeros(n: nat): Bits {
    seq(n, _ => false)
  }

  function Plus(p: Bits, q: Bits): (r: Bits)
    requires |p| == |q|
    ensures |r| == |p|
  {
    seq(|p|, i requires 0 <= i < |p| => p[i] != q[i])
  }

  /** Multiplication by hand: the leading coefficient of q times d, in front of the rest of q times d. */
  function Times(q: Bits, d: Bits): (p: Bits)
    requires d != []
    ensures |p| == |q| + |d| - 1
    decreases |q|
  {
    if q == [] then Zeros(|d| - 1)
    else Plus((if q[0] then d else Zeros(|d|)) + Zeros(|q| - 1), [false] + Times(q[1..], d))
  }

  /** q * d + r, where r has fewer coefficients than d. */
  function Multiple(q: Bits, d: Bits, r: Bits): (p: Bits)
    requires |r| + 1 == |d|
    ensures |p| == |q| + |r|
  {
    Plus(Times(q, d), Zeros(|q|) + r)
  }

  /** r is what the division of m by d leaves. */
  ghost predicate LeavesRemainder(m: Bits, d: Bits, r: Bits)
    requires |r| + 1 == |d|
  {
    exists q :: |q| + |r| == |m| && m == Multiple(q, d, r)
  }

  /** The bits followed by 32 zeros, that is, times x^32, with the first 32 of all these bits complemented. */
  function Prepared(bits: Bits): Bits {
    seq(|bits| + 32, i requires 0 <= i < |bits| + 32 => (i < |bits| && bits[i]) != (i < 32))
  }

  /** A polynomial over GF(2) as the number whose binary digits are its coefficients. */
  function Numeral(p: Bits): nat
    decreases |p|
  {
    if p == [] then 0 else 2 * Numeral(p[..|p| - 1]) + (if p[|p| - 1] then 1 else 0)
  }

  // ---------------------------------------------------------------- division

  /** Coefficient i of q * d + r, by those of the product with one coefficient of q less. */
  lemma MultipleAt(q: Bits, d: Bits, r: Bits, i: nat)
    requires q != [] && |r| + 1 == |d| && i < |q| + |r|
    ensures Multiple(q, d, r)[i]
         == ((q[0] && i < |d| && d[i]) != (i > 0 && Multiple(q[1..], d, r)[i - 1]))
  {
  }

  lemma MultipleTail(q: Bits, r: Bits, t: Bits, s: Bits, d: Bits)
    requires d != [] && d[0] && |q| == |t| > 0 && |r| == |s| == |d| - 1
    requires Multiple(q, d, r) == Multiple(t, d, s)
    ensures q[0] == t[0] && Multiple(q[1..], d, r) == Multiple(t[1..], d, s)
  {
    MultipleAt(q, d, r, 0);
    MultipleAt(t, d, s, 0);
    forall i | 0 <= i < |q| - 1 + |r|
      ensures Multiple(q[1..], d, r)[i] == Multiple(t[1..], d, s)[i]
    {
      MultipleAt(q, d, r, i + 1);
      MultipleAt(t, d, s, i + 1);
    }
  }

  /** A polynomial has one quotient and one remainder. */
  lemma {:induction false} DivisionUnique(q: Bits, r: Bits, t: Bits, s: Bits, d: Bits)
    requires d != [] && d[0] && |q| == |t| && |r| == |s| == |d| - 1
    requires Multiple(q, d, r) == Multiple(t, d, s)
    ensures q == t && r == s
    decreases |q|
  {
    if q == [] {
      forall i | 0 <= i < |r|
        ensures r[i] == s[i]
      {
        assert Multiple(q, d, r)[i] == Multiple(t, d, s)[i];
      }
    } else {
      MultipleTail(q, r, t, s, d);
      DivisionUnique(q[1..], r, t[1..], s, d);
      assert q == [q[0]] + q[1..] && t == [t[0]] + t[1..];
    }
  }

  // ------------------------------------------------------------ the register

  /** The dividend that is left when the register holds c and these bits are still to come. */
  function Dividend(c: Word, bits: Bits): (m: Bits)
    ensures |m| == |bits| + 32
  {
    seq(|bits| + 32, i requires 0 <= i < |bits| + 32 => (i < |bits| && bits[i]) != (i < 32 && c[i]))
  }

  /** Feeding one bit is one step of the division by x^32 + g. */
  lemma FeedDivides(g: Word, c: Word, bits: Bits, i: nat)
    requires bits != [] && 0 < i < |bits| + 32
    ensures Dividend(c, bits)[i]
         == (((c[0] != bits[0]) && i < 33 && ([true] + g)[i]) != Dividend(Feed(g, c, bits[0]), bits[1..])[i - 1])
  {
    if i <= 32 {
      FeedBit(g, c, bits[0], i - 1);
    }
  }

  /** The register holds the remainder; the bits shifted out are the quotient. */
  lemma {:induction false} RunDivides(g: Word, c: Word, bits: Bits) returns (q: Bits)
    ensures |q| == |bits| && Dividend(c, bits) == Multiple(q, [true] + g, Run(g, c, bits))
    decreases |bits|
  {
    if bits == [] {
      q := [];
      assert forall i :: 0 <= i < 32 ==> Dividend(c, bits)[i] == c[i] == Multiple(q, [true] + g, c)[i];
    } else {
      var later := RunDivides(g, Feed(g, c, bits[0]), bits[1..]);
      q := [c[0] != bits[0]] + later;
      var r := Run(g, c, bits);
      assert q[1..] == later;
      forall i | 0 <= i < |bits| + 32
        ensures Dividend(c, bits)[i] == Multiple(q, [true] + g, r)[i]
      {
        MultipleAt(q, [true] + g, r, i);
        if i > 0 {
          FeedDivides(g, c, bits, i);
        }
      }
    }
  }

  lemma PreparedIsDividend(bits: Bits)
    ensures Prepared(bits) == Dividend(ONES, bits)
  {
    forall i | 0 <= i < |bits| + 32
      ensures Prepared(bits)[i] == Dividend(ONES, bits)[i]
    {
      if i < 32 {
        OnesAt(i);
      }
    }
  }

  /** Whatever the generator, the CRC of some data is the complement of the remainder, and nothing else. */
  lemma CrcIsRemainder(g: Word, data: Bytes, r: Word)
    ensures LeavesRemainder(Prepared(BitsOf(data)), [true] + g, r) <==> Crc(g, data) == 0xFFFF_FFFF - Number(r)
  {
    var d, c := [true] + g, Run(g, ONES, BitsOf(data));
    PreparedIsDividend(BitsOf(data));
    var q := RunDivides(g, ONES, BitsOf(data));
    Complemented(c);
    RegisterValue(c);
    if LeavesRemainder(Prepared(BitsOf(data)), d, r) {
      var t :| |t| + 32 == |BitsOf(data)| + 32 && Prepared(BitsOf(data)) == Multiple(t, d, r);
      DivisionUnique(q, c, t, r, d);
    }
    if Number(r) == Number(c) {
      NumberInjective(r, c);
    }
  }

  // ------------------------------------------------------------- the two generators

  /** A digit with its lowest bit first. */
  function Mirrored(h: Nibble): nat {
    (if h.b0 then 8 else 0) + (if h.b1 then 4 else 0) + (if h.b2 then 2 else 0) + (if h.b3 then 1 else 0)
  }

  lemma NextDigit(p: Bits, h: Nibble)
    ensures Numeral(p + Four(h)) == 16 * Numeral(p) + Mirrored(h)
  {
    var q := p + Four(h);
    var n := |p|;
    assert q[..n + 3][..n + 2] == q[..n + 2] && q[..n + 2][..n + 1] == q[..n + 1] && q[..n + 1][..n] == p;
    assert Numeral(q) == 2 * Numeral(q[..n + 3]) + (if h.b3 then 1 else 0);
    assert Numeral(q[..n + 3]) == 2 * Numeral(q[..n + 2]) + (if h.b2 then 1 else 0);
    assert Numeral(q[..n + 2]) == 2 * Numeral(q[..n + 1]) + (if h.b1 then 1 else 0);
    assert Numeral(q[..n + 1]) == 2 * Numeral(p) + (if h.b0 then 1 else 0);
  }

  /** The numeral of x^32 + g grows by one digit with each four coefficients of g. */
  lemma DigitAt(g: Word, at: nat)
    requires at + 4 <= 32
    ensures Numeral([true] + g[..at + 4]) == 16 * Numeral([true] + g[..at]) + Mirrored(NibbleAt(g, at))
  {
    NextDigit([true] + g[..at], NibbleAt(g, at));
    assert [true] + g[..at] + Four(NibbleAt(g, at)) == [true] + g[..at + 4];
  }

  lemma FourDigitsAt(g: Word, at: nat)
    requires at + 16 <= 32
    ensures Numeral([true] + g[..at + 16])
         == 0x1_0000 * Numeral([true] + g[..at]) + 0x1000 * Mirrored(NibbleAt(g, at))
            + 0x100 * Mirrored(NibbleAt(g, at + 4)) + 0x10 * Mirrored(NibbleAt(g, at + 8))
            + Mirrored(NibbleAt(g, at + 12))
  {
    DigitAt(g, at);
    DigitAt(g, at + 4);
    DigitAt(g, at + 8);
    DigitAt(g, at + 12);
  }

  lemma NumeralOfDigits(g: Word, r: Register)
    requires RegisterOf(g) == r
    ensures Numeral([true] + g)
         == 0x1_0000_0000 + 0x1000_0000 * Mirrored(r.h0) + 0x100_0000 * Mirrored(r.h1)
            + 0x10_0000 * Mirrored(r.h2) + 0x1_0000 * Mirrored(r.h3) + 0x1000 * Mirrored(r.h4)
            + 0x100 * Mirrored(r.h5) + 0x10 * Mirrored(r.h6) + Mirrored(r.h7)
  {
    assert [true] + g[..0] == [true] && [true] + g[..32] == [true] + g;
    assert Numeral([true]) == 1;
    FourDigitsAt(g, 0);
    FourDigitsAt(g, 16);
  }

  lemma CastagnoliNumeral(g: Word)
    requires Number(g) == 0x82F6_3B78
    ensures Numeral([true] + g) == 0x1_1EDC_6F41
  {
    var r := Register(H8, H2, HF, H6, H3, HB, H7, H8);
    DigitsOf(g, r);
    NumeralOfDigits(g, r);
  }

  lemma IeeeNumeral(g: Word)
    requires Number(g) == 0xEDB8_8320
    ensures Numeral([true] + g) == 0x1_04C1_1DB7
  {
    var r := Register(HE, HD, HB, H8, H8, H3, H2, H0);
    DigitsOf(g, r);
    NumeralOfDigits(g, r);
  }

  /** The divisors are the published ones of CRC-32C and of IEEE 802.3. */
  lemma Divisors()
    ensures Numeral([true] + CASTAGNOLI) == 0x1_1EDC_6F41 && Numeral([true] + IEEE) == 0x1_04C1_1DB7
  {
    GeneratorNumbers();
    CastagnoliNumeral(CASTAGNOLI);
    IeeeNumeral(IEEE);
  }

  // -------------------------------------------------------- the order of the bits

  lemma {:induction false} BitsOfSlice(data: Bytes, i: nat)
    requires i < |data|
    ensures 8 * i + 8 <= |BitsOf(data)| && BitsOf(data)[8 * i..8 * i + 8] == LowBits(data[i], 8)
    decreases i
  {
    if i > 0 {
      BitsOfSlice(data[1..], i - 1);
      assert BitsOf(data)[8..] == BitsOf(data[1..]);
    }
  }

  lemma NumberOfEight(w: Bits)
    requires |w| == 8
    ensures Number(w) == Digit(NibbleAt(w, 0)) + 16 * Digit(NibbleAt(w, 4))
  {
    LowDigit(w);
    LowDigit(w[4..]);
    assert Number(w[4..][4..]) == 0;
  }

  /** Each byte enters the division with its least significant bit first. */
  lemma BitsOfByteAt(data: Bytes, i: nat) returns (b: Bits)
    requires i < |data|
    ensures 8 * i + 8 <= |BitsOf(data)| && b == BitsOf(data)[8 * i..8 * i + 8]
    ensures data[i] == (if b[0] then 1 else 0) + (if b[1] then 2 else 0) + (if b[2] then 4 else 0)
                       + (if b[3] then 8 else 0) + (if b[4] then 16 else 0) + (if b[5] then 32 else 0)
                       + (if b[6] then 64 else 0) + (if b[7] then 128 else 0)
  {
    b := LowBits(data[i], 8);
    BitsOfSlice(data, i);
    assert Pow2(8) == 0x100;
    NumberOfLowBits(data[i], 8);
    NumberOfEight(b);
  }
}
