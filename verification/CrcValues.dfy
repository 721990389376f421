/** The check values of the two CRCs, computed on a register of eight hexadecimal digits. */
module CrcValues {
  import opened Basics
  import opened Crc32c

  datatype Nibble = Nibble(b3: bool, b2: bool, b1: bool, b0: bool)

  datatype Register = Register(
    h7: Nibble, h6: Nibble, h5: Nibble, h4: Nibble, h3: Nibble, h2: Nibble, h1: Nibble, h0: Nibble)

  const H0 := Nibble(false, false, false, false)
  const H1 := Nibble(false, false, false, true)
  const H2 := Nibble(false, false, true, false)
  const H3 := Nibble(false, false, true, true)
  const H4 := Nibble(false, true, false, false)
  const H5 := Nibble(false, true, false, true)
  const H6 := Nibble(false, true, true, false)
  const H7 := Nibble(false, true, true, true)
  const H8 := Nibble(true, false, false, false)
  const H9 := Nibble(true, false, false, true)
  const HA := Nibble(true, false, true, false)
  const HB := Nibble(true, false, true, true)
  const HC := Nibble(true, true, false, false)
  const HD := Nibble(true, true, false, true)
  const HE := Nibble(true, true, true, false)
  const HF := Nibble(true, true, true, true)

  function Digit(h: Nibble): (d: nat)
    ensures d < 16
  {
    (if h.b3 then 8 else 0) + (if h.b2 then 4 else 0) + (if h.b1 then 2 else 0) + (if h.b0 then 1 else 0)
  }

  function Value(r: Register): nat {
    Digit(r.h0) + 0x10 * Digit(r.h1) + 0x100 * Digit(r.h2) + 0x1000 * Digit(r.h3) + 0x1_0000 * Digit(r.h4)
    + 0x10_0000 * Digit(r.h5) + 0x100_0000 * Digit(r.h6) + 0x1000_0000 * Digit(r.h7)
  }

  function NibbleAt(w: Bits, at: nat): Nibble
    requires at + 4 <= |w|
  {
    Nibble(w[at + 3], w[at + 2], w[at + 1], w[at])
  }

  function RegisterOf(w: Word): Register {
    Register(NibbleAt(w, 28), NibbleAt(w, 24), NibbleAt(w, 20), NibbleAt(w, 16),
             NibbleAt(w, 12), NibbleAt(w, 8), NibbleAt(w, 4), NibbleAt(w, 0))
  }

  // ---------------------------------------------------------------- one step

  /** A digit moves down by one bit and is combined with that of the generator if a one was shifted out. */
  function Down(h: Nibble, from: bool, g: Nibble, out: bool): Nibble {
    Nibble(from != (out && g.b3), h.b3 != (out && g.b2), h.b2 != (out && g.b1), h.b1 != (out && g.b0))
  }

  function Step(g: Register, r: Register, bit: bool): Register {
    var out := r.h0.b0 != bit;
    Register(Down(r.h7, false, g.h7, out), Down(r.h6, r.h7.b0, g.h6, out), Down(r.h5, r.h6.b0, g.h5, out),
             Down(r.h4, r.h5.b0, g.h4, out), Down(r.h3, r.h4.b0, g.h3, out), Down(r.h2, r.h3.b0, g.h2, out),
             Down(r.h1, r.h2.b0, g.h1, out), Down(r.h0, r.h1.b0, g.h0, out))
  }

  lemma NibbleStep(g: Word, c: Word, bit: bool, at: nat)
    requires at + 4 <= 32
    ensures NibbleAt(Feed(g, c, bit), at)
         == Down(NibbleAt(c, at), at + 4 < 32 && c[at + 4], NibbleAt(g, at), c[0] != bit)
  {
    FeedBit(g, c, bit, at);
    FeedBit(g, c, bit, at + 1);
    FeedBit(g, c, bit, at + 2);
    FeedBit(g, c, bit, at + 3);
  }

  lemma StepFeeds(g: Word, c: Word, bit: bool)
    ensures RegisterOf(Feed(g, c, bit)) == Step(RegisterOf(g), RegisterOf(c), bit)
  {
    NibbleStep(g, c, bit, 28);
    NibbleStep(g, c, bit, 24);
    NibbleStep(g, c, bit, 20);
    NibbleStep(g, c, bit, 16);
    NibbleStep(g, c, bit, 12);
    NibbleStep(g, c, bit, 8);
    NibbleStep(g, c, bit, 4);
    NibbleStep(g, c, bit, 0);
  }

  // ---------------------------------------------------------------- numbers

  lemma LowDigit(w: Bits)
    requires |w| >= 4
    ensures Number(w) == Digit(NibbleAt(w, 0)) + 16 * Number(w[4..])
  {
    assert w[1..][1..] == w[2..] && w[2..][1..] == w[3..] && w[3..][1..] == w[4..];
    assert Number(w) == (if w[0] then 1 else 0) + 2 * Number(w[1..]);
    assert Number(w[1..]) == (if w[1] then 1 else 0) + 2 * Number(w[2..]);
    assert Number(w[2..]) == (if w[2] then 1 else 0) + 2 * Number(w[3..]);
    assert Number(w[3..]) == (if w[3] then 1 else 0) + 2 * Number(w[4..]);
  }

  lemma FourDigits(w: Bits)
    requires |w| >= 16
    ensures Number(w) == Digit(NibbleAt(w, 0)) + 0x10 * Digit(NibbleAt(w, 4)) + 0x100 * Digit(NibbleAt(w, 8))
                         + 0x1000 * Digit(NibbleAt(w, 12)) + 0x1_0000 * Number(w[16..])
  {
    LowDigit(w);
    LowDigit(w[4..]);
    LowDigit(w[8..]);
    LowDigit(w[12..]);
    assert w[4..][4..] == w[8..] && w[8..][4..] == w[12..] && w[12..][4..] == w[16..];
  }

  lemma Later(w: Word)
    ensures NibbleAt(w[16..], 0) == NibbleAt(w, 16) && NibbleAt(w[16..], 4) == NibbleAt(w, 20)
    ensures NibbleAt(w[16..], 8) == NibbleAt(w, 24) && NibbleAt(w[16..], 12) == NibbleAt(w, 28)
  {
  }

  lemma RegisterValue(w: Word)
    ensures Value(RegisterOf(w)) == Number(w)
  {
    FourDigits(w);
    FourDigits(w[16..]);
    Later(w);
    assert Number(w[16..][16..]) == 0;
  }

  lemma Peel(w: Bits, h: Nibble, later: nat)
    requires |w| >= 4 && Number(w) == Digit(h) + 16 * later
    ensures NibbleAt(w, 0) == h && Number(w[4..]) == later
  {
    LowDigit(w);
    DigitInjective(NibbleAt(w, 0), h, Number(w[4..]), later);
  }

  lemma DigitInjective(a: Nibble, b: Nibble, x: nat, y: nat)
    requires Digit(a) + 16 * x == Digit(b) + 16 * y
    ensures a == b && x == y
  {
  }

  lemma FourPeeled(w: Bits, h0: Nibble, h1: Nibble, h2: Nibble, h3: Nibble, v1: nat, v2: nat, v3: nat, later: nat)
    requires |w| >= 16 && Number(w) == Digit(h0) + 16 * v1
    requires v1 == Digit(h1) + 16 * v2 && v2 == Digit(h2) + 16 * v3 && v3 == Digit(h3) + 16 * later
    ensures NibbleAt(w, 0) == h0 && NibbleAt(w, 4) == h1 && NibbleAt(w, 8) == h2 && NibbleAt(w, 12) == h3
    ensures Number(w[16..]) == later
  {
    Peel(w, h0, v1);
    Peel(w[4..], h1, v2);
    assert w[4..][4..] == w[8..];
    Peel(w[8..], h2, v3);
    assert w[8..][4..] == w[12..];
    Peel(w[12..], h3, later);
    assert w[12..][4..] == w[16..];
  }

  /** The digits of a word are those of its number. */
  lemma DigitsOf(w: Word, r: Register)
    requires Number(w) == Value(r)
    ensures RegisterOf(w) == r
  {
    var v7: nat := Digit(r.h7);
    var v6: nat := Digit(r.h6) + 16 * v7;
    var v5: nat := Digit(r.h5) + 16 * v6;
    var v4: nat := Digit(r.h4) + 16 * v5;
    var v3: nat := Digit(r.h3) + 16 * v4;
    var v2: nat := Digit(r.h2) + 16 * v3;
    FourPeeled(w, r.h0, r.h1, r.h2, r.h3, Digit(r.h1) + 16 * v2, v2, v3, v4);
    FourPeeled(w[16..], r.h4, r.h5, r.h6, r.h7, v5, v6, v7, 0);
    Later(w);
  }

  /** Four bits in the order in which they enter the register. */
  function Four(h: Nibble): Bits {
    [h.b0, h.b1, h.b2, h.b3]
  }

  lemma FourFirst(h: Nibble, later: Bits)
    ensures NibbleAt(Four(h) + later, 0) == h && (Four(h) + later)[4..] == later
    ensures Number(Four(h) + later) == Digit(h) + 16 * Number(later)
  {
    LowDigit(Four(h) + later);
  }

  lemma BitsOfByte(v: byte, hi: Nibble, lo: Nibble)
    requires v == 16 * Digit(hi) + Digit(lo)
    ensures LowBits(v, 8) == Four(lo) + Four(hi)
  {
    assert Pow2(8) == 0x100;
    NumberOfLowBits(v, 8);
    FourFirst(hi, []);
    assert Four(hi) + [] == Four(hi);
    FourFirst(lo, Four(hi));
    NumberInjective(LowBits(v, 8), Four(lo) + Four(hi));
  }

  // ------------------------------------------------------------ whole strings

  function RunRegister(p: Register, r: Register, bits: Bits): Register
    decreases |bits|
  {
    if bits == [] then r else RunRegister(p, Step(p, r, bits[0]), bits[1..])
  }

  lemma {:induction false} RunsAlike(g: Word, c: Word, bits: Bits)
    ensures RegisterOf(Run(g, c, bits)) == RunRegister(RegisterOf(g), RegisterOf(c), bits)
    decreases |bits|
  {
    if bits != [] {
      StepFeeds(g, c, bits[0]);
      RunsAlike(g, Feed(g, c, bits[0]), bits[1..]);
    }
  }

  lemma OneStep(p: Register, r: Register, bits: Bits) returns (t: Register)
    requires bits != []
    ensures t == Step(p, r, bits[0]) && RunRegister(p, r, bits) == RunRegister(p, t, bits[1..])
  {
    t := Step(p, r, bits[0]);
  }

  /** Half a byte, with the register after each of its bits. */
  lemma FourSteps(p: Register, r: Register, h: Nibble, later: Bits)
    returns (r1: Register, r2: Register, r3: Register, r4: Register)
    ensures RunRegister(p, r, Four(h) + later) == RunRegister(p, r4, later)
    ensures r1 == Step(p, r, h.b0) && r2 == Step(p, r1, h.b1) && r3 == Step(p, r2, h.b2) && r4 == Step(p, r3, h.b3)
  {
    var bits := Four(h) + later;
    assert bits[1..][1..] == bits[2..] && bits[2..][1..] == bits[3..] && bits[3..][1..] == later;
    r1 := OneStep(p, r, bits);
    r2 := OneStep(p, r1, bits[1..]);
    r3 := OneStep(p, r2, bits[2..]);
    r4 := OneStep(p, r3, bits[3..]);
  }

  lemma TwoHalves(data: Bytes, hi: Nibble, lo: Nibble)
    requires data != [] && data[0] == 16 * Digit(hi) + Digit(lo)
    ensures BitsOf(data) == Four(lo) + (Four(hi) + BitsOf(data[1..]))
  {
    BitsOfByte(data[0], hi, lo);
    Regroup(Four(lo), Four(hi), BitsOf(data[1..]));
  }

  lemma Regroup(a: Bits, b: Bits, c: Bits)
    ensures a + b + c == a + (b + c)
  {
  }

  /** The next byte of some data, with the register after each of its bits. */
  lemma EightSteps(p: Register, r: Register, data: Bytes, hi: Nibble, lo: Nibble)
    returns (r1: Register, r2: Register, r3: Register, r4: Register, r5: Register, r6: Register, r7: Register,
             r8: Register)
    requires data != [] && data[0] == 16 * Digit(hi) + Digit(lo)
    ensures RunRegister(p, r, BitsOf(data)) == RunRegister(p, r8, BitsOf(data[1..]))
    ensures r1 == Step(p, r, lo.b0) && r2 == Step(p, r1, lo.b1) && r3 == Step(p, r2, lo.b2)
    ensures r4 == Step(p, r3, lo.b3) && r5 == Step(p, r4, hi.b0) && r6 == Step(p, r5, hi.b1)
    ensures r7 == Step(p, r6, hi.b2) && r8 == Step(p, r7, hi.b3)
  {
    var later := BitsOf(data[1..]);
    TwoHalves(data, hi, lo);
    r1, r2, r3, r4 := FourSteps(p, r, lo, Four(hi) + later);
    r5, r6, r7, r8 := FourSteps(p, r4, hi, later);
  }

  // ------------------------------------------------------------- the values

  const ALL_ONES: Register := Register(HF, HF, HF, HF, HF, HF, HF, HF)

  // Three bytes a lemma, with the register after each of them; the first register is the one left by the bytes before.

  lemma CastagnoliTrace0(p: Register, r: Register, d: Bytes)
    requires p == Register(H8, H2, HF, H6, H3, HB, H7, H8) && r == Register(HF, HF, HF, HF, HF, HF, HF, HF)
    requires |d| >= 3 && d[0] == 49 && d[1] == 50 && d[2] == 51
    ensures RunRegister(p, r, BitsOf(d)) == RunRegister(p, Register(HE, HF, H8, H4, HD, H0, H4, HD), BitsOf(d[3..]))
  {
    var t1, t2, t3, t4, t5, t6, t7, t8;
    t1, t2, t3, t4, t5, t6, t7, t8 := EightSteps(p, r, d, H3, H1);
    assert t8 == Register(H6, HF, H0, HA, H6, H6, H1, HC);
    t1, t2, t3, t4, t5, t6, t7, t8 := EightSteps(p, t8, d[1..], H3, H2);
    assert t8 == Register(H8, HC, HA, HA, H3, HB, H9, HF);
    t1, t2, t3, t4, t5, t6, t7, t8 := EightSteps(p, t8, d[2..], H3, H3);
    assert t8 == Register(HE, HF, H8, H4, HD, H0, H4, HD);
    assert d[1..][1..] == d[2..] && d[2..][1..] == d[3..];
  }

  lemma CastagnoliTrace1(p: Register, r: Register, d: Bytes)
    requires p == Register(H8, H2, HF, H6, H3, HB, H7, H8) && r == Register(HE, HF, H8, H4, HD, H0, H4, HD)
    requires |d| >= 3 && d[0] == 52 && d[1] == 53 && d[2] == 54
    ensures RunRegister(p, r, BitsOf(d)) == RunRegister(p, Register(HB, HE, HC, HA, H8, HE, H7, H9), BitsOf(d[3..]))
  {
    var t1, t2, t3, t4, t5, t6, t7, t8;
    t1, t2, t3, t4, t5, t6, t7, t8 := EightSteps(p, r, d, H3, H4);
    assert t8 == Register(H0, H9, HC, H5, H0, HB, H1, H1);
    t1, t2, t3, t4, t5, t6, t7, t8 := EightSteps(p, t8, d[1..], H3, H5);
    assert t8 == Register(HE, H7, H2, HE, HD, HC, HC, HA);
    t1, t2, t3, t4, t5, t6, t7, t8 := EightSteps(p, t8, d[2..], H3, H6);
    assert t8 == Register(HB, HE, HC, HA, H8, HE, H7, H9);
    assert d[1..][1..] == d[2..] && d[2..][1..] == d[3..];
  }

  lemma CastagnoliTrace2(p: Register, r: Register, d: Bytes)
    requires p == Register(H8, H2, HF, H6, H3, HB, H7, H8) && r == Register(HB, HE, HC, HA, H8, HE, H7, H9)
    requires |d| >= 3 && d[0] == 55 && d[1] == 56 && d[2] == 57
    ensures RunRegister(p, r, BitsOf(d)) == RunRegister(p, Register(H1, HC, HF, H9, H6, HD, H7, HC), BitsOf(d[3..]))
  {
    var t1, t2, t3, t4, t5, t6, t7, t8;
    t1, t2, t3, t4, t5, t6, t7, t8 := EightSteps(p, r, d, H3, H7);
    assert t8 == Register(HE, HD, HB, HD, H6, H8, H1, H5);
    t1, t2, t3, t4, t5, t6, t7, t8 := EightSteps(p, t8, d[1..], H3, H8);
    assert t8 == Register(H9, HF, H7, H8, H7, HF, H6, H5);
    t1, t2, t3, t4, t5, t6, t7, t8 := EightSteps(p, t8, d[2..], H3, H9);
    assert t8 == Register(H1, HC, HF, H9, H6, HD, H7, HC);
    assert d[1..][1..] == d[2..] && d[2..][1..] == d[3..];
  }

  lemma IeeeTrace0(p: Register, r: Register, d: Bytes)
    requires p == Register(HE, HD, HB, H8, H8, H3, H2, H0) && r == Register(HF, HF, HF, HF, HF, HF, HF, HF)
    requires |d| >= 3 && d[0] == 49 && d[1] == 50 && d[2] == 51
    ensures RunRegister(p, r, BitsOf(d)) == RunRegister(p, Register(H7, H7, HB, H7, H9, HC, H2, HD), BitsOf(d[3..]))
  {
    var t1, t2, t3, t4, t5, t6, t7, t8;
    t1, t2, t3, t4, t5, t6, t7, t8 := EightSteps(p, r, d, H3, H1);
    assert t8 == Register(H7, HC, H2, H3, H1, H0, H4, H8);
    t1, t2, t3, t4, t5, t6, t7, t8 := EightSteps(p, t8, d[1..], H3, H2);
    assert t8 == Register(HB, H0, HA, HC, HB, HB, H3, H2);
    t1, t2, t3, t4, t5, t6, t7, t8 := EightSteps(p, t8, d[2..], H3, H3);
    assert t8 == Register(H7, H7, HB, H7, H9, HC, H2, HD);
    assert d[1..][1..] == d[2..] && d[2..][1..] == d[3..];
  }

  lemma IeeeTrace1(p: Register, r: Register, d: Bytes)
    requires p == Register(HE, HD, HB, H8, H8, H3, H2, H0) && r == Register(H7, H7, HB, H7, H9, HC, H2, HD)
    requires |d| >= 3 && d[0] == 52 && d[1] == 53 && d[2] == 54
    ensures RunRegister(p, r, BitsOf(d)) == RunRegister(p, Register(HF, H6, H8, HD, H2, HC, H9, HE), BitsOf(d[3..]))
  {
    var t1, t2, t3, t4, t5, t6, t7, t8;
    t1, t2, t3, t4, t5, t6, t7, t8 := EightSteps(p, r, d, H3, H4);
    assert t8 == Register(H6, H4, H1, HC, H1, HF, H5, HC);
    t1, t2, t3, t4, t5, t6, t7, t8 := EightSteps(p, t8, d[1..], H3, H5);
    assert t8 == Register(H3, H4, H0, HA, HC, H5, HE, H3);
    t1, t2, t3, t4, t5, t6, t7, t8 := EightSteps(p, t8, d[2..], H3, H6);
    assert t8 == Register(HF, H6, H8, HD, H2, HC, H9, HE);
    assert d[1..][1..] == d[2..] && d[2..][1..] == d[3..];
  }

  lemma IeeeTrace2(p: Register, r: Register, d: Bytes)
    requires p == Register(HE, HD, HB, H8, H8, H3, H2, H0) && r == Register(HF, H6, H8, HD, H2, HC, H9, HE)
    requires |d| >= 3 && d[0] == 55 && d[1] == 56 && d[2] == 57
    ensures RunRegister(p, r, BitsOf(d)) == RunRegister(p, Register(H3, H4, H0, HB, HC, H6, HD, H9), BitsOf(d[3..]))
  {
    var t1, t2, t3, t4, t5, t6, t7, t8;
    t1, t2, t3, t4, t5, t6, t7, t8 := EightSteps(p, r, d, H3, H7);
    assert t8 == Register(HA, HF, HF, HC, H9, H6, H6, H0);
    t1, t2, t3, t4, t5, t6, t7, t8 := EightSteps(p, t8, d[1..], H3, H8);
    assert t8 == Register(H6, H5, H1, HF, H2, H5, H5, H0);
    t1, t2, t3, t4, t5, t6, t7, t8 := EightSteps(p, t8, d[2..], H3, H9);
    assert t8 == Register(H3, H4, H0, HB, HC, H6, HD, H9);
    assert d[1..][1..] == d[2..] && d[2..][1..] == d[3..];
  }

  lemma OnesAt(i: nat)
    requires i < 32
    ensures ONES[i]
  {
    assert ONES == seq(32, _ => true);
  }

  lemma Flipped(c: Word, at: nat)
    requires at + 4 <= 32
    ensures Digit(NibbleAt(Xor(c, ONES), at)) == 15 - Digit(NibbleAt(c, at))
  {
    OnesAt(at);
    OnesAt(at + 1);
    OnesAt(at + 2);
    OnesAt(at + 3);
  }

  /** The register is complemented at the end. */
  lemma Complemented(c: Word)
    ensures Number(Xor(c, ONES)) == 0xFFFF_FFFF - Value(RegisterOf(c))
  {
    RegisterValue(Xor(c, ONES));
    Flipped(c, 0);
    Flipped(c, 4);
    Flipped(c, 8);
    Flipped(c, 12);
    Flipped(c, 16);
    Flipped(c, 20);
    Flipped(c, 24);
    Flipped(c, 28);
  }

  lemma CrcOfTrace(g: Word, data: Bytes, p: Register, r: Register)
    requires Number(g) == Value(p) && RunRegister(p, ALL_ONES, BitsOf(data)) == r
    ensures Crc(g, data) == 0xFFFF_FFFF - Value(r)
  {
    DigitsOf(g, p);
    assert RegisterOf(ONES) == ALL_ONES;
    RunsAlike(g, ONES, BitsOf(data));
    Complemented(Run(g, ONES, BitsOf(data)));
  }

  lemma CastagnoliRun(p: Register, d: Bytes)
    requires p == Register(H8, H2, HF, H6, H3, HB, H7, H8) && d == [49, 50, 51, 52, 53, 54, 55, 56, 57]
    ensures RunRegister(p, ALL_ONES, BitsOf(d)) == Register(H1, HC, HF, H9, H6, HD, H7, HC)
  {
    CastagnoliTrace0(p, ALL_ONES, d);
    CastagnoliTrace1(p, Register(HE, HF, H8, H4, HD, H0, H4, HD), d[3..]);
    CastagnoliTrace2(p, Register(HB, HE, HC, HA, H8, HE, H7, H9), d[6..]);
    assert d[3..][3..] == d[6..] && d[6..][3..] == [];
  }

  lemma CastagnoliCheck(g: Word, d: Bytes)
    requires Number(g) == 0x82F6_3B78 && d == [49, 50, 51, 52, 53, 54, 55, 56, 57]
    ensures Crc(g, d) == 0xE306_9283
  {
    var p := Register(H8, H2, HF, H6, H3, HB, H7, H8);
    CastagnoliRun(p, d);
    CrcOfTrace(g, d, p, Register(H1, HC, HF, H9, H6, HD, H7, HC));
  }

  lemma IeeeRun(p: Register, d: Bytes)
    requires p == Register(HE, HD, HB, H8, H8, H3, H2, H0) && d == [49, 50, 51, 52, 53, 54, 55, 56, 57]
    ensures RunRegister(p, ALL_ONES, BitsOf(d)) == Register(H3, H4, H0, HB, HC, H6, HD, H9)
  {
    IeeeTrace0(p, ALL_ONES, d);
    IeeeTrace1(p, Register(H7, H7, HB, H7, H9, HC, H2, HD), d[3..]);
    IeeeTrace2(p, Register(HF, H6, H8, HD, H2, HC, H9, HE), d[6..]);
    assert d[3..][3..] == d[6..] && d[6..][3..] == [];
  }

  lemma IeeeCheck(g: Word, d: Bytes)
    requires Number(g) == 0xEDB8_8320 && d == [49, 50, 51, 52, 53, 54, 55, 56, 57]
    ensures Crc(g, d) == 0xCBF4_3926
  {
    var p := Register(HE, HD, HB, H8, H8, H3, H2, H0);
    IeeeRun(p, d);
    CrcOfTrace(g, d, p, Register(H3, H4, H0, HB, HC, H6, HD, H9));
  }

  /** The published check values of CRC-32C and of the CRC of IEEE 802.3, for the nine bytes of "123456789". */
  lemma CheckValues(d: Bytes)
    requires d == [49, 50, 51, 52, 53, 54, 55, 56, 57]
    ensures CRC32(d) == 0xE306_9283 && Crc(IEEE, d) == 0xCBF4_3926
  {
    GeneratorNumbers();
    CastagnoliCheck(CASTAGNOLI, d);
    IeeeCheck(IEEE, d);
  }
}
