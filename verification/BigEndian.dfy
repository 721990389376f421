/** encoding/binary's big-endian integers, including the silent narrowing of oversized values. */
module BigEndian {
  import opened Basics

  const TWO_64: int := 0x1_0000_0000_0000_0000

  function Pow256(n: nat): (p: nat)
    ensures p > 0
  {
    if n == 0 then 1 else 256 * Pow256(n - 1)
  }

  /** The low `width` bytes of v, most significant first: higher bytes are dropped, as uint16(n) does. */
  function PutUint(v: nat, width: nat): (b: Bytes)
    ensures |b| == width
  {
    if width == 0 then [] else PutUint(v / 256, width - 1) + [v % 256]
  }

  function GetUint(b: Bytes): nat {
    if b == [] then 0 else GetUint(b[..|b| - 1]) * 256 + b[|b| - 1]
  }

  lemma {:induction false} GetBound(b: Bytes)
    ensures GetUint(b) < Pow256(|b|)
  {
    if b != [] {
      GetBound(b[..|b| - 1]);
    }
  }

  /** The order of the bytes: the first is the most significant. */
  lemma {:induction false} MostSignificantFirst(b: Bytes)
    requires b != []
    ensures GetUint(b) == b[0] * Pow256(|b| - 1) + GetUint(b[1..])
  {
    if |b| > 1 {
      var front := b[..|b| - 1];
      MostSignificantFirst(front);
      assert b[1..][..|b| - 2] == front[1..];
    }
  }

  lemma {:induction false} GetAfterPut(v: nat, width: nat)
    requires v < Pow256(width)
    ensures GetUint(PutUint(v, width)) == v
  {
    if width > 0 {
      GetAfterPut(v / 256, width - 1);
      assert PutUint(v, width)[..width - 1] == PutUint(v / 256, width - 1);
    }
  }

  lemma RemainderUnique(x: nat, k: nat, q: nat, r: nat)
    requires r < k && x == q * k + r
    ensures x % k == r
  {
    var p := x / k;
    assert x == p * k + x % k;
    if p < q {
      assert (p + 1) * k <= q * k by { MulMonotone(p + 1, q, k); }
    } else if q < p {
      assert (q + 1) * k <= p * k by { MulMonotone(q + 1, p, k); }
    }
  }

  lemma {:induction false} MulMonotone(a: nat, b: nat, k: nat)
    requires a <= b
    ensures a * k <= b * k
    decreases b
  {
    if a < b {
      MulMonotone(a, b - 1, k);
    }
  }

  lemma FactorOut(a: nat, p: nat)
    ensures a * (256 * p) == 256 * (a * p)
  {
  }

  lemma OneByteMore(q: nat, b: byte, p: nat)
    requires p > 0
    ensures (256 * q + b) % (256 * p) == 256 * (q % p) + b
  {
    var a, r := q / p, q % p;
    assert q == a * p + r;
    FactorOut(a, p);
    RemainderUnique(256 * q + b, 256 * p, a, 256 * r + b);
  }

  /** Whatever the value, the field holds it modulo the size of the field: higher bytes are lost silently. */
  lemma {:induction false} PutNarrows(v: nat, width: nat)
    ensures GetUint(PutUint(v, width)) == v % Pow256(width)
    decreases width
  {
    if width > 0 {
      PutNarrows(v / 256, width - 1);
      assert PutUint(v, width)[..width - 1] == PutUint(v / 256, width - 1);
      OneByteMore(v / 256, v % 256, Pow256(width - 1));
    }
  }

  lemma Widths()
    ensures Pow256(1) == 0x100
    ensures Pow256(2) == 0x1_0000
    ensures Pow256(4) == 0x1_0000_0000
    ensures Pow256(8) == TWO_64
  {
    assert Pow256(3) == 0x100_0000;
    assert Pow256(5) == 0x100_0000_0000;
    assert Pow256(6) == 0x1_0000_0000_0000;
    assert Pow256(7) == 0x100_0000_0000_0000;
  }

  /** Two's complement: a negative number is written as its value modulo 2^64. */
  function PutInt64(x: int64): (b: Bytes)
    ensures |b| == 8
  {
    PutUint(if x < 0 then x + TWO_64 else x, 8)
  }

  function GetInt64(b: Bytes): int64
    requires |b| == 8
  {
    Widths();
    GetBound(b);
    var u := GetUint(b);
    if u <= MAX_INT64 then u else u - TWO_64
  }

  /** The unsigned reading of the eight bytes: two's complement. */
  lemma TwosComplement(x: int64)
    ensures GetUint(PutInt64(x)) == if x < 0 then x + 0x1_0000_0000_0000_0000 else x
  {
    Widths();
    GetAfterPut(if x < 0 then x + TWO_64 else x, 8);
  }

  /** The first bit is the sign. */
  lemma SignBit(b: Bytes)
    requires |b| == 8
    ensures GetInt64(b) == if b[0] >= 128 then GetUint(b) - 0x1_0000_0000_0000_0000 else GetUint(b)
  {
    Widths();
    assert Pow256(7) == 0x100_0000_0000_0000;
    MostSignificantFirst(b);
    GetBound(b[1..]);
  }

  lemma Int64RoundTrip(x: int64)
    ensures GetInt64(PutInt64(x)) == x
  {
    Widths();
    GetAfterPut(if x < 0 then x + TWO_64 else x, 8);
  }
}
