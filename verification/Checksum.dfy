/** Chunk checksums (pkg/checksum/checksum.go): CRC-32C in full, SHA-256 as an unknown function. */
module Checksum {
  import opened Basics
  import opened BigEndian
  import opened Core
  import opened Crc32c

  type Digest = d: Bytes | |d| == 32 witness [
    0, 0, 0, 0, 0, 0, 0, 0, 0, 0, 0, 0, 0, 0, 0, 0, 0, 0, 0, 0, 0, 0, 0, 0, 0, 0, 0, 0, 0, 0, 0, 0]

  // SHA-256 enters only as some function from byte strings to 32-byte digests.
  type Sha256 = Bytes -> Digest

  datatype Sum = Sum(low: uint32, full: Bytes)

  /** Hasher.Compute of the hasher GetDefaultHasher selects: an unknown type is not checked at all. */
  function Compute(sha: Sha256, checksumType: byte, data: Bytes): Sum {
    if checksumType == CHECKSUM_CRC32 then
      Sum(CRC32(data), PutUint(CRC32(data), 4))
    else if checksumType == CHECKSUM_SHA256 then
      var digest := sha(data);
      Widths();
      GetBound(digest[28..]);
      Sum(GetUint(digest[28..]), digest)
    else
      Sum(0, [])
  }

  /** Hasher.Verify: CRC compares the 32-bit field, SHA-256 only the full digest. */
  predicate Verify(sha: Sha256, c: Chunk) {
    if c.checksumType == CHECKSUM_CRC32 then c.checksum == CRC32(c.data)
    else if c.checksumType == CHECKSUM_SHA256 then c.checksumBytes == sha(c.data)
    else true
  }

  /** A chunk carrying its own computed checksum is accepted, for every checksum type. */
  lemma ComputedChecksumVerifies(sha: Sha256, c: Chunk)
    requires Sum(c.checksum, c.checksumBytes) == Compute(sha, c.checksumType, c.data)
    ensures Verify(sha, c)
  {
    assert c.checksum == Compute(sha, c.checksumType, c.data).low;
    assert c.checksumBytes == Compute(sha, c.checksumType, c.data).full;
  }

  /** The 32-bit field of a CRC chunk and its 4-byte form always agree. */
  lemma Crc32BytesAgree(sha: Sha256, data: Bytes)
    ensures |Compute(sha, CHECKSUM_CRC32, data).full| == 4
    ensures GetUint(Compute(sha, CHECKSUM_CRC32, data).full) == Compute(sha, CHECKSUM_CRC32, data).low
  {
    Widths();
    GetAfterPut(CRC32(data), 4);
  }

  /** SHA-256 gives the whole digest and, in the 32-bit field, its last four bytes; any other type gives nothing. */
  lemma OtherSums(sha: Sha256, checksumType: byte, data: Bytes)
    ensures var sum, d := Compute(sha, checksumType, data), sha(data);
            && (checksumType == 2 ==>
                  && sum.full == d
                  && sum.low == FourBytes(d[28], d[29], d[30], d[31]))
            && (checksumType != 1 && checksumType != 2 ==> sum == Sum(0, []))
  {
    if checksumType == 2 {
      LastFour(sha(data));
    }
  }

  function FourBytes(a: int, b: int, c: int, d: int): int {
    0x100_0000 * a + 0x1_0000 * b + 0x100 * c + d
  }

  lemma LastFour(d: Digest)
    ensures GetUint(d[28..]) == FourBytes(d[28], d[29], d[30], d[31])
  {
    var b := d[28..];
    assert b[..3][..2] == b[..2] && b[..2][..1] == b[..1] && b[..1][..0] == [];
    assert GetUint(b[..1]) == b[0];
    assert GetUint(b[..2]) == FourBytes(0, 0, b[0], b[1]);
  }

  /** A verified CRC chunk whose data is changed within four consecutive bytes no longer verifies. */
  lemma BurstRejected(sha: Sha256, c: Chunk, before: Bytes, w: Bytes, v: Bytes, after: Bytes)
    requires c.checksumType == CHECKSUM_CRC32 && Verify(sha, c)
    requires c.data == before + w + after
    requires |w| == |v| <= 4 && w != v
    ensures !Verify(sha, c.(data := before + v + after))
  {
    ByteBurstChangesCRC32(before, w, v, after);
  }

  /** SHA256Hasher.Verify: the length test and the comparison loop. */
  method VerifySha256(sha: Sha256, c: Chunk) returns (ok: bool)
    ensures ok <==> c.checksumBytes == sha(c.data)
  {
    var full := sha(c.data);
    if |c.checksumBytes| != |full| {
      return false;
    }
    for i := 0 to |full|
      invariant c.checksumBytes[..i] == full[..i]
    {
      if c.checksumBytes[i] != full[i] {
        return false;
      }
    }
    assert c.checksumBytes == c.checksumBytes[..|full|] && full == full[..|full|];
    return true;
  }

  /** The dispatch over hashers in WriteChunk. */
  method VerifyChunk(sha: Sha256, c: Chunk) returns (ok: bool)
    ensures ok <==> Verify(sha, c)
  {
    if c.checksumType == CHECKSUM_CRC32 {
      ok := c.checksum == CRC32(c.data);
    } else if c.checksumType == CHECKSUM_SHA256 {
      ok := VerifySha256(sha, c);
    } else {
      ok := true;
    }
  }

  /** CumulativeStreamHasher: the digest of everything fed. */
  class CumulativeStreamHasher {
    const sha: Sha256
    var fed: Bytes

    constructor (sha: Sha256)
      ensures this.sha == sha && fed == []
    {
      this.sha := sha;
      fed := [];
    }

    method Update(data: Bytes)
      modifies this
      ensures fed == old(fed) + data
    {
      fed := fed + data;
    }

    method Sum() returns (digest: Bytes)
      ensures digest == sha(fed)
    {
      digest := sha(fed);
    }
  }
}
