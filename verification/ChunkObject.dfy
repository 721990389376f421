/** The chunk as the mutable record it is in memory: flag setters and the deep copy. */
module ChunkObject {
  import opened Basics
  import opened Core

  class ChunkCell {
    var header: Chunk       // every field but the two byte slices
    var data: array<byte>
    var checksumBytes: array<byte>

    /** The chunk this object holds. */
    function Value(): Chunk
      reads this, data, checksumBytes
    {
      header.(data := data[..], checksumBytes := checksumBytes[..])
    }

    constructor (c: Chunk)
      ensures Value() == c && fresh(data) && fresh(checksumBytes) && data != checksumBytes
    {
      header := c;
      data := new byte[|c.data|](i requires 0 <= i < |c.data| => c.data[i]);
      checksumBytes := new byte[|c.checksumBytes|](i requires 0 <= i < |c.checksumBytes| => c.checksumBytes[i]);
      new;
      assert data[..] == c.data && checksumBytes[..] == c.checksumBytes;
    }

    /** Sets or clears one flag and leaves the other seven bits and every other field alone. */
    method SetLast(last: bool)
      modifies this`header
      ensures IsLast(Value()) == last
      ensures Value().flags / 2 == old(Value()).flags / 2
      ensures Value() == old(Value()).(flags := Value().flags)
      ensures data == old(data) && checksumBytes == old(checksumBytes)
    {
      var f := header.flags;
      if last && f % 2 == 0 {
        header := header.(flags := f + 1);
      } else if !last && f % 2 == 1 {
        header := header.(flags := f - 1);
      }
    }

    method SetCompressed(compressed: bool)
      modifies this`header
      ensures IsCompressed(Value()) == compressed
      ensures Value().flags / 4 == old(Value()).flags / 4 && Value().flags % 2 == old(Value()).flags % 2
      ensures Value() == old(Value()).(flags := Value().flags)
      ensures data == old(data) && checksumBytes == old(checksumBytes)
    {
      var f := header.flags;
      assert f == 4 * (f / 4) + 2 * (f / 2 % 2) + f % 2;
      if compressed && f / 2 % 2 == 0 {
        header := header.(flags := f + 2);
      } else if !compressed && f / 2 % 2 == 1 {
        header := header.(flags := f - 2);
      }
    }

    /** The two checksum fields, the bytes in storage of their own. */
    method SetChecksum(low: uint32, full: Bytes)
      modifies this`header, this`checksumBytes
      ensures Value() == old(Value()).(checksum := low, checksumBytes := full)
      ensures data == old(data) && fresh(checksumBytes)
    {
      checksumBytes := new byte[|full|](i requires 0 <= i < |full| => full[i]);
      assert checksumBytes[..] == full;
      header := header.(checksum := low);
    }

    /** Clone: an equal chunk that shares no storage with this one, so writing to either leaves the other alone. */
    method Clone() returns (c: ChunkCell)
      ensures c.Value() == Value()
      ensures fresh(c) && fresh(c.data) && fresh(c.checksumBytes)
    {
      c := new ChunkCell(Value());
    }
  }
}
