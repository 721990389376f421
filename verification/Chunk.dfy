/** The chunk envelope (pkg/core/chunk.go) and the errors of the packages that handle it. */
module Core {
  import opened Basics

  datatype Error =
    | EOF
    | UnexpectedEOF
    | InvalidMagicHeader
    | UnsupportedVersion
    | ChecksumMismatch
    | SessionMismatch
    | StreamIncomplete
    | ReorderBufferFull
    | StreamCompleted
    | DecompressionFailed
    | NoDecompressor
    | WriteFailed
    | ReadFailed
    | Cancelled

  const CHECKSUM_NONE: byte := 0
  const CHECKSUM_CRC32: byte := 1
  const CHECKSUM_SHA256: byte := 2

  const FLAG_IS_LAST: byte := 1
  const FLAG_IS_COMPRESSED: byte := 2

  datatype Chunk = Chunk(
    sessionID: Bytes,
    sequence: int64,
    offset: int64,
    totalChunks: int64,
    totalBytes: int64,
    data: Bytes,
    checksum: uint32,
    checksumBytes: Bytes,
    checksumType: byte,
    flags: byte,
    metadata: map<Bytes, Bytes>)

  // Bit 0 of the flags.
  predicate IsLast(c: Chunk) {
    c.flags % 2 == 1
  }

  // Bit 1 of the flags.
  predicate IsCompressed(c: Chunk) {
    c.flags / 2 % 2 == 1
  }
}
