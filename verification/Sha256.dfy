/** SHA-256 as a free term algebra: a digest of plain bytes, a digest of the 64-byte
    concatenation of two digests, and the all-zero array, which no input hashes to. */
module Sha256 {
  import opened Common

  datatype Digest =
    | Zero
    | OfBytes(data: Bytes)
    | OfPair(left: Digest, right: Digest)

  function Sum256(data: Bytes): Digest {
    OfBytes(data)
  }

  function SumPair(left: Digest, right: Digest): Digest {
    OfPair(left, right)
  }
}
