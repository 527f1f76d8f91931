/** Byte strings and digests shared by the server tree, the client verifier
    and the encryption layer. */
module Bytes {

  newtype byte = b: int | 0 <= b < 256

  /** A stored hash value. Nodes that were never hashed hold the empty
      string, so a `Hash` is not always 32 bytes long. */
  type Hash = seq<byte>

  /** Length of a SHA-256 output. */
  const DigestLen: nat := 32

  /** What the hash function returns: always exactly 32 bytes. */
  type Digest = s: seq<byte> | |s| == DigestLen
    witness [0, 0, 0, 0, 0, 0, 0, 0, 0, 0, 0, 0, 0, 0, 0, 0,
             0, 0, 0, 0, 0, 0, 0, 0, 0, 0, 0, 0, 0, 0, 0, 0]

  datatype Option<+T> = None | Some(value: T)
}
