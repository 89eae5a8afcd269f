/** Content digests and the tables of functions the model leaves uninterpreted. */
module Digests {
  import opened Encoding

  type Bytes = seq<Byte>

  type Namespace = string

  /** The name of a blob: what hashed it, the hash in hexadecimal, and its length. */
  datatype Digest = Digest(algorithm: string, hash: string, size: U64)

  /** A known algorithm and 64 lower-case hexadecimal digits. */
  predicate ValidDigest(d: Digest) {
    && (d.algorithm == "blake3" || d.algorithm == "sha256")
    && |d.hash| == 64
    && (forall i | 0 <= i < |d.hash| :: IsLowerHex(d.hash[i]))
  }

  /** BLAKE3 and SHA-256 as a function from the algorithm's name and the bytes fed so far. */
  type Hasher = (string, Bytes) -> string

  /** The bytes are what the digest declares. */
  predicate Matches(hasher: Hasher, d: Digest, bytes: Bytes) {
    |bytes| == d.size && hasher(d.algorithm, bytes) == d.hash
  }

  /** Whether a put wrote the object or found it there. */
  datatype PutOutcome = Created | AlreadyExists
}
