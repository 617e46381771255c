/** Transaction hashes, short ids and the `TransactionInfo` record shared by the cache and the codecs. */
module Transactions {
  import opened Wrappers
  import opened Bytes

  const SHA256_HASH_LEN: nat := 32

  /** The short id that means "no short id". */
  const NULL_TX_SID: int := 0

  /** A transaction or block hash: an opaque 32-byte key. */
  type Sha256Hash = h: seq<byte> | |h| == SHA256_HASH_LEN witness Zeros(SHA256_HASH_LEN)

  /** `TransactionInfo(hash, contents, short_id)`; hash and contents may be absent. */
  datatype TransactionInfo = TransactionInfo(hash: Option<Sha256Hash>, contents: Option<seq<byte>>, shortId: int)
}
