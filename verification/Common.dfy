/** Types shared by the whole model. */
module Common {
  datatype Option<T> = None | Some(value: T)
  datatype Result<T, E> = Ok(value: T) | Err(error: E)

  type Byte = x: int | 0 <= x < 256

  /** A SHA-256 value, kept as its number. The hash function itself is always a parameter. */
  datatype Digest = Digest(value: nat)

  /** A transfer is named by a UUID, kept as its 128-bit number. */
  datatype TransferId = Uuid(bits: nat)

  /** How an atomic file replacement ends: it works, or fails with the old or with the new file in place. */
  datatype WriteResult = Written | FailedBefore | FailedAfter

  const UINT64_MAX: int := 0xFFFF_FFFF_FFFF_FFFF
}
