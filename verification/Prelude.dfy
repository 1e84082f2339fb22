/**
 Byte strings, Go's fixed-width integers, failure-compatible results, and the cryptographic
 functions that the protocol takes as given.
 */
module Prelude {

  type byte = x: int | 0 <= x < 0x100
  type bytes = seq<byte>

  const MIN_INT64 := -0x8000_0000_0000_0000
  const MAX_INT64 := 0x7fff_ffff_ffff_ffff
  const TWO_TO_THE_64 := 0x1_0000_0000_0000_0000

  type int64 = x: int | MIN_INT64 <= x <= MAX_INT64
  type uint64 = x: int | 0 <= x < TWO_TO_THE_64

  /** Go's conversion uint64(i). */
  function ToUint64(i: int64): uint64 {
    if i < 0 then i + TWO_TO_THE_64 else i
  }

  /** Go's conversion int64(u). */
  function ToInt64(u: uint64): int64 {
    if u > MAX_INT64 then u - TWO_TO_THE_64 else u
  }

  predicate FitsInt64(x: int) {
    MIN_INT64 <= x <= MAX_INT64
  }

  /** A 32-byte digest. */
  type Hash = h: bytes | |h| == 32 witness seq(32, _ => 0)

  function ZeroHash(): Hash {
    seq(32, _ => 0)
  }

  /** Cryptographic primitives. Nothing is assumed of them beyond their types. */
  datatype Crypto = Crypto(
    vmHash: (string, bytes) -> Hash,
    sha3: bytes -> Hash,
    sha256: bytes -> Hash,
    verify: (bytes, bytes, bytes) -> bool)

  datatype Option<+T> = None | Some(value: T)

  datatype Result<+T, +E> = Ok(value: T) | Err(error: E) {
    predicate IsFailure() { Err? }

    function PropagateFailure<U>(): Result<U, E>
      requires Err?
    {
      Err(error)
    }

    function Extract(): T
      requires Ok?
    {
      value
    }
  }

  datatype Outcome<+E> = Pass | Fail(error: E) {
    predicate IsFailure() { Fail? }

    function PropagateFailure<U>(): Result<U, E>
      requires Fail?
    {
      Err(error)
    }
  }

  function Need<E>(condition: bool, error: E): Outcome<E> {
    if condition then Pass else Fail(error)
  }
}
