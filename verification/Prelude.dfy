/** Result types, byte strings and the hash function shared by every module. */
module Prelude {
  datatype Option<+T> = None | Some(value: T)

  datatype Result<+T, +E> = Success(value: T) | Failure(error: E) {
    predicate IsFailure() { Failure? }

    function PropagateFailure<U>(): Result<U, E>
      requires Failure?
    {
      Failure(error)
    }

    function Extract(): T
      requires Success?
    {
      value
    }
  }

  newtype byte = x: int | 0 <= x < 0x100

  /** Byte strings; Go strings are byte strings too, so texts, keys and IDs have this type. */
  type bytes = seq<byte>

  const U64_LIMIT: nat := 0x1_0000_0000_0000_0000
  type U64 = n: nat | n < U64_LIMIT

  const MAX_INT64: int := 0x7FFF_FFFF_FFFF_FFFF
  type Int64 = x: int | -MAX_INT64 - 1 <= x <= MAX_INT64

  type Hash = h: bytes | |h| == 32 witness seq(32, _ => 0)

  /** An arbitrary function from byte strings to 32 bytes: nothing else is assumed about it,
      in particular not injectivity. */
  const SHA256: bytes -> Hash

  /** A pair of byte strings offered as evidence against SHA256. */
  datatype Collision = Collision(left: bytes, right: bytes)

  predicate Collides(c: Collision) {
    c.left != c.right && SHA256(c.left) == SHA256(c.right)
  }

  /** The bytes of an ASCII text. */
  function Ascii(text: string): (r: bytes)
    ensures |r| == |text|
  {
    seq(|text|, i requires 0 <= i < |text| => (text[i] as int % 0x80) as byte)
  }

  /** An io.Reader: the bytes it delivers and whether it then reports an error instead of the end. */
  datatype Reader = Reader(content: bytes, fails: bool)

  /** What draining io.LimitReader(r, limit) delivers; an error that lies at or past the limit is never seen. */
  function ReadLimited(r: Reader, limit: nat): Option<bytes> {
    if |r.content| >= limit then Some(r.content[..limit])
    else if r.fails then None
    else Some(r.content)
  }
}
