/** Small value types shared by the tunnel model: optional values (Go's nil),
    results (Go's `(T, error)` pairs) and Go's `uint16` with its truncating
    integer conversion.
 */
module Base {

  /** A possibly-nil reference or slot. */
  datatype Option<+T> = None | Some(value: T)

  /** The `(value, error)` pair a Go function returns: exactly one side is meaningful. */
  datatype Result<+T, +E> = Success(value: T) | Failure(error: E)

  const TwoTo16: int := 0x1_0000

  /** Go's `uint16`. */
  newtype uint16 = x: int | 0 <= x < 0x1_0000

  /** Go's conversion `uint16(x)` from a signed integer: it keeps the low 16 bits
      of the two's-complement representation, i.e. the unique 16-bit value
      congruent to `x` modulo 2^16 (so `uint16(-1) == 65535`, `uint16(65536) == 0`). */
  function Narrow(x: int): (r: uint16)
    ensures (x - r as int) % TwoTo16 == 0
  {
    var r := x % TwoTo16;
    assert x == (x / TwoTo16) * TwoTo16 + r;
    assert x - r == (x / TwoTo16) * TwoTo16;
    r as uint16
  }

  /** The conversion loses nothing exactly when the value already fits in 16 bits. */
  lemma NarrowLosslessIff(x: int)
    ensures Narrow(x) as int == x <==> 0 <= x < TwoTo16
  {
  }
}
