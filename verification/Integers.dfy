/** Machine integers of the source: unsigned 64-bit heights and amounts, and
    the two's-complement reading the Go conversions int64(x) and int(x) give. */
module Integers {
  const TWO63: int := 0x8000_0000_0000_0000
  const TWO64: int := 0x1_0000_0000_0000_0000

  type uint64 = x: int | 0 <= x < 0x1_0000_0000_0000_0000
  type int64 = x: int | -0x8000_0000_0000_0000 <= x < 0x8000_0000_0000_0000

  /** The value an unsigned 64-bit register holds after an operation whose exact result is x. */
  function Wrap64(x: int): uint64 {
    x % TWO64
  }

  /** Go's int64(x) for an exact integer x, wrapping. */
  function Signed64(x: int): int64 {
    var w := Wrap64(x);
    if w < TWO63 then w else w - TWO64
  }

  /** Uint16 truncation, used for committee ids. */
  function Low16(x: nat): (r: nat)
    ensures r < 65536 && (x - r) % 65536 == 0
  {
    x % 0x1_0000
  }

  /** Go's int16(x), wrapping. */
  function Signed16(x: int): (r: int)
    ensures -32768 <= r < 32768 && (x - r) % 65536 == 0
  {
    var w := x % 0x1_0000;
    if w < 0x8000 then w else w - 0x1_0000
  }

  /** A signed reading differs from the exact value by a multiple of 2^64, and by nothing when it fits. */
  lemma Signed64Exact(x: int)
    ensures (Signed64(x) - x) % TWO64 == 0
    ensures -TWO63 <= x < TWO63 ==> Signed64(x) == x
  {
    if -TWO63 <= x < 0 {
      assert x % TWO64 == x + TWO64;
    }
  }

  /** Quotient and remainder are the only pair of their kind. */
  lemma DivisionUnique(n: nat, d: nat, q: nat, r: nat)
    requires n == q * d + r && r < d
    ensures n / d == q && n % d == r
  {
    var p := n / d;
    assert n == p * d + n % d;
    if p < q {
      Scale(p + 1, q, d);
      Distribute(p + 1, d);
    } else if q < p {
      Scale(q + 1, p, d);
      Distribute(q + 1, d);
    }
  }

  lemma Scale(a: nat, b: nat, d: nat)
    requires a <= b
    ensures a * d <= b * d
  {
  }

  lemma Distribute(q: int, d: int)
    ensures (q - 1) * d == q * d - d
  {
  }

  /** What fits stays; what does not loses at least 2^64. */
  lemma WrapFits(x: nat)
    ensures x < TWO64 ==> Wrap64(x) == x
    ensures x >= TWO64 ==> Wrap64(x) <= x - TWO64
    ensures TWO64 <= x < 2 * TWO64 ==> Wrap64(x) == x - TWO64
  {
  }
}
