/** The machine types of the Go program: bytes, 64-bit words, and Go's truncating
    integer division. Dafny's own integers are unbounded, so every wrap-around the
    program can meet is written out with `Wrap64`. */
module Machine {
  const TWO_63: int := 0x8000_0000_0000_0000
  const TWO_64: int := 0x1_0000_0000_0000_0000

  type byte = x: int | 0 <= x < 0x100
  type uint64 = x: int | 0 <= x < 0x1_0000_0000_0000_0000

  /** A Go `[]byte` or `string`. */
  type Bytes = seq<byte>

  datatype Option<+T> = None | Some(value: T)

  /** The value a `uint64` expression has after Go discards the overflow. */
  function Wrap64(x: int): uint64 {
    x % TWO_64
  }

  /** Go's `/`, which rounds toward zero. */
  function TruncDiv(a: int, b: int): int
    requires b > 0
  {
    if a >= 0 then a / b else -((-a) / b)
  }

  /** Go's `%`, whose sign follows the dividend. */
  function TruncRem(a: int, b: int): int
    requires b > 0
  {
    a - b * TruncDiv(a, b)
  }

  function Pow2(n: nat): (r: nat)
    ensures r > 0
  {
    if n == 0 then 1 else 2 * Pow2(n - 1)
  }

  function Min(a: int, b: int): int {
    if a <= b then a else b
  }
}
