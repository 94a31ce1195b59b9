/** Go's fixed-width integers and the option type used for nil-able values. */
module Words {
  const U64: int := 0x1_0000_0000_0000_0000
  const I64_MAX: int := 0x7FFF_FFFF_FFFF_FFFF
  const I64_MIN: int := -0x8000_0000_0000_0000

  /** uint and uint64 (a Go uint has 64 bits on the platforms the agent ships for). */
  type Uint64 = x: int | 0 <= x < U64

  type Int64 = x: int | I64_MIN <= x <= I64_MAX

  datatype Option<+T> = None | Some(value: T)

  /** The value an unsigned 64-bit variable holds after storing `x`. */
  function Wrap(x: int): Uint64 {
    x % U64
  }

  lemma WrapInRange(x: int)
    requires 0 <= x < U64
    ensures Wrap(x) == x
  {
  }

  /** Wrapping early or late makes no difference to a running total. */
  lemma WrapAdd(held: int, total: int, x: int, next: int)
    requires held == Wrap(total) && next == total + x
    ensures Wrap(held + x) == Wrap(next)
  {
  }
}
