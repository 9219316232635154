/** Java's 32-bit `int` and the narrowing conversions the services apply. */
module JavaInt {

  const MinInt: int := -0x8000_0000
  const MaxInt: int := 0x7FFF_FFFF

  type Int32 = x: int | MinInt <= x <= MaxInt

  /** Two's-complement wrap-around to 32 bits: `Long.intValue()`, and `int` arithmetic that overflows. */
  function Wrap(x: int): (r: Int32)
    ensures (r - x) % 0x1_0000_0000 == 0
  {
    var low := x % 0x1_0000_0000;
    if low <= MaxInt then low else low - 0x1_0000_0000
  }

  lemma WrapInRange(x: int)
    requires MinInt <= x <= MaxInt
    ensures Wrap(x) == x
  {
  }
}
