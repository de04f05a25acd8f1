/** The 32-bit signed integers of C. */
module CInt {
  /** The value of an int32_t after an operation that may overflow. */
  function Int32(x: int): (y: int)
    ensures -0x8000_0000 <= y < 0x8000_0000 && (y == x <==> -0x8000_0000 <= x < 0x8000_0000)
  {
    var y := x % 0x1_0000_0000;
    if y >= 0x8000_0000 then y - 0x1_0000_0000 else y
  }

  lemma Int32Shift(x: int, k: int)
    ensures Int32(x + k * 0x1_0000_0000) == Int32(x)
  {
  }

  /** Wrapping before a multiplication and an addition does not change the wrapped result. */
  lemma Int32Step(x: int, b: int, d: int)
    ensures Int32(Int32(x) * b + d) == Int32(x * b + d)
  {
    var k := (x - Int32(x)) / 0x1_0000_0000;
    assert x == Int32(x) + k * 0x1_0000_0000;
    assert x * b + d == Int32(x) * b + d + (k * b) * 0x1_0000_0000;
    Int32Shift(Int32(x) * b + d, k * b);
  }

  /** A negated number, read back as a number and negated. */
  lemma NegateTwice(x: nat)
    requires x <= 0x8000_0000
    ensures Int32(-Int32(x)) == 0 - x
  {
  }
}
