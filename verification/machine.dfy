/** The C++ integer widths the model keeps: `unsigned int` and its
    conversion to `int` (two's complement, 32 bits). */
module Machine {

  /** `unsigned int`. */
  type uint32 = x: int | 0 <= x < 0x1_0000_0000

  /** Converting an `unsigned int` to `int`: values from 2^31 on wrap to
      negative numbers. */
  function AsSigned(x: uint32): (r: int)
    ensures -0x8000_0000 <= r < 0x8000_0000
    ensures r % 0x1_0000_0000 == x
    ensures r >= 0 <==> x < 0x8000_0000
  {
    if x < 0x8000_0000 then x else x - 0x1_0000_0000
  }
}
