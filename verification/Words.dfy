/** Fixed-width values. */
module Words {

  type Byte = b: int | 0 <= b < 256

  const U32 := 0x1_0000_0000

  /** The type uint32_t: sums wrap around. */
  type Word = w: int | 0 <= w < U32

  function Wrap(x: int): Word { x % U32 }
}
