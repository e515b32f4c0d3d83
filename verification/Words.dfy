/** Bytes and 32-bit words. */
module Words {
  const WORD_LIMIT := 0x1_0000_0000

  type Byte = x: int | 0 <= x < 256
  type Uint = x: int | 0 <= x < WORD_LIMIT
}
