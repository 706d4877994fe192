/** 32-bit unsigned arithmetic as the C and C++ sources use it. */
module Words {

  const WORD: nat := 0x1_0000_0000

  /** A uint32_t. */
  type Word = x: nat | x < 0x1_0000_0000

  /** A raw byte of device or host memory. */
  type Byte = x: nat | x < 0x100

  /** Conversion of a non-negative integer to uint32_t. */
  function ToWord(x: nat): Word {
    x % WORD
  }

  function Add(a: Word, b: Word): Word {
    (a + b) % WORD
  }

  /** `v-1` on uint32_t: 0 wraps to the largest word. */
  function Dec(v: Word): Word {
    if v == 0 then WORD - 1 else v - 1
  }
}
