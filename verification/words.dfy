// The sizes of the machine's integers.
module Words {
  type byte = x: int | 0 <= x < 0x100
  type word = x: int | 0 <= x < 0x10000

  const UINT32 := 0x1_0000_0000
  const ASCII := 0x80      // every character on the keyboard is below this
}
