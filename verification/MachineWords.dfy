/** The unsigned widths the drivers store in registers and buffers. */
module MachineWords {
  type Byte = x: int | 0 <= x < 0x100
  type Half = x: int | 0 <= x < 0x1_0000
  type Word = x: int | 0 <= x < 0x1_0000_0000

  /** Conversion to `uint8_t`: keep the low eight bits. */
  function LowByte(x: nat): Byte { x % 0x100 }
}
