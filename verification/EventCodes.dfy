/** The event codes of the timing link. */
module EventCodes {
  import opened Words

  const ONE_HZ: Word8 := 0x20
  const BIT_ZERO: Word8 := 0x70
  const BIT_ONE: Word8 := 0x71
  const LATCH: Word8 := 0x7D

  /** What the transmitter sends when it has no code: the low byte is the comma 0xBC. */
  const IDLE_WORD: Word16 := 0x50BC
  const COMMA: Word8 := 0xBC

  predicate IsBit(code: Word8) { code == BIT_ZERO || code == BIT_ONE }

  function BitCode(bit: bool): Word8 { if bit then BIT_ONE else BIT_ZERO }

  function LowByte(w: Word16): Word8 { w % 0x100 }
}
