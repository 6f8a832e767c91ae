/** Fixed-width values of the hardware and of the C code, as ranges of int. */
module Bits {
  const TWO15: int := 0x8000
  const TWO16: int := 0x1_0000
  const TWO32: int := 0x1_0000_0000
  const TWO64: int := 0x1_0000_0000_0000_0000

  type u2 = x: int | 0 <= x < 4
  type u3 = x: int | 0 <= x < 8
  type u4 = x: int | 0 <= x < 16
  type u7 = x: int | 0 <= x < 128
  type u8 = x: int | 0 <= x < 0x100
  type u15 = x: int | 0 <= x < TWO15
  type u16 = x: int | 0 <= x < TWO16
  type u18 = x: int | 0 <= x < 0x4_0000
  type u20 = x: int | 0 <= x < 0x10_0000
  type u32 = x: int | 0 <= x < TWO32
  type u64 = x: int | 0 <= x < TWO64

  // sums and differences cut to a register's width

  function Add15(a: int, b: int): u15 { (a + b) % TWO15 }

  function Add16(a: int, b: int): u16 { (a + b) % TWO16 }

  function Sub16(a: int, b: int): u16 { (a - b) % TWO16 }

  function Add32(a: int, b: int): u32 { (a + b) % TWO32 }

  function Sub32(a: int, b: int): u32 { (a - b) % TWO32 }

  function Add64(a: int, b: int): u64 { (a + b) % TWO64 }

  datatype Option<+T> = None | Some(value: T)
}
