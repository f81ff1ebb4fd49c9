/** Machine words as bounded integers, and the few wrap-around helpers every other module uses. */
module Words {

  type u8 = x: int | 0 <= x < 0x100
  type u16 = x: int | 0 <= x < 0x1_0000
  type u32 = x: int | 0 <= x < 0x1_0000_0000

  type u64 = x: int | 0 <= x < 0x1_0000_0000_0000_0000

  /** Where host memory goes: a 48-bit address space. */
  type HostAddr = x: int | 0 <= x < 0x1_0000_0000_0000

  datatype Option<+T> = None | Some(value: T)

  /** C's truncating conversions. */
  function U8(x: int): u8 { x % 0x100 }
  function U16(x: int): u16 { x % 0x1_0000 }
  function U32(x: int): u32 { x % 0x1_0000_0000 }

  /** Little-endian composition. */
  function Word(lo: u8, hi: u8): u16 { if hi == 0 then lo else lo + 0x100 * hi }
  function Dword(lo: u16, hi: u16): u32 { if hi == 0 then lo else lo + 0x1_0000 * hi }

  function Lo16(x: u32): u16 { x % 0x1_0000 }

  /** Store into the low half of a 32-bit register; the high half stays. */
  function SetLo16(x: u32, v: u16): u32 { if x < 0x1_0000 then v else x - x % 0x1_0000 + v }
}
