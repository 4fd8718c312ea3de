/** Fixed-width integers and byte-string helpers shared by the packet models. */
module Bytes {
  type byte = x: int | 0 <= x < 0x100
  type u16 = x: int | 0 <= x < 0x1_0000
  type u32 = x: int | 0 <= x < 0x1_0000_0000

  datatype Option<+T> = None | Some(value: T)

  /** A two-byte field in network order, read with ntohs. */
  function Net16(hi: byte, lo: byte): u16 { 256 * hi + lo }

  /** A two-byte field as the little-endian CPU loads it raw. */
  function Raw16(first: byte, second: byte): u16 { first + 256 * second }

  /** The difference of two 32-bit millisecond stamps, as C computes it. */
  function Age(now: u32, stamp: u32): u32 { (now - stamp) % 0x1_0000_0000 }
}
