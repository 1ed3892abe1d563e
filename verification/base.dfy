/**
 Small shared vocabulary: an Option type, C unsigned wrap-around, and bit
 masks.

 A fixed-width mask is modelled as a sequence of booleans, bit `i` being
 element `i`; setting and clearing a bit are sequence updates, and the width
 is the sequence's length.
 */
module Base {

  datatype Option<+T> = None | Some(value: T)

  /** 2^32, the modulus of C `unsigned` and `uint32_t` arithmetic. */
  const U32_MOD: int := 0x1_0000_0000

  /** 2^64, the modulus of `uint64_t` arithmetic. */
  const U64_MOD: int := 0x1_0000_0000_0000_0000

  type u32 = x: int | 0 <= x < U32_MOD
  type u64 = x: int | 0 <= x < U64_MOD

  /** The value C stores when an integer result is converted to `unsigned`. */
  function Wrap32(x: int): u32
  {
    x % U32_MOD
  }

  /** The value C stores when an integer result is converted to `uint64_t`. */
  function Wrap64(x: int): u64
  {
    x % U64_MOD
  }

  /** A 32-bit and a 64-bit mask. */
  type Mask32 = m: seq<bool> | |m| == 32 witness seq(32, _ => false)
  type Mask64 = m: seq<bool> | |m| == 64 witness seq(64, _ => false)

  /** A mask of `n` clear bits. */
  function NoBits(n: nat): seq<bool>
  {
    seq(n, _ => false)
  }
}
