/** Fixed-width integers, bytes and the conversions the C++ code relies on. */
module Machine {

  type byte = n: int | 0 <= n < 0x100
  type u16 = n: int | 0 <= n < 0x1_0000
  type u32 = n: int | 0 <= n < 0x1_0000_0000
  type u64 = n: int | 0 <= n < 0x1_0000_0000_0000_0000
  type i16 = n: int | -0x8000 <= n < 0x8000
  type i32 = n: int | -0x8000_0000 <= n < 0x8000_0000
  type i64 = n: int | -0x8000_0000_0000_0000 <= n < 0x8000_0000_0000_0000

  /** A pointer value; 0 is the null pointer. */
  type Ptr = nat

  type Bytes = seq<byte>

  // Conversion to an unsigned type reduces modulo 2^width; conversion to a
  // signed type does the same and then re-reads the top bit as the sign.

  function ToU16(n: int): u16 { n % 0x1_0000 }

  function ToU32(n: int): u32 { n % 0x1_0000_0000 }

  function ToI16(n: int): i16 {
    var m := n % 0x1_0000;
    if m < 0x8000 then m else m - 0x1_0000
  }

  function ToI32(n: int): i32 {
    var m := n % 0x1_0000_0000;
    if m < 0x8000_0000 then m else m - 0x1_0000_0000
  }

  datatype Option<+T> = None | Some(value: T)
}
