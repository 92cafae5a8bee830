/** Shared types: unsigned integers, what a variable of 8, 16 or 32 bits keeps of a number, and options. */
module Words {

  datatype Option<T> = None | Some(value: T)

  type byte = x: int | 0 <= x < 256

  function U8(x: int): byte {
    x % 0x100
  }

  function U16(x: int): nat {
    x % 0x1_0000
  }

  function U32(x: int): nat {
    x % 0x1_0000_0000
  }
}
