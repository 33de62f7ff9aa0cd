/** Types every module shares: fixed-width integers as subset types of `int`,
    names, and the usual option and result datatypes. */
module Basics {
  const TWO_16 := 0x1_0000
  const TWO_48 := 0x1_0000_0000_0000
  const TWO_64 := 0x1_0000_0000_0000_0000
  const MAX_U64 := TWO_64 - 1

  type u16 = x: int | 0 <= x < 0x1_0000
  type u32 = x: int | 0 <= x < 0x1_0000_0000
  type u64 = x: int | 0 <= x < 0x1_0000_0000_0000_0000

  /** A Go string used as a name or a value: compared as a whole, taken apart only
      where the source builds one. */
  datatype Text = Text(chars: string)

  const NO_TEXT := Text("")

  type Key = Text
  type TxId = Text
  type ShardId = Text

  datatype Option<+T> = None | Some(value: T)
  datatype Result<+T, +E> = Ok(value: T) | Err(error: E)

  function Max(a: int, b: int): int {
    if a >= b then a else b
  }
}
