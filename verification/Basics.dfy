/** Bytes, commands and optional values shared by every module. */
module Basics {

  type Byte = x: int | 0 <= x < 256
  type Bytes = seq<Byte>

  /** A request as the dispatcher and the log see it: the name and its arguments. */
  type Command = seq<Bytes>

  const U64_MAX: nat := 0xFFFF_FFFF_FFFF_FFFF
  const I64_MAX: int := 0x7FFF_FFFF_FFFF_FFFF
  const I64_MIN: int := -0x8000_0000_0000_0000

  type U64 = n: nat | n <= U64_MAX

  datatype Option<+T> = None | Some(value: T)

  datatype Result<+T, +E> = Ok(value: T) | Failed(error: E)

  const LF: Byte := 10
  const CR: Byte := 13
  const DOLLAR: Byte := 36
  const STAR: Byte := 42
  const PLUS: Byte := 43
  const MINUS: Byte := 45
  const ZERO: Byte := 48
  const QUESTION: Byte := 63

  const CRLF: Bytes := [CR, LF]

  /** Machine lengths: a byte string or an argument list is indexed by a 64-bit word. */
  predicate Fits(cmd: Command) {
    |cmd| <= U64_MAX && forall i :: 0 <= i < |cmd| ==> |cmd[i]| <= U64_MAX
  }

  /** The dispatcher's case folding, `b | 0x20`. */
  function SetBit5(b: Byte): Byte {
    if (b / 32) % 2 == 0 then b + 32 else b
  }
}
