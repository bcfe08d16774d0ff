/** Bytes and the ASCII codes the other modules name. Text is its UTF-8 encoding. */
module Bytes {

  type Byte = b: int | 0 <= b < 256

  const NEWLINE: Byte := 10
  const DOLLAR: Byte := 36
  const QUOTE: Byte := 39
  const STAR: Byte := 42
  const DASH: Byte := 45
  const SLASH: Byte := 47
  const SEMICOLON: Byte := 59
  const UNDERSCORE: Byte := 95
}
