/** Code units, and the unread part of a stream as a sequence of them. */
module Bytes {

  /** One byte of JSON text: `char` in the source, seen as unsigned. */
  type Byte = b: int | 0 <= b < 256

  type Text = seq<Byte>

  datatype Option<+T> = None | Some(value: T)

  const TAB: Byte := 0x09
  const LF: Byte := 0x0A
  const CR: Byte := 0x0D
  const SPACE: Byte := 0x20
  const QUOTE: Byte := 0x22
  const COMMA: Byte := 0x2C
  const MINUS: Byte := 0x2D
  const SLASH: Byte := 0x2F
  const STAR: Byte := 0x2A
  const COLON: Byte := 0x3A
  const LBRACKET: Byte := 0x5B
  const BACKSLASH: Byte := 0x5C
  const RBRACKET: Byte := 0x5D
  const LBRACE: Byte := 0x7B
  const RBRACE: Byte := 0x7D

  /** The unit a stream shows next; the terminating NUL once all are taken. */
  function Peek(s: Text): Byte {
    if s == [] then 0 else s[0]
  }

  /** The unit a stream shows once `i` units are taken. */
  function At(s: Text, i: nat): Byte {
    if i < |s| then s[i] else 0
  }
}
