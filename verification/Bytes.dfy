/** Octets, octet strings and the small result types shared by every component. */
module Bytes {
  newtype byte = x: int | 0 <= x < 256

  /** A Go string or byte slice. */
  type bytes = seq<byte>

  datatype Option<+T> = None | Some(value: T)

  /** What a reader of a suffix returns: failure, or a value and what follows it. */
  datatype Parsed<+T> = Fail | Done(value: T, rest: bytes)

  const TAB: byte := 9
  const LF: byte := 10
  const CR: byte := 13
  const SPACE: byte := 32
  const QUOTE: byte := 34
  const PLUS: byte := 43
  const COMMA: byte := 44
  const MINUS: byte := 45
  const DOT: byte := 46
  const SLASH: byte := 47
  const ZERO: byte := 48
  const NINE: byte := 57
  const COLON: byte := 58
  const LBRACKET: byte := 91
  const BACKSLASH: byte := 92
  const RBRACKET: byte := 93
  const LBRACE: byte := 123
  const RBRACE: byte := 125

  predicate IsDigit(c: byte) { ZERO <= c <= NINE }

  predicate IsSpace(c: byte) { c == SPACE || c == TAB || c == LF || c == CR }

  lemma Reassociate<T>(a: seq<T>, b: seq<T>, c: seq<T>)
    ensures (a + b) + c == a + (b + c)
  {
  }
}
