/** C text: bytes, NUL-free strings, and the byte constants the programs test for. */
module CText {

  type byte = x: int | 0 <= x < 256

  /** A character of a C string: any byte but the terminator. */
  type Ch = x: int | 0 < x < 256 witness 1

  /** The bytes of a C string up to, and not including, its terminator. */
  type Text = seq<Ch>

  const TAB: Ch := 9
  const LF: Ch := 10
  const CR: Ch := 13
  const SPACE: Ch := 32
  const QUOTE: Ch := 34
  const STAR: Ch := 42
  const COMMA: Ch := 44
  const MINUS: Ch := 45
  const DOT: Ch := 46
  const SLASH: Ch := 47
  const COLON: Ch := 58
  const OPEN_BRACKET: Ch := 91
  const BACKSLASH: Ch := 92
  const CLOSE_BRACKET: Ch := 93
  const OPEN_BRACE: Ch := 123
  const CLOSE_BRACE: Ch := 125

  /** What `s[i]` reads for an index up to the terminator. */
  function At(s: Text, i: nat): byte {
    if i < |s| then s[i] else 0
  }

  predicate IsDigit(c: byte) {
    48 <= c <= 57
  }

  function Tabs(n: int): Text {
    if n <= 0 then [] else [TAB] + Tabs(n - 1)
  }

  lemma TabsLength(n: int)
    ensures |Tabs(n)| == if n <= 0 then 0 else n
  {
  }
}
