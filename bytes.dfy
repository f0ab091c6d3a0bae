/**
 * Bytes as the scanner sees them, the ASCII bytes it dispatches on, and the
 * whitespace classification table of parser.go.
 */
module Bytes {

  type byte = b: int | 0 <= b < 256

  const Tab: byte := 0x09
  const LineFeed: byte := 0x0A
  const CarriageReturn: byte := 0x0D
  const Space: byte := 0x20
  const QuoteMark: byte := 0x22      // "
  const Plus: byte := 0x2B           // +
  const Comma: byte := 0x2C          // ,
  const MinusSign: byte := 0x2D      // -
  const Dot: byte := 0x2E            // .
  const Slash: byte := 0x2F          // /
  const Zero: byte := 0x30           // 0
  const Nine: byte := 0x39           // 9
  const Colon: byte := 0x3A          // :
  const UpperE: byte := 0x45         // E
  const OpenBracket: byte := 0x5B    // [
  const Backslash: byte := 0x5C      // \
  const CloseBracket: byte := 0x5D   // ]
  const LowerE: byte := 0x65         // e
  const OpenBrace: byte := 0x7B      // {
  const CloseBrace: byte := 0x7D     // }

  /** Space, tab, line feed and carriage return: the bytes the scanner skips between tokens. */
  predicate IsWhitespace(b: byte)
  {
    b == Space || b == Tab || b == LineFeed || b == CarriageReturn
  }

  /** The 256-entry lookup table `whitespace` that skipWhitespace consults. */
  function WhitespaceTable(): (t: seq<bool>)
    ensures |t| == 256
  {
    seq(256, (c: int) => c == 0x20 || c == 0x09 || c == 0x0A || c == 0x0D)
  }

  /** The table marks exactly the four whitespace bytes. */
  lemma WhitespaceTableMarks(b: byte)
    ensures WhitespaceTable()[b] <==> IsWhitespace(b)
  {
  }

  predicate IsDigit(b: byte)
  {
    Zero <= b <= Nine
  }

  /** A byte that would make the number scanner read on: a digit, `.`, `e` or `E`. */
  predicate ExtendsNumber(b: byte)
  {
    IsDigit(b) || b == Dot || b == LowerE || b == UpperE
  }
}
