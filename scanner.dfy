/**
 * The token scanners of parser.go: whitespace skipping, the one-byte helpers
 * (begin-object, colon, commas, number sign), the literal, number and string
 * recognisers.
 *
 * Every scanner takes (buf, pos) and returns (end, err). Each one that loops
 * is a method proved equal to a recursive function of the same name without
 * the "Parse" prefix; the functions are what the lemmas talk about and what
 * the value-level functions call.
 */
module Scanner {
  import opened Wrappers
  import opened Bytes
  import opened Errors

  /** The (end, err) pair every scanning function returns. */
  datatype Step = Step(end: int, err: Option<Error>)

  /** Bytes left from pos on: the measure every successful token decreases. */
  function Remaining(buf: seq<byte>, pos: int): nat
  {
    if pos < |buf| then |buf| - pos else 0
  }

  /** `return end, parseErrorAt(pos, cause)` with a cause built on the spot. */
  function Fail(end: int, pos: int, kind: Kind): (s: Step)
    ensures s.end == end && s.err == Some(At(Some(Cause(kind)), pos))
  {
    Step(end, ParseErrorAt(pos, Some(Cause(kind))))
  }

  /** The step failed with a cause of kind k tagged at offset p. */
  predicate FailsAt(s: Step, p: int, k: Kind)
  {
    s.err == Some(At(Some(Cause(k)), p))
  }

  /**
   * An error that pins the offending offset: end of input for a truncation,
   * the very byte it names for an unexpected byte, the opening bracket for a
   * depth violation, the opening quote for a key that does not unquote.
   */
  predicate WellPlaced(buf: seq<byte>, err: Option<Error>)
  {
    match err
    case Some(At(Some(Cause(k)), p)) =>
      0 <= p <= |buf| &&
      (match k
       case UnexpectedEOF => p == |buf|
       case Unexpected(b) => p < |buf| && buf[p] == b
       case DepthLimit => p < |buf| && (buf[p] == OpenBracket || buf[p] == OpenBrace)
       case KeyNotUnquoted => p < |buf| && buf[p] == QuoteMark
       case OutputFailed => false)
    case _ => false
  }

  // ---------------------------------------------------------------- whitespace

  /** Where skipWhitespace stops. */
  function WhitespaceEnd(buf: seq<byte>, pos: nat): (end: nat)
    ensures pos <= end
    ensures end <= |buf| || end == pos
    ensures end < |buf| ==> !IsWhitespace(buf[end])
    decreases Remaining(buf, pos)
  {
    if pos < |buf| && IsWhitespace(buf[pos]) then WhitespaceEnd(buf, pos + 1) else pos
  }

  /** Everything skipWhitespace passes over is whitespace. */
  lemma {:induction false} WhitespaceEndSkipsWhitespace(buf: seq<byte>, pos: nat)
    ensures forall k :: pos <= k < WhitespaceEnd(buf, pos) ==> IsWhitespace(buf[k])
    decreases Remaining(buf, pos)
  {
    if pos < |buf| && IsWhitespace(buf[pos]) {
      WhitespaceEndSkipsWhitespace(buf, pos + 1);
    }
  }

  /** skipWhitespace */
  method SkipWhitespace(buf: seq<byte>, initialPos: nat) returns (pos: nat)
    ensures pos == WhitespaceEnd(buf, initialPos)
  {
    pos := initialPos;
    while pos < |buf|
      invariant WhitespaceEnd(buf, pos) == WhitespaceEnd(buf, initialPos)
      decreases |buf| - pos
    {
      WhitespaceTableMarks(buf[pos]);
      if WhitespaceTable()[buf[pos]] {
        pos := pos + 1;
        continue;
      }
      break;
    }
  }

  // ----------------------------------------------------------- one-byte tokens

  /** parseBeginObject */
  function BeginObject(buf: seq<byte>, pos: nat): (s: Step)
    ensures s.err.None? <==> pos < |buf| && buf[pos] == OpenBrace
    ensures pos < |buf| ==> s.end == pos + 1
    ensures pos >= |buf| ==> s.end == |buf| && FailsAt(s, |buf|, UnexpectedEOF)
    ensures pos < |buf| && buf[pos] != OpenBrace ==> FailsAt(s, pos, Unexpected(buf[pos]))
  {
    if pos >= |buf| then Fail(|buf|, |buf|, UnexpectedEOF)
    else if buf[pos] != OpenBrace then Fail(pos + 1, pos, Unexpected(buf[pos]))
    else Step(pos + 1, None)
  }

  /** parseColon */
  function ColonToken(buf: seq<byte>, pos: nat): (s: Step)
    ensures s.err.None? <==> pos < |buf| && buf[pos] == Colon
    ensures pos < |buf| ==> s.end == pos + 1
    ensures pos >= |buf| ==> s.end == |buf| && FailsAt(s, |buf|, UnexpectedEOF)
    ensures pos < |buf| && buf[pos] != Colon ==> FailsAt(s, pos, Unexpected(buf[pos]))
  {
    if pos >= |buf| then Fail(|buf|, |buf|, UnexpectedEOF)
    else if buf[pos] != Colon then Fail(pos + 1, pos, Unexpected(buf[pos]))
    else Step(pos + 1, None)
  }

  /** parseArrayComma: a comma goes on, `]` ends the array with the sentinel errEndArray. */
  function ArrayComma(buf: seq<byte>, pos: nat): (s: Step)
    ensures pos < |buf| ==> s.end == pos + 1
    ensures s.err.None? <==> pos < |buf| && buf[pos] == Comma
    ensures s.err == Some(EndArray) <==> pos < |buf| && buf[pos] == CloseBracket
    ensures pos >= |buf| ==> s.end == |buf| && FailsAt(s, |buf|, UnexpectedEOF)
    ensures pos < |buf| && buf[pos] != Comma && buf[pos] != CloseBracket ==>
      FailsAt(s, pos, Unexpected(buf[pos]))
  {
    if pos >= |buf| then Fail(|buf|, |buf|, UnexpectedEOF)
    else if buf[pos] == CloseBracket then Step(pos + 1, Some(EndArray))
    else if buf[pos] != Comma then Fail(pos + 1, pos, Unexpected(buf[pos]))
    else Step(pos + 1, None)
  }

  /** parseObjectComma: a comma goes on, `}` ends the object with the sentinel errEndObject. */
  function ObjectComma(buf: seq<byte>, pos: nat): (s: Step)
    ensures pos < |buf| ==> s.end == pos + 1
    ensures s.err.None? <==> pos < |buf| && buf[pos] == Comma
    ensures s.err == Some(EndObject) <==> pos < |buf| && buf[pos] == CloseBrace
    ensures pos >= |buf| ==> s.end == |buf| && FailsAt(s, |buf|, UnexpectedEOF)
    ensures pos < |buf| && buf[pos] != Comma && buf[pos] != CloseBrace ==>
      FailsAt(s, pos, Unexpected(buf[pos]))
  {
    if pos >= |buf| then Fail(|buf|, |buf|, UnexpectedEOF)
    else if buf[pos] == CloseBrace then Step(pos + 1, Some(EndObject))
    else if buf[pos] != Comma then Fail(pos + 1, pos, Unexpected(buf[pos]))
    else Step(pos + 1, None)
  }

  // ------------------------------------------------------------------ literals

  const TrueBytes: seq<byte> := [0x74, 0x72, 0x75, 0x65]         // true
  const FalseBytes: seq<byte> := [0x66, 0x61, 0x6C, 0x73, 0x65]  // false
  const NullBytes: seq<byte> := [0x6E, 0x75, 0x6C, 0x6C]         // null

  /** The byte-by-byte check of parseTrue/parseFalse/parseNull, from offset r of the literal on. */
  function LiteralFrom(buf: seq<byte>, pos: nat, raw: seq<byte>, r: nat): (s: Step)
    requires r <= |raw|
    ensures s.err.None? ==> s.end == pos + |raw|
    ensures s.err.Some? && pos + r <= |buf| ==> WellPlaced(buf, s.err) && pos + r <= s.end <= |buf|
    decreases |raw| - r
  {
    if r == |raw| then Step(pos + |raw|, None)
    else if pos + r >= |buf| then Fail(pos + r, pos + r, UnexpectedEOF)
    else if buf[pos + r] != raw[r] then Fail(pos + r + 1, pos + r, Unexpected(buf[pos + r]))
    else LiteralFrom(buf, pos, raw, r + 1)
  }

  function LiteralScan(buf: seq<byte>, pos: nat, raw: seq<byte>): Step
  {
    LiteralFrom(buf, pos, raw, 0)
  }

  /** The check from offset r succeeds exactly when the rest of the literal is in the input. */
  lemma {:induction false} LiteralFromMatches(buf: seq<byte>, pos: nat, raw: seq<byte>, r: nat)
    requires r <= |raw|
    ensures LiteralFrom(buf, pos, raw, r).err.None? <==>
      r == |raw| || (pos + |raw| <= |buf| && forall k :: r <= k < |raw| ==> buf[pos + k] == raw[k])
    decreases |raw| - r
  {
    if r < |raw| && pos + r < |buf| && buf[pos + r] == raw[r] {
      LiteralFromMatches(buf, pos, raw, r + 1);
    }
  }

  /**
   * A literal that agrees with the input up to offset m and no further fails at
   * pos + m: on the differing byte, or with a truncation when the input ends there.
   */
  lemma {:induction false} LiteralMismatch(buf: seq<byte>, pos: nat, raw: seq<byte>, r: nat, m: nat)
    requires r <= m < |raw| && pos + m <= |buf|
    requires forall k :: r <= k < m ==> buf[pos + k] == raw[k]
    requires pos + m < |buf| ==> buf[pos + m] != raw[m]
    ensures pos + m < |buf| ==>
      LiteralFrom(buf, pos, raw, r) == Fail(pos + m + 1, pos + m, Unexpected(buf[pos + m]))
    ensures pos + m == |buf| ==>
      LiteralFrom(buf, pos, raw, r) == Fail(pos + m, pos + m, UnexpectedEOF)
    decreases m - r
  {
    if r < m {
      LiteralMismatch(buf, pos, raw, r + 1, m);
    }
  }

  /** The loop shared by parseTrue, parseFalse and parseNull. */
  method ParseLiteral(buf: seq<byte>, initialPos: nat, raw: seq<byte>) returns (end: int, err: Option<Error>)
    ensures Step(end, err) == LiteralScan(buf, initialPos, raw)
  {
    for r := 0 to |raw|
      invariant LiteralFrom(buf, initialPos, raw, r) == LiteralScan(buf, initialPos, raw)
    {
      var i := initialPos + r;
      if i >= |buf| {
        return i, ParseErrorAt(i, Some(Cause(UnexpectedEOF)));
      }
      var b := buf[i];
      if b != raw[r] {
        return i + 1, ParseErrorAt(initialPos + r, Some(Cause(Unexpected(b))));
      }
    }
    return initialPos + |raw|, None;
  }

  /** parseTrue */
  method ParseTrue(buf: seq<byte>, initialPos: nat) returns (end: int, err: Option<Error>)
    ensures Step(end, err) == LiteralScan(buf, initialPos, TrueBytes)
  {
    end, err := ParseLiteral(buf, initialPos, TrueBytes);
  }

  /** parseFalse */
  method ParseFalse(buf: seq<byte>, initialPos: nat) returns (end: int, err: Option<Error>)
    ensures Step(end, err) == LiteralScan(buf, initialPos, FalseBytes)
  {
    end, err := ParseLiteral(buf, initialPos, FalseBytes);
  }

  /** parseNull */
  method ParseNull(buf: seq<byte>, initialPos: nat) returns (end: int, err: Option<Error>)
    ensures Step(end, err) == LiteralScan(buf, initialPos, NullBytes)
  {
    end, err := ParseLiteral(buf, initialPos, NullBytes);
  }

  // ------------------------------------------------------------------- numbers

  /** The first offset at or after i that holds no digit: where a `digits` loop stops. */
  function DigitsEnd(buf: seq<byte>, i: nat): (j: nat)
    ensures i <= j && (j <= |buf| || j == i)
    ensures j < |buf| ==> !IsDigit(buf[j])
    decreases Remaining(buf, i)
  {
    if i < |buf| && IsDigit(buf[i]) then DigitsEnd(buf, i + 1) else i
  }

  /** Everything a `digits` loop passes over is a digit. */
  lemma {:induction false} DigitsEndSkipsDigits(buf: seq<byte>, i: nat)
    ensures forall k :: i <= k < DigitsEnd(buf, i) ==> IsDigit(buf[k])
    decreases Remaining(buf, i)
  {
    if i < |buf| && IsDigit(buf[i]) {
      DigitsEndSkipsDigits(buf, i + 1);
    }
  }

  /** parseNumberMinus: an optional '-'. */
  function NumberMinus(buf: seq<byte>, pos: nat): (s: Step)
    ensures s.err.None? <==> pos < |buf|
    ensures s.err.None? ==> s.end == if buf[pos] == MinusSign then pos + 1 else pos
    ensures s.err.Some? ==> s.end == |buf| && FailsAt(s, |buf|, UnexpectedEOF)
  {
    if pos >= |buf| then Fail(|buf|, |buf|, UnexpectedEOF)
    else if buf[pos] != MinusSign then Step(pos, None)
    else Step(pos + 1, None)
  }

  /** parseNumberInt: `0` alone, or a run of digits that must be followed by some byte. */
  function NumberInt(buf: seq<byte>, pos: nat): (s: Step)
    ensures s.err.None? ==> pos < s.end < |buf| || (s.end == pos + 1 == |buf|)
    ensures s.err.None? ==> IsDigit(buf[pos])
    ensures s.err.None? && buf[pos] != Zero ==> s.end == DigitsEnd(buf, pos) < |buf|
    ensures s.err.None? && buf[pos] == Zero ==> s.end == pos + 1
    ensures s.err.Some? ==> WellPlaced(buf, s.err) && s.end <= |buf|
    ensures pos >= |buf| ==> s == Fail(|buf|, |buf|, UnexpectedEOF)
    ensures pos < |buf| && !IsDigit(buf[pos]) ==> s == Fail(pos, pos, Unexpected(buf[pos]))
    ensures pos < |buf| && buf[pos] != Zero && DigitsEnd(buf, pos) == |buf| ==> s == Fail(|buf|, |buf|, UnexpectedEOF)
  {
    if pos < |buf| && buf[pos] == Zero then Step(pos + 1, None)
    else
      var j := DigitsEnd(buf, pos);
      if j >= |buf| then Fail(|buf|, |buf|, UnexpectedEOF)
      else if j == pos then Fail(j, j, Unexpected(buf[j]))
      else Step(j, None)
  }

  /** parseNumberFrac: an optional '.' followed by at least one digit. */
  function NumberFrac(buf: seq<byte>, pos: nat): (s: Step)
    ensures s.err.None? ==> pos <= s.end < |buf|
    ensures s.err.None? && buf[pos] != Dot ==> s.end == pos
    ensures s.err.None? && buf[pos] == Dot ==> pos + 1 < s.end == DigitsEnd(buf, pos + 1)
    ensures s.err.Some? ==> WellPlaced(buf, s.err) && s.end <= |buf|
    ensures pos >= |buf| ==> s == Fail(|buf|, |buf|, UnexpectedEOF)
    ensures pos + 1 < |buf| && buf[pos] == Dot && !IsDigit(buf[pos + 1]) ==>
      s == Fail(pos + 1, pos + 1, Unexpected(buf[pos + 1]))
    ensures pos < |buf| && buf[pos] == Dot && DigitsEnd(buf, pos + 1) >= |buf| ==> s == Fail(|buf|, |buf|, UnexpectedEOF)
  {
    if pos >= |buf| then Fail(|buf|, |buf|, UnexpectedEOF)
    else if buf[pos] != Dot then Step(pos, None)
    else
      var j := DigitsEnd(buf, pos + 1);
      if j >= |buf| then Fail(|buf|, |buf|, UnexpectedEOF)
      else if j == pos + 1 then Fail(j, j, Unexpected(buf[j]))
      else Step(j, None)
  }

  /** The offset of the first exponent digit, after `e`/`E` at pos and an optional sign. */
  function ExponentDigitsStart(buf: seq<byte>, pos: nat): nat
    requires pos + 1 < |buf|
  {
    if buf[pos + 1] == Plus || buf[pos + 1] == MinusSign then pos + 2 else pos + 1
  }

  /** parseNumberExp: an optional `e`/`E`, an optional sign, at least one digit. */
  function NumberExp(buf: seq<byte>, pos: nat): (s: Step)
    ensures s.err.None? ==> pos <= s.end < |buf|
    ensures s.err.None? && buf[pos] != LowerE && buf[pos] != UpperE ==> s.end == pos
    ensures s.err.None? && (buf[pos] == LowerE || buf[pos] == UpperE) ==>
      pos + 1 < |buf| && ExponentDigitsStart(buf, pos) < s.end == DigitsEnd(buf, ExponentDigitsStart(buf, pos))
    ensures s.err.Some? ==> WellPlaced(buf, s.err) && s.end <= |buf|
    ensures pos >= |buf| ==> s == Fail(|buf|, |buf|, UnexpectedEOF)
    ensures pos + 1 == |buf| && (buf[pos] == LowerE || buf[pos] == UpperE) ==> s == Fail(|buf|, |buf|, UnexpectedEOF)
    ensures pos + 1 < |buf| && (buf[pos] == LowerE || buf[pos] == UpperE) ==>
      var k := ExponentDigitsStart(buf, pos);
      (k < |buf| && !IsDigit(buf[k]) ==> s == Fail(k, k, Unexpected(buf[k]))) &&
      (DigitsEnd(buf, k) >= |buf| ==> s == Fail(|buf|, |buf|, UnexpectedEOF))
  {
    if pos >= |buf| then Fail(|buf|, |buf|, UnexpectedEOF)
    else if buf[pos] != LowerE && buf[pos] != UpperE then Step(pos, None)
    else if pos + 1 >= |buf| then Fail(|buf|, |buf|, UnexpectedEOF)
    else
      var k := ExponentDigitsStart(buf, pos);
      var j := DigitsEnd(buf, k);
      if j >= |buf| then Fail(|buf|, |buf|, UnexpectedEOF)
      else if j == k then Fail(j, j, Unexpected(buf[j]))
      else Step(j, None)
  }

  /** parseNumber: sign, integer part, fraction, exponent, stopping at the first failure. */
  function NumberScan(buf: seq<byte>, pos: nat): (s: Step)
    ensures s.err.None? ==> pos < s.end < |buf|
    ensures s.err.Some? ==> WellPlaced(buf, s.err) && s.end <= |buf|
  {
    var m := NumberMinus(buf, pos);
    if m.err.Some? then m
    else
      var n := NumberInt(buf, m.end);
      if n.err.Some? then n
      else
        var f := NumberFrac(buf, n.end);
        if f.err.Some? then f
        else NumberExp(buf, f.end)
  }

  /** parseNumberInt */
  method ParseNumberInt(buf: seq<byte>, initialPos: nat) returns (end: int, err: Option<Error>)
    ensures Step(end, err) == NumberInt(buf, initialPos)
  {
    var i := initialPos;
    if i < |buf| && buf[i] == Zero {
      return i + 1, None;
    }
    var digits := 0;
    while i < |buf| && IsDigit(buf[i])
      invariant initialPos <= i
      invariant DigitsEnd(buf, i) == DigitsEnd(buf, initialPos)
      invariant digits == i - initialPos
      decreases |buf| - i
    {
      digits := digits + 1;
      i := i + 1;
    }
    if i >= |buf| {
      return |buf|, ParseErrorAt(|buf|, Some(Cause(UnexpectedEOF)));
    }
    if digits == 0 {
      return i, ParseErrorAt(i, Some(Cause(Unexpected(buf[i]))));
    }
    return i, None;
  }

  /** parseNumberFrac */
  method ParseNumberFrac(buf: seq<byte>, initialPos: nat) returns (end: int, err: Option<Error>)
    ensures Step(end, err) == NumberFrac(buf, initialPos)
  {
    var i := initialPos;
    if i >= |buf| {
      return |buf|, ParseErrorAt(|buf|, Some(Cause(UnexpectedEOF)));
    }
    if buf[i] != Dot {
      return i, None;
    }
    i := i + 1;
    var digits := 0;
    while i < |buf| && IsDigit(buf[i])
      invariant initialPos + 1 <= i
      invariant DigitsEnd(buf, i) == DigitsEnd(buf, initialPos + 1)
      invariant digits == i - (initialPos + 1)
      decreases |buf| - i
    {
      digits := digits + 1;
      i := i + 1;
    }
    if i >= |buf| {
      return |buf|, ParseErrorAt(|buf|, Some(Cause(UnexpectedEOF)));
    }
    if digits == 0 {
      return i, ParseErrorAt(i, Some(Cause(Unexpected(buf[i]))));
    }
    return i, None;
  }

  /** parseNumberExp */
  method ParseNumberExp(buf: seq<byte>, initialPos: nat) returns (end: int, err: Option<Error>)
    ensures Step(end, err) == NumberExp(buf, initialPos)
  {
    var i := initialPos;
    if i >= |buf| {
      return |buf|, ParseErrorAt(|buf|, Some(Cause(UnexpectedEOF)));
    }
    if buf[i] != LowerE && buf[i] != UpperE {
      return i, None;
    }
    i := i + 1;
    if i >= |buf| {
      return |buf|, ParseErrorAt(|buf|, Some(Cause(UnexpectedEOF)));
    }
    if buf[i] == Plus || buf[i] == MinusSign {
      i := i + 1;
    }
    ghost var first := i;
    assert first == ExponentDigitsStart(buf, initialPos);
    var digits := 0;
    while i < |buf| && IsDigit(buf[i])
      invariant first <= i
      invariant DigitsEnd(buf, i) == DigitsEnd(buf, first)
      invariant digits == i - first
      decreases |buf| - i
    {
      digits := digits + 1;
      i := i + 1;
    }
    if i >= |buf| {
      return |buf|, ParseErrorAt(|buf|, Some(Cause(UnexpectedEOF)));
    }
    if digits == 0 {
      return i, ParseErrorAt(i, Some(Cause(Unexpected(buf[i]))));
    }
    return i, None;
  }

  /** parseNumber */
  method ParseNumber(buf: seq<byte>, initialPos: nat) returns (end: int, err: Option<Error>)
    ensures Step(end, err) == NumberScan(buf, initialPos)
  {
    var m := NumberMinus(buf, initialPos);
    if m.err.Some? {
      return m.end, m.err;
    }
    var i: int := m.end;
    i, err := ParseNumberInt(buf, i);
    if err.Some? {
      return i, err;
    }
    i, err := ParseNumberFrac(buf, i);
    if err.Some? {
      return i, err;
    }
    end, err := ParseNumberExp(buf, i);
  }

  // ------------------------------------------------------------ number grammar
  //
  // The number grammar of section 6 of RFC 8259,
  //   -?(0|[1-9][0-9]*)(\.[0-9]+)?([eE][+-]?[0-9]+)?
  // written over offsets of a buffer: the sign spans [a, b), the integer part
  // [b, c), the fraction [c, d) and the exponent [d, e).

  /** buf[lo..hi] is one or more digits. */
  predicate DigitsAt(buf: seq<byte>, lo: nat, hi: nat)
  {
    lo < hi <= |buf| && forall q :: lo <= q < hi ==> IsDigit(buf[q])
  }

  /** `-?` */
  predicate SignAt(buf: seq<byte>, a: nat, b: nat)
  {
    b == a || (b == a + 1 && a < |buf| && buf[a] == MinusSign)
  }

  /** `0 | [1-9][0-9]*` */
  predicate IntegerPartAt(buf: seq<byte>, b: nat, c: nat)
  {
    DigitsAt(buf, b, c) && (buf[b] == Zero ==> c == b + 1)
  }

  /** `(\.[0-9]+)?` */
  predicate FractionPartAt(buf: seq<byte>, c: nat, d: nat)
  {
    c == d || (c < |buf| && buf[c] == Dot && DigitsAt(buf, c + 1, d))
  }

  /** `([eE][+-]?[0-9]+)?` */
  predicate ExponentPartAt(buf: seq<byte>, d: nat, e: nat)
  {
    d == e ||
    (d + 1 < |buf| && (buf[d] == LowerE || buf[d] == UpperE) &&
     (DigitsAt(buf, d + 1, e) || ((buf[d + 1] == Plus || buf[d + 1] == MinusSign) && DigitsAt(buf, d + 2, e))))
  }

  /** buf[a..e] is a number whose parts meet at b, c and d. */
  predicate NumberParts(buf: seq<byte>, a: nat, b: nat, c: nat, d: nat, e: nat)
  {
    a <= b <= c <= d <= e <= |buf| &&
    SignAt(buf, a, b) && IntegerPartAt(buf, b, c) && FractionPartAt(buf, c, d) && ExponentPartAt(buf, d, e)
  }

  /** s is a number in the sense of the grammar. */
  ghost predicate IsNumberText(s: seq<byte>)
  {
    exists i: nat, j: nat, k: nat :: NumberParts(s, 0, i, j, k, |s|)
  }

  /**
   * buf1[lo..hi] and buf2[lo + delta..hi + delta] hold the same bytes: the
   * relation under which a token can be moved from one buffer to another.
   */
  predicate Agree(buf1: seq<byte>, buf2: seq<byte>, delta: int, lo: int, hi: int)
  {
    0 <= lo <= hi <= |buf1| && 0 <= lo + delta && hi + delta <= |buf2| &&
    forall t :: lo <= t < hi ==> buf1[t] == buf2[t + delta]
  }

  lemma DigitsTransfer(buf1: seq<byte>, buf2: seq<byte>, delta: int, lo: nat, hi: nat)
    requires Agree(buf1, buf2, delta, lo, hi) && DigitsAt(buf1, lo, hi)
    ensures DigitsAt(buf2, lo + delta, hi + delta)
  {
    forall q | lo + delta <= q < hi + delta ensures IsDigit(buf2[q]) {
      assert buf1[q - delta] == buf2[q];
    }
  }

  /** The grammar only looks at the bytes of the span. */
  lemma NumberPartsTransfer(buf1: seq<byte>, buf2: seq<byte>, delta: int, a: nat, b: nat, c: nat, d: nat, e: nat)
    requires Agree(buf1, buf2, delta, a, e) && NumberParts(buf1, a, b, c, d, e)
    ensures NumberParts(buf2, a + delta, b + delta, c + delta, d + delta, e + delta)
  {
    assert buf1[b] == buf2[b + delta];
    DigitsTransfer(buf1, buf2, delta, b, c);
    if c < d {
      assert buf1[c] == buf2[c + delta];
      DigitsTransfer(buf1, buf2, delta, c + 1, d);
    }
    if d < e {
      assert buf1[d] == buf2[d + delta] && buf1[d + 1] == buf2[d + 1 + delta];
      if DigitsAt(buf1, d + 1, e) {
        DigitsTransfer(buf1, buf2, delta, d + 1, e);
      } else {
        DigitsTransfer(buf1, buf2, delta, d + 2, e);
      }
    }
    if b == a + 1 {
      assert buf1[a] == buf2[a + delta];
    }
  }

  /** The parts of a successful parseNumber, at the offsets where it passes from one to the next. */
  lemma ScannedParts(buf: seq<byte>, pos: nat)
    requires NumberScan(buf, pos).err.None?
    ensures var m := NumberMinus(buf, pos); var n := NumberInt(buf, m.end); var f := NumberFrac(buf, n.end);
      NumberParts(buf, pos, m.end, n.end, f.end, NumberScan(buf, pos).end)
  {
    var m := NumberMinus(buf, pos);
    var n := NumberInt(buf, m.end);
    var f := NumberFrac(buf, n.end);
    DigitsEndSkipsDigits(buf, m.end);
    DigitsEndSkipsDigits(buf, n.end + 1);
    if f.end + 1 < |buf| {
      DigitsEndSkipsDigits(buf, ExponentDigitsStart(buf, f.end));
    }
  }

  /** The span a successful parseNumber consumes is a number in the sense of the grammar. */
  lemma NumberSpanIsNumber(buf: seq<byte>, pos: nat)
    requires NumberScan(buf, pos).err.None?
    ensures IsNumberText(buf[pos..NumberScan(buf, pos).end])
  {
    var m := NumberMinus(buf, pos);
    var n := NumberInt(buf, m.end);
    var f := NumberFrac(buf, n.end);
    var e := NumberScan(buf, pos).end;
    var s := buf[pos..e];
    ScannedParts(buf, pos);
    assert pos <= m.end <= n.end <= f.end <= e;
    NumberPartsTransfer(buf, s, -(pos as int), pos, m.end, n.end, f.end, e);
  }

  /** A run of digits that ends on a non-digit is exactly what a `digits` loop consumes. */
  lemma {:induction false} DigitsEndAt(buf: seq<byte>, i: nat, j: nat)
    requires i <= j < |buf|
    requires forall k :: i <= k < j ==> IsDigit(buf[k])
    requires !IsDigit(buf[j])
    ensures DigitsEnd(buf, i) == j
    decreases j - i
  {
    if i < j {
      DigitsEndAt(buf, i + 1, j);
    }
  }

  /** Digits up to a non-digit form the part each number sub-parser accepts. */
  lemma PartsAreScanned(buf: seq<byte>, b: nat, c: nat, d: nat, e: nat)
    requires e < |buf| && !ExtendsNumber(buf[e])
    requires IntegerPartAt(buf, b, c) && FractionPartAt(buf, c, d) && ExponentPartAt(buf, d, e)
    requires c <= d <= e
    ensures NumberInt(buf, b) == Step(c, None)
    ensures NumberFrac(buf, c) == Step(d, None)
    ensures NumberExp(buf, d) == Step(e, None)
  {
    if buf[b] != Zero {
      DigitsEndAt(buf, b, c);
    }
    if c < d {
      DigitsEndAt(buf, c + 1, d);
    }
    if d < e {
      DigitsEndAt(buf, ExponentDigitsStart(buf, d), e);
    }
  }

  lemma NumberPartsAreScanned(buf: seq<byte>, a: nat, b: nat, c: nat, d: nat, e: nat)
    requires e < |buf| && !ExtendsNumber(buf[e])
    requires NumberParts(buf, a, b, c, d, e)
    ensures NumberScan(buf, a) == Step(e, None)
  {
    assert NumberMinus(buf, a) == Step(b, None);
    PartsAreScanned(buf, b, c, d, e);
  }

  /**
   * Conversely, a number in the sense of the grammar, followed by a byte that cannot
   * extend it, is consumed by parseNumber exactly.
   */
  lemma NumberTextIsScanned(buf: seq<byte>, pos: nat, e: nat)
    requires pos <= e < |buf|
    requires IsNumberText(buf[pos..e])
    requires !ExtendsNumber(buf[e])
    ensures NumberScan(buf, pos) == Step(e, None)
  {
    var s := buf[pos..e];
    var i: nat, j: nat, k: nat :| NumberParts(s, 0, i, j, k, |s|);
    NumberPartsTransfer(s, buf, pos, 0, i, j, k, |s|);
    NumberPartsAreScanned(buf, pos, pos + i, pos + j, pos + k, e);
  }

  // ------------------------------------------------- where a failing number stops

  /** s can be continued into a number: some number text begins with s. */
  ghost predicate IsNumberPrefix(s: seq<byte>)
  {
    exists t: seq<byte> :: IsNumberText(s + t)
  }

  /** The parts of a number make the span they cover a number text. */
  lemma PartsMakeNumberText(buf: seq<byte>, a: nat, b: nat, c: nat, d: nat, e: nat)
    requires NumberParts(buf, a, b, c, d, e)
    ensures IsNumberText(buf[a..e])
  {
    NumberPartsTransfer(buf, buf[a..e], -(a as int), a, b, c, d, e);
  }

  /** The integer part a successful parseNumberInt passes over. */
  lemma IntegerScanned(buf: seq<byte>, b: nat)
    requires NumberInt(buf, b).err.None?
    ensures IntegerPartAt(buf, b, NumberInt(buf, b).end)
  {
    DigitsEndSkipsDigits(buf, b);
  }

  /** The fraction a successful parseNumberFrac passes over. */
  lemma FractionScanned(buf: seq<byte>, c: nat)
    requires NumberFrac(buf, c).err.None?
    ensures FractionPartAt(buf, c, NumberFrac(buf, c).end)
  {
    DigitsEndSkipsDigits(buf, c + 1);
  }

  /** A `digits` loop that stops inside the agreeing range stops at the same place in both buffers. */
  lemma DigitsEndTransfer(buf1: seq<byte>, buf2: seq<byte>, delta: int, lo: nat, hi: nat, i: nat)
    requires Agree(buf1, buf2, delta, lo, hi)
    requires lo <= i && DigitsEnd(buf1, i) < hi
    ensures DigitsEnd(buf2, i + delta) == DigitsEnd(buf1, i) + delta
  {
    var j := DigitsEnd(buf1, i);
    DigitsEndSkipsDigits(buf1, i);
    forall k | i + delta <= k < j + delta
      ensures IsDigit(buf2[k])
    {
      assert buf1[k - delta] == buf2[k];
    }
    assert buf1[j] == buf2[j + delta];
    DigitsEndAt(buf2, i + delta, j + delta);
  }

  /** The integer part scans the same in both buffers when they agree on it and on the byte after it. */
  lemma IntegerShift(buf1: seq<byte>, buf2: seq<byte>, delta: int, lo: nat, hi: nat, b: nat)
    requires NumberInt(buf1, b).err.None? && lo <= b && NumberInt(buf1, b).end < hi
    requires Agree(buf1, buf2, delta, lo, hi)
    ensures NumberInt(buf2, b + delta) == Step(NumberInt(buf1, b).end + delta, None)
  {
    assert buf1[b] == buf2[b + delta];
    if buf1[b] != Zero {
      DigitsEndTransfer(buf1, buf2, delta, lo, hi, b);
    }
  }

  /** The fraction scans the same in both buffers when they agree on it and on the byte after it. */
  lemma FractionShift(buf1: seq<byte>, buf2: seq<byte>, delta: int, lo: nat, hi: nat, c: nat)
    requires NumberFrac(buf1, c).err.None? && lo <= c && NumberFrac(buf1, c).end < hi
    requires Agree(buf1, buf2, delta, lo, hi)
    ensures NumberFrac(buf2, c + delta) == Step(NumberFrac(buf1, c).end + delta, None)
  {
    assert buf1[c] == buf2[c + delta];
    if buf1[c] == Dot {
      DigitsEndTransfer(buf1, buf2, delta, lo, hi, c + 1);
    }
  }

  /**
   * Where a parseNumber that rejects the byte at p stops: at the integer
   * part, one past a `.`, or at the first exponent digit.
   */
  lemma RejectStage(buf: seq<byte>, pos: nat, p: nat)
    requires p < |buf| && NumberScan(buf, pos) == Fail(p, p, Unexpected(buf[p]))
    ensures pos < |buf| && pos <= NumberMinus(buf, pos).end <= p
    ensures var b := NumberMinus(buf, pos).end; var n := NumberInt(buf, b);
      NumberMinus(buf, pos).err.None? &&
      (n.err.Some? ==> p == b && !IsDigit(buf[b])) &&
      (n.err.None? ==>
        var f := NumberFrac(buf, n.end);
        (f.err.Some? ==> p == n.end + 1 && buf[n.end] == Dot && !IsDigit(buf[p])) &&
        (f.err.None? ==>
          f.end + 1 < |buf| && (buf[f.end] == LowerE || buf[f.end] == UpperE) &&
          p == ExponentDigitsStart(buf, f.end) && !IsDigit(buf[p]) &&
          NumberExp(buf, f.end) == Fail(p, p, Unexpected(buf[p]))))
  {
  }

  /** A parseNumber that rejects the byte at p reads nothing past it. */
  lemma NumberRejectShift(buf1: seq<byte>, buf2: seq<byte>, delta: int, pos: nat, p: nat)
    requires p < |buf1| && NumberScan(buf1, pos) == Fail(p, p, Unexpected(buf1[p]))
    requires pos <= p && Agree(buf1, buf2, delta, pos, p + 1)
    ensures NumberScan(buf2, pos + delta) == Fail(p + delta, p + delta, Unexpected(buf1[p]))
  {
    RejectStage(buf1, pos, p);
    var pos2 := pos + delta;
    assert buf1[pos] == buf2[pos2];
    var b := NumberMinus(buf1, pos).end;
    assert NumberMinus(buf2, pos2) == Step(b + delta, None);
    var n := NumberInt(buf1, b);
    if n.err.Some? {
      IntRejectShift(buf1, buf2, delta, pos, p);
      return;
    }
    var c := n.end;
    IntegerShift(buf1, buf2, delta, pos, p + 1, b);
    TailRejectShift(buf1, buf2, delta, pos, p, c, c + delta);
    ScanAfterInteger(buf2, pos2, b + delta, c + delta);
  }

  /** Once the sign and the integer part are read, the fraction and the exponent decide. */
  lemma ScanAfterInteger(buf: seq<byte>, pos: int, b: int, c: int)
    requires pos >= 0 && b >= 0 && c >= 0
    requires NumberMinus(buf, pos) == Step(b, None) && NumberInt(buf, b) == Step(c, None)
    ensures var f := NumberFrac(buf, c);
      NumberScan(buf, pos) == if f.err.Some? then f else NumberExp(buf, f.end)
  {
  }

  /**
   * After the integer part, at c: the fraction or the exponent rejects the
   * byte at p, at the same byte in both buffers.
   */
  lemma TailRejectShift(buf1: seq<byte>, buf2: seq<byte>, delta: int, lo: nat, p: nat, c: nat, c2: int)
    requires lo <= c <= p < |buf1| && c2 == c + delta && Agree(buf1, buf2, delta, lo, p + 1)
    requires var f := NumberFrac(buf1, c);
      (f.err.Some? ==> p == c + 1 && buf1[c] == Dot && !IsDigit(buf1[p])) &&
      (f.err.None? ==> f.end <= p && NumberExp(buf1, f.end) == Fail(p, p, Unexpected(buf1[p])))
    ensures var f2 := NumberFrac(buf2, c2);
      (if f2.err.Some? then f2 else NumberExp(buf2, f2.end)) == Fail(p + delta, p + delta, Unexpected(buf1[p]))
  {
    var f := NumberFrac(buf1, c);
    if f.err.Some? {
      FracRejectShift(buf1, buf2, delta, lo, p, c);
    } else {
      FractionShift(buf1, buf2, delta, lo, p + 1, c);
      ExponentRejectShift(buf1, buf2, delta, lo, p, f.end);
    }
  }

  /** A non-digit where the integer part is due is rejected at the same byte in both buffers. */
  lemma IntRejectShift(buf1: seq<byte>, buf2: seq<byte>, delta: int, lo: nat, p: nat)
    requires lo <= p < |buf1| && !IsDigit(buf1[p]) && Agree(buf1, buf2, delta, lo, p + 1)
    ensures NumberInt(buf2, p + delta) == Fail(p + delta, p + delta, Unexpected(buf1[p]))
  {
    assert buf1[p] == buf2[p + delta];
  }

  /** A dot with no digit after it is rejected at the same byte in both buffers. */
  lemma FracRejectShift(buf1: seq<byte>, buf2: seq<byte>, delta: int, lo: nat, p: nat, c: nat)
    requires lo <= c && p == c + 1 && p < |buf1| && buf1[c] == Dot && !IsDigit(buf1[p])
    requires Agree(buf1, buf2, delta, lo, p + 1)
    ensures NumberFrac(buf2, c + delta) == Fail(p + delta, p + delta, Unexpected(buf1[p]))
  {
    assert buf1[c] == buf2[c + delta] && buf1[p] == buf2[p + delta];
  }

  /** An exponent with no digit is rejected at the same byte in both buffers. */
  lemma ExponentRejectShift(buf1: seq<byte>, buf2: seq<byte>, delta: int, lo: nat, p: nat, d: nat)
    requires p < |buf1| && lo <= d && NumberExp(buf1, d) == Fail(p, p, Unexpected(buf1[p]))
    requires Agree(buf1, buf2, delta, lo, p + 1)
    ensures NumberExp(buf2, d + delta) == Fail(p + delta, p + delta, Unexpected(buf1[p]))
  {
    assert buf1[d] == buf2[d + delta] && buf1[d + 1] == buf2[d + 1 + delta] && buf1[p] == buf2[p + delta];
  }

  /** A number whose last byte is a `0` put in place of buf[p]. */
  lemma ZeroCompletes(buf: seq<byte>, a: nat, b: nat, c: nat, d: nat, p: nat)
    requires p < |buf| && NumberParts(buf[p := Zero], a, b, c, d, p + 1)
    ensures IsNumberText(buf[a..p] + [Zero])
  {
    PartsMakeNumberText(buf[p := Zero], a, b, c, d, p + 1);
    assert buf[p := Zero][a..p + 1] == buf[a..p] + [Zero];
  }

  /** A sign with no digit after it: a `0` completes it. */
  lemma IntegerRejectContinues(buf: seq<byte>, pos: nat, p: nat)
    requires p < |buf| && SignAt(buf, pos, p)
    ensures IsNumberText(buf[pos..p] + [Zero])
  {
    assert NumberParts(buf[p := Zero], pos, p, p + 1, p + 1, p + 1);
    ZeroCompletes(buf, pos, p, p + 1, p + 1, p);
  }

  /** An integer part and a `.` with no digit after it: a `0` completes it. */
  lemma FractionRejectContinues(buf: seq<byte>, pos: nat, b: nat, c: nat)
    requires c + 1 < |buf| && SignAt(buf, pos, b) && IntegerPartAt(buf, b, c) && buf[c] == Dot
    ensures IsNumberText(buf[pos..c + 1] + [Zero])
  {
    var buf' := buf[c + 1 := Zero];
    assert IntegerPartAt(buf', b, c);
    assert NumberParts(buf', pos, b, c, c + 2, c + 2);
    ZeroCompletes(buf, pos, b, c, c + 2, c + 1);
  }

  /** Integer and fraction parts, `e` and an optional sign with no digit after them: a `0` completes them. */
  lemma ExponentRejectContinues(buf: seq<byte>, pos: nat, b: nat, c: nat, d: nat)
    requires d + 1 < |buf| && ExponentDigitsStart(buf, d) < |buf|
    requires SignAt(buf, pos, b) && IntegerPartAt(buf, b, c) && FractionPartAt(buf, c, d) && c <= d
    requires buf[d] == LowerE || buf[d] == UpperE
    ensures IsNumberText(buf[pos..ExponentDigitsStart(buf, d)] + [Zero])
  {
    var p := ExponentDigitsStart(buf, d);
    var buf' := buf[p := Zero];
    assert IntegerPartAt(buf', b, c);
    assert FractionPartAt(buf', c, d);
    assert ExponentPartAt(buf', d, p + 1);
    assert NumberParts(buf', pos, b, c, d, p + 1);
    ZeroCompletes(buf, pos, b, c, d, p);
  }

  /** Every byte before the one a failing parseNumber rejects was accepted: the number could go on. */
  lemma RejectedPrefixContinues(buf: seq<byte>, pos: nat, p: nat)
    requires p < |buf| && NumberScan(buf, pos) == Fail(p, p, Unexpected(buf[p]))
    ensures pos <= p && IsNumberText(buf[pos..p] + [Zero])
  {
    RejectStage(buf, pos, p);
    var b := NumberMinus(buf, pos).end;
    var n := NumberInt(buf, b);
    if n.err.Some? {
      IntegerRejectContinues(buf, pos, p);
    } else {
      var c := n.end;
      IntegerScanned(buf, b);
      var f := NumberFrac(buf, c);
      if f.err.Some? {
        FractionRejectContinues(buf, pos, b, c);
      } else {
        FractionScanned(buf, c);
        ExponentRejectContinues(buf, pos, b, c, f.end);
      }
    }
  }

  /** Nothing that begins with the bytes up to and including the rejected one is a number. */
  lemma RejectedPrefixEnds(buf: seq<byte>, pos: nat, p: nat)
    requires p < |buf| && NumberScan(buf, pos) == Fail(p, p, Unexpected(buf[p]))
    requires pos <= p
    ensures !IsNumberPrefix(buf[pos..p + 1])
  {
    if IsNumberPrefix(buf[pos..p + 1]) {
      var t: seq<byte> :| IsNumberText(buf[pos..p + 1] + t);
      var s := buf[pos..p + 1] + t;
      var buf2 := s + [Space];
      assert buf2[0..|s|] == s;
      NumberTextIsScanned(buf2, 0, |s|);
      assert Agree(buf, buf2, -(pos as int), pos, p + 1);
      NumberRejectShift(buf, buf2, -(pos as int), pos, p);
    }
  }

  /**
   * A parseNumber that fails before the end of the buffer fails on the first
   * byte the number grammar rejects: the bytes before it begin a number, and
   * no number begins with them followed by that byte.
   */
  lemma NumberFailsAtFirstRejectedByte(buf: seq<byte>, pos: nat)
    requires NumberScan(buf, pos).err.Some? && NumberScan(buf, pos).end < |buf|
    ensures var p := NumberScan(buf, pos).end;
      pos <= p && NumberScan(buf, pos) == Fail(p, p, Unexpected(buf[p])) &&
      IsNumberPrefix(buf[pos..p]) && !IsNumberPrefix(buf[pos..p + 1])
  {
    var p := NumberScan(buf, pos).end;
    RejectedPrefixContinues(buf, pos, p);
    assert IsNumberText(buf[pos..p] + [Zero]);
    RejectedPrefixEnds(buf, pos, p);
  }

  // ------------------------------------------------------------------- strings

  /** The scan of parseString after the opening quote: the first `"` not escaped ends the string. */
  function StringFrom(buf: seq<byte>, i: nat, escapeNext: bool): (s: Step)
    ensures s.err.None? ==> i < s.end <= |buf| && buf[s.end - 1] == QuoteMark
    ensures s.err.Some? ==> s == Fail(|buf|, |buf|, UnexpectedEOF)
    decreases Remaining(buf, i)
  {
    if i >= |buf| then Fail(|buf|, |buf|, UnexpectedEOF)
    else if buf[i] == Backslash then StringFrom(buf, i + 1, !escapeNext)
    else if buf[i] == QuoteMark && !escapeNext then Step(i + 1, None)
    else StringFrom(buf, i + 1, false)
  }

  /** parseString, as a function. */
  function StringScan(buf: seq<byte>, pos: nat): (s: Step)
    ensures s.err.None? ==> pos + 2 <= s.end <= |buf| && buf[pos] == QuoteMark && buf[s.end - 1] == QuoteMark
    ensures s.err.Some? ==> WellPlaced(buf, s.err) && s.end <= |buf|
  {
    if pos >= |buf| then Fail(|buf|, |buf|, UnexpectedEOF)
    else if buf[pos] != QuoteMark then Fail(pos + 1, pos, Unexpected(buf[pos]))
    else StringFrom(buf, pos + 1, false)
  }

  /** parseString */
  method ParseString(buf: seq<byte>, initialPos: nat) returns (end: int, err: Option<Error>)
    ensures Step(end, err) == StringScan(buf, initialPos)
  {
    var i := initialPos;
    if i >= |buf| {
      return |buf|, ParseErrorAt(|buf|, Some(Cause(UnexpectedEOF)));
    }
    var b := buf[i];
    if b != QuoteMark {
      return i + 1, ParseErrorAt(i, Some(Cause(Unexpected(b))));
    }
    i := i + 1;
    var escapeNext := false;
    while i < |buf|
      invariant initialPos < i <= |buf|
      invariant StringFrom(buf, i, escapeNext) == StringScan(buf, initialPos)
      decreases |buf| - i
    {
      b := buf[i];
      if b == Backslash {
        if escapeNext {
          escapeNext := false;
        } else {
          escapeNext := true;
        }
      } else if b == QuoteMark {
        if !escapeNext {
          return i + 1, None;
        }
        escapeNext := false;
      } else {
        escapeNext := false;
      }
      i := i + 1;
    }
    return |buf|, ParseErrorAt(|buf|, Some(Cause(UnexpectedEOF)));
  }

  /** The number of backslashes immediately before offset j, not counting any before lo. */
  function BackslashRun(buf: seq<byte>, lo: nat, j: nat): nat
    requires j <= |buf|
    decreases j
  {
    if j > lo && buf[j - 1] == Backslash then BackslashRun(buf, lo, j - 1) + 1 else 0
  }

  /** Offset j holds a quote that closes the string opened at pos: it follows an even run of backslashes. */
  predicate ClosesString(buf: seq<byte>, pos: nat, j: nat)
  {
    pos < j < |buf| && buf[j] == QuoteMark && BackslashRun(buf, pos + 1, j) % 2 == 0
  }

  lemma {:induction false} StringFromCloses(buf: seq<byte>, pos: nat, i: nat, escapeNext: bool)
    requires pos + 1 <= i <= |buf|
    requires escapeNext == (BackslashRun(buf, pos + 1, i) % 2 == 1)
    ensures var s := StringFrom(buf, i, escapeNext);
      (s.err.None? ==> ClosesString(buf, pos, s.end - 1) &&
                       forall j :: i <= j < s.end - 1 ==> !ClosesString(buf, pos, j)) &&
      (s.err.Some? ==> forall j :: i <= j < |buf| ==> !ClosesString(buf, pos, j))
    decreases |buf| - i
  {
    if i < |buf| {
      if buf[i] == Backslash {
        StringFromCloses(buf, pos, i + 1, !escapeNext);
      } else if buf[i] == QuoteMark && !escapeNext {
      } else {
        assert BackslashRun(buf, pos + 1, i + 1) == 0;
        StringFromCloses(buf, pos, i + 1, false);
      }
    }
  }

  /**
   * parseString ends one past the first quote after pos that is not preceded by an
   * odd run of backslashes; without one it fails with a truncation at the end of input.
   */
  lemma StringEndsAtFirstClosingQuote(buf: seq<byte>, pos: nat)
    requires pos < |buf| && buf[pos] == QuoteMark
    ensures var s := StringScan(buf, pos);
      (s.err.None? ==> ClosesString(buf, pos, s.end - 1) &&
                       forall j :: pos < j < s.end - 1 ==> !ClosesString(buf, pos, j)) &&
      (s.err.Some? ==> s == Fail(|buf|, |buf|, UnexpectedEOF) &&
                       forall j :: pos < j < |buf| ==> !ClosesString(buf, pos, j))
  {
    StringFromCloses(buf, pos, pos + 1, false);
  }
}
