/**
 * Key unquoting. parser.go hands every quoted top-level key to the external
 * jsonconv.Unquote; this module stands in for it with the unescaping of
 * section 7 of RFC 8259: the escapes \" \\ \/ \b \f \n \r \t and \uXXXX
 * (a UTF-16 surrogate pair joined into one code point, a lone surrogate
 * replaced by U+FFFD), unescaped control bytes and quotes refused, every
 * other byte copied. Quote is its inverse on arbitrary byte strings.
 */
module Keys {
  import opened Wrappers
  import opened Bytes

  const LowerB: byte := 0x62   // b
  const LowerF: byte := 0x66   // f
  const LowerN: byte := 0x6E   // n
  const LowerR: byte := 0x72   // r
  const LowerT: byte := 0x74   // t
  const LowerU: byte := 0x75   // u

  /** The value of a hexadecimal digit, either case. */
  function HexDigit(b: byte): (r: Option<nat>)
    ensures r.Some? ==> r.value < 16
  {
    if Zero <= b <= Nine then Some(b - Zero)
    else if 0x61 <= b <= 0x66 then Some(b - 0x61 + 10)
    else if 0x41 <= b <= 0x46 then Some(b - 0x41 + 10)
    else None
  }

  /** The lower-case hexadecimal digit for d. */
  function HexChar(d: nat): (b: byte)
    requires d < 16
    ensures HexDigit(b) == Some(d)
  {
    if d < 10 then Zero + d else 0x61 + d - 10
  }

  /** Four hexadecimal digits at s[i..i+4], as a number below 0x10000. */
  function Hex4(s: seq<byte>, i: nat): (r: Option<nat>)
    requires i + 4 <= |s|
    ensures r.Some? ==> r.value < 0x10000
  {
    var a, b, c, d := HexDigit(s[i]), HexDigit(s[i + 1]), HexDigit(s[i + 2]), HexDigit(s[i + 3]);
    if a.None? || b.None? || c.None? || d.None? then None
    else Some(((a.value * 16 + b.value) * 16 + c.value) * 16 + d.value)
  }

  predicate IsHighSurrogate(c: int) { 0xD800 <= c < 0xDC00 }
  predicate IsLowSurrogate(c: int) { 0xDC00 <= c < 0xE000 }

  /** The UTF-8 encoding of a code point. */
  function Utf8(c: nat): (r: seq<byte>)
    requires c < 0x110000
    ensures 1 <= |r| <= 4
    ensures c < 0x80 <==> r == [c]
  {
    if c < 0x80 then [c]
    else if c < 0x800 then [0xC0 + c / 64, 0x80 + c % 64]
    else if c < 0x10000 then [0xE0 + c / 4096, 0x80 + (c / 64) % 64, 0x80 + c % 64]
    else [0xF0 + c / 262144, 0x80 + (c / 4096) % 64, 0x80 + (c / 64) % 64, 0x80 + c % 64]
  }

  const ReplacementChar: nat := 0xFFFD

  function Prepend(x: seq<byte>, rest: Option<seq<byte>>): (r: Option<seq<byte>>)
    ensures r.Some? <==> rest.Some?
    ensures r.Some? ==> r.value == x + rest.value
  {
    if rest.None? then None else Some(x + rest.value)
  }

  /** The byte a one-letter escape stands for, if the letter is one. */
  function SimpleEscape(b: byte): (r: Option<byte>)
    ensures r.Some? <==> b in {QuoteMark, Backslash, Slash, LowerB, LowerF, LowerN, LowerR, LowerT}
  {
    if b == QuoteMark || b == Backslash || b == Slash then Some(b)
    else if b == LowerB then Some(0x08)
    else if b == LowerF then Some(0x0C)
    else if b == LowerN then Some(LineFeed)
    else if b == LowerR then Some(CarriageReturn)
    else if b == LowerT then Some(Tab)
    else None
  }

  /**
   * The body s[i..hi] of a quoted string with its escapes resolved; None when it
   * is not well formed. It works on offsets so that a caller holding a slice of a
   * larger buffer does not pay for slices of slices.
   */
  function Unescape(s: seq<byte>, i: nat, hi: nat): Option<seq<byte>>
    requires i <= hi <= |s|
    decreases hi - i
  {
    if i == hi then Some([])
    else if s[i] == Backslash then
      if hi - i < 2 then None
      else if s[i + 1] != LowerU then
        var e := SimpleEscape(s[i + 1]);
        if e.None? then None else Prepend([e.value], Unescape(s, i + 2, hi))
      else if hi - i < 6 || Hex4(s, i + 2).None? then None
      else
        var c := Hex4(s, i + 2).value;
        if IsHighSurrogate(c) && hi - i >= 12 && s[i + 6] == Backslash && s[i + 7] == LowerU &&
           Hex4(s, i + 8).Some? && IsLowSurrogate(Hex4(s, i + 8).value) then
          var lo := Hex4(s, i + 8).value;
          Prepend(Utf8(0x10000 + (c - 0xD800) * 0x400 + (lo - 0xDC00)), Unescape(s, i + 12, hi))
        else if IsHighSurrogate(c) || IsLowSurrogate(c) then Prepend(Utf8(ReplacementChar), Unescape(s, i + 6, hi))
        else Prepend(Utf8(c), Unescape(s, i + 6, hi))
    else if s[i] == QuoteMark || s[i] < 0x20 then None
    else Prepend([s[i]], Unescape(s, i + 1, hi))
  }

  /** jsonconv.Unquote on the bytes of a quoted string token. */
  function Unquote(s: seq<byte>): (r: Option<seq<byte>>)
    ensures r.Some? ==> 2 <= |s| && s[0] == QuoteMark && s[|s| - 1] == QuoteMark
  {
    if |s| < 2 || s[0] != QuoteMark || s[|s| - 1] != QuoteMark then None
    else Unescape(s, 1, |s| - 1)
  }

  /** A byte that may stand for itself inside a quoted string. */
  predicate IsPlain(b: byte)
  {
    b != QuoteMark && b != Backslash && b >= 0x20
  }

  /** A body made of plain bytes only is its own unescaping. */
  lemma {:induction false} PlainUnescapesToItself(s: seq<byte>, i: nat, hi: nat)
    requires i <= hi <= |s|
    requires forall k :: i <= k < hi ==> IsPlain(s[k])
    ensures Unescape(s, i, hi) == Some(s[i..hi])
    decreases hi - i
  {
    if i < hi {
      PlainUnescapesToItself(s, i + 1, hi);
      assert IsPlain(s[i]);
      assert Unescape(s, i, hi) == Prepend([s[i]], Unescape(s, i + 1, hi));
      assert [s[i]] + s[i + 1..hi] == s[i..hi];
    }
  }

  /** The escape of one byte: quote and backslash by a backslash, control bytes by \u00XX. */
  function EscapeByte(b: byte): seq<byte>
  {
    if b == QuoteMark || b == Backslash then [Backslash, b]
    else if b < 0x20 then [Backslash, LowerU, Zero, Zero, HexChar(b / 16), HexChar(b % 16)]
    else [b]
  }

  /** Each byte of s in turn, escaped where it must be. */
  function Escape(s: seq<byte>): seq<byte>
  {
    if s == [] then [] else EscapeByte(s[0]) + Escape(s[1..])
  }

  /** The quoted form of any byte string. */
  function Quote(s: seq<byte>): (q: seq<byte>)
    ensures |q| >= 2 && q[0] == QuoteMark && q[|q| - 1] == QuoteMark
  {
    [QuoteMark] + Escape(s) + [QuoteMark]
  }

  /** The escape of b at offset i is resolved back to b. */
  lemma UnescapeEscapedByte(t: seq<byte>, i: nat, hi: nat, b: byte)
    requires i + |EscapeByte(b)| <= hi <= |t|
    requires t[i..i + |EscapeByte(b)|] == EscapeByte(b)
    ensures Unescape(t, i, hi) == Prepend([b], Unescape(t, i + |EscapeByte(b)|, hi))
  {
    if b == QuoteMark || b == Backslash {
      assert t[i] == Backslash && t[i + 1] == b by {
        assert t[i..i + 2][0] == t[i] && t[i..i + 2][1] == t[i + 1];
      }
      UnescapeTwoByteEscape(t, i, hi);
    } else if b < 0x20 {
      UnescapeControlByte(t, i, hi, b);
    } else {
      assert t[i] == b by {
        assert t[i..i + 1][0] == t[i];
      }
      UnescapePlainByte(t, i, hi);
    }
  }

  /** The escape of b followed by the escape of rest is resolved to b then rest. */
  lemma UnescapeEscapedByteThen(t: seq<byte>, i: nat, hi: nat, b: byte, rest: seq<byte>)
    requires i + |EscapeByte(b)| <= hi <= |t|
    requires t[i..i + |EscapeByte(b)|] == EscapeByte(b)
    requires Unescape(t, i + |EscapeByte(b)|, hi) == Some(rest)
    ensures Unescape(t, i, hi) == Some([b] + rest)
  {
    UnescapeEscapedByte(t, i, hi, b);
  }

  /** \" and \\ stand for the quote and the backslash. */
  lemma UnescapeTwoByteEscape(t: seq<byte>, i: nat, hi: nat)
    requires i + 2 <= hi <= |t|
    requires t[i] == Backslash && (t[i + 1] == QuoteMark || t[i + 1] == Backslash)
    ensures Unescape(t, i, hi) == Prepend([t[i + 1]], Unescape(t, i + 2, hi))
  {
  }

  /** A plain byte stands for itself. */
  lemma UnescapePlainByte(t: seq<byte>, i: nat, hi: nat)
    requires i < hi <= |t| && IsPlain(t[i])
    ensures Unescape(t, i, hi) == Prepend([t[i]], Unescape(t, i + 1, hi))
  {
  }

  /** A control byte written as \u00XX is resolved back to that byte. */
  lemma UnescapeControlByte(t: seq<byte>, i: nat, hi: nat, b: byte)
    requires b < 0x20 && i + 6 <= hi <= |t|
    requires t[i..i + 6] == [Backslash, LowerU, Zero, Zero, HexChar(b / 16), HexChar(b % 16)]
    ensures Unescape(t, i, hi) == Prepend([b], Unescape(t, i + 6, hi))
  {
    var w := t[i..i + 6];
    assert t[i] == w[0] && t[i + 1] == w[1];
    assert t[i + 2] == w[2] && t[i + 3] == w[3] && t[i + 4] == w[4] && t[i + 5] == w[5];
    assert Hex4(t, i + 2) == Some(b);
  }

  /** The escaped form of s, sitting at t[i..hi], is resolved back to s. */
  lemma {:induction false} UnescapeEscape(t: seq<byte>, i: nat, hi: nat, s: seq<byte>)
    requires i + |Escape(s)| == hi <= |t|
    requires t[i..hi] == Escape(s)
    ensures Unescape(t, i, hi) == Some(s)
    decreases |s|
  {
    if s != [] {
      var head := EscapeByte(s[0]);
      var m := |head|;
      assert i + m <= hi && t[i..i + m] == head && t[i + m..hi] == Escape(s[1..]) by {
        assert Escape(s) == head + Escape(s[1..]);
        assert t[i..i + m] == t[i..hi][..m];
        assert t[i + m..hi] == t[i..hi][m..];
      }
      UnescapeEscape(t, i + m, hi, s[1..]);
      UnescapeEscapedByteThen(t, i, hi, s[0], s[1..]);
      assert [s[0]] + s[1..] == s;
    }
  }

  /** Unquote undoes Quote for every byte string. */
  lemma UnquoteQuote(s: seq<byte>)
    ensures Unquote(Quote(s)) == Some(s)
  {
    var q := Quote(s);
    assert q[1..|q| - 1] == Escape(s);
    UnescapeEscape(q, 1, |q| - 1, s);
  }
}
