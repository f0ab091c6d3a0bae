/**
 * The error values of the package: the causes the scanner reports, the two
 * sentinels that end an array or an object, and the position-tagged error of
 * error.go (`errAt`) with its constructor `parseErrorAt` and its accessors.
 */
module Errors {
  import opened Wrappers

  /** What went wrong, independent of where it was found. */
  datatype Kind =
    | UnexpectedEOF        // io.ErrUnexpectedEOF, bare or wrapped by fmt.Errorf("...: %w")
    | Unexpected(b: int)   // "<token>: unexpected 0x%X": the byte no rule accepts
    | DepthLimit           // "array: depth limit reached", "object: depth limit reached"
    | KeyNotUnquoted       // "parse: could not unquote key [%d:%d]"
    | OutputFailed         // an error returned by the output stream

  /** A Go `error` value as this package produces or inspects it. */
  datatype Error =
    | EndArray                           // errEndArray, the sentinel `errors.New("]")`
    | EndObject                          // errEndObject, the sentinel `errors.New("}")`
    | Cause(kind: Kind)                  // an untagged error built on the spot
    | At(cause: Option<Error>, pos: int) // *errAt: a cause tagged with a byte offset

  /** The type assertion `err.(errorAt)`: only *errAt implements Pos(). */
  predicate IsErrorAt(e: Error)
  {
    e.At?
  }

  /** (*errAt).Pos */
  function Pos(e: Error): (p: int)
    requires IsErrorAt(e)
    ensures e == At(e.cause, p)
  {
    e.pos
  }

  /** (*errAt).Unwrap */
  function Unwrap(e: Error): (c: Option<Error>)
    requires IsErrorAt(e)
    ensures e == At(c, e.pos)
  {
    e.cause
  }

  /**
   * parseErrorAt: nil stays nil, an error already tagged at `pos` is returned
   * as it is, anything else is wrapped in a new tag at `pos`.
   */
  function ParseErrorAt(pos: int, err: Option<Error>): (r: Option<Error>)
    ensures r.None? <==> err.None?
    ensures r.Some? ==> IsErrorAt(r.value) && Pos(r.value) == pos
    ensures err.Some? && IsErrorAt(err.value) && Pos(err.value) == pos ==> r == err
    ensures err.Some? && !(IsErrorAt(err.value) && Pos(err.value) == pos) ==> Unwrap(r.value) == err
  {
    match err
    case None => None
    case Some(e) =>
      if IsErrorAt(e) && Pos(e) == pos then err else Some(At(err, pos))
  }

  /** Tagging twice at the same offset is the same as tagging once. */
  lemma RetagSameIsIdempotent(pos: int, err: Option<Error>)
    ensures ParseErrorAt(pos, ParseErrorAt(pos, err)) == ParseErrorAt(pos, err)
  {
  }

  /** Tagging at a new offset wraps: the new offset is reported and the old tag becomes the cause. */
  lemma RetagElsewhereWraps(p: int, q: int, err: Error)
    requires p != q
    ensures var inner := ParseErrorAt(p, Some(err));
            var outer := ParseErrorAt(q, inner);
            outer.Some? && Pos(outer.value) == q && Unwrap(outer.value) == inner
  {
  }

  /** errors.Is(e, kind) for the causes above: follow Unwrap until a cause is found. */
  predicate Is(e: Error, k: Kind)
  {
    match e
    case Cause(k') => k' == k
    case At(Some(inner), _) => Is(inner, k)
    case _ => false
  }

  /** Tagging never changes which kind of error it is, so tests can check kind and offset separately. */
  lemma TaggingKeepsKind(pos: int, e: Error, k: Kind)
    ensures Is(ParseErrorAt(pos, Some(e)).value, k) <==> Is(e, k)
  {
  }

  /** (*errAt).Error, with the text of the untagged causes supplied by `describe`. */
  function ErrorText(e: Error, describe: Kind -> string): (s: string)
    ensures e.At? ==> "error at position " + Decimal(e.pos) <= s
    ensures e.At? && e.cause.None? ==> |s| == |"error at position " + Decimal(e.pos)|
    ensures e.At? && e.cause.Some? ==>
      s[|"error at position " + Decimal(e.pos)|..] == ": " + ErrorText(e.cause.value, describe)
  {
    match e
    case EndArray => "]"
    case EndObject => "}"
    case Cause(k) => describe(k)
    case At(None, p) => "error at position " + Decimal(p)
    case At(Some(inner), p) => "error at position " + Decimal(p) + ": " + ErrorText(inner, describe)
  }

  /** strconv.Itoa: the decimal form of an integer, with a leading '-' when negative. */
  function Decimal(n: int): (s: string)
    ensures |s| > 0
  {
    if n < 0 then "-" + Digits(-n) else Digits(n)
  }

  function Digits(n: nat): (s: string)
    ensures |s| > 0
    decreases n
  {
    if n < 10 then [DigitChar(n)] else Digits(n / 10) + [DigitChar(n % 10)]
  }

  function DigitChar(d: nat): (c: char)
    requires d < 10
    ensures '0' <= c <= '9' && c as int - '0' as int == d
  {
    ('0' as int + d) as char
  }

  predicate AllDigits(s: string)
  {
    forall k :: 0 <= k < |s| ==> '0' <= s[k] <= '9'
  }

  /** Reads a string of decimal digits back as the number it denotes. */
  function DigitsValue(s: string): nat
    requires AllDigits(s)
  {
    if s == [] then 0 else DigitsValue(s[..|s| - 1]) * 10 + (s[|s| - 1] as int - '0' as int)
  }

  /** Reads back what Decimal writes. */
  function DecimalValue(s: string): int
  {
    if |s| > 0 && s[0] == '-' && AllDigits(s[1..]) then 0 - DigitsValue(s[1..])
    else if AllDigits(s) then DigitsValue(s)
    else 0
  }

  /** Digits writes only digits, without a leading zero, and reads back as n. */
  lemma {:induction false} DigitsRoundTrip(n: nat)
    ensures AllDigits(Digits(n))
    ensures Digits(n)[0] == '0' ==> n == 0
    ensures DigitsValue(Digits(n)) == n
  {
    if n >= 10 {
      DigitsRoundTrip(n / 10);
      var s := Digits(n);
      assert s[..|s| - 1] == Digits(n / 10);
    }
  }

  /** The position in an error message is the offset itself, sign included. */
  lemma DecimalRoundTrip(n: int)
    ensures DecimalValue(Decimal(n)) == n
  {
    if n < 0 {
      DigitsRoundTrip(-n);
      assert Decimal(n)[1..] == Digits(-n);
    } else {
      DigitsRoundTrip(n);
    }
  }
}
