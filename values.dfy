/**
 * The value dispatcher and the depth-counted array and object scanners of
 * parser.go (parseValue, parseArray, parseObject, depthLimitReached).
 *
 * ValueScan, ArrayScan/ArrayLoop and ObjectScan/ObjectLoop are the mutually
 * recursive specification; ParseValue, ParseArray and ParseObject are the
 * mutually recursive methods with the source's loops, each proved equal to
 * its function. A loop function takes the offset at the head of the source's
 * `for` and the number of elements seen so far. The recursion is measured by
 * the bytes left, and at equal bytes by a tag: object loop 3, array loop and
 * object member 2, value 1, container 0.
 */
module Values {
  import opened Wrappers
  import opened Bytes
  import opened Errors
  import opened Scanner

  /** The nesting limit used when the parser's maxDepth is zero. */
  const DefaultMaxDepth: int := 64

  /** The limit depthLimitReached compares against. */
  function EffectiveMaxDepth(maxDepth: int): int
  {
    if maxDepth == 0 then DefaultMaxDepth else maxDepth
  }

  /** depthLimitReached */
  predicate DepthLimitReached(maxDepth: int, depth: int)
  {
    depth >= EffectiveMaxDepth(maxDepth) || depth < 0
  }

  /**
   * The depths at which a container may still open: 0 to 63 when maxDepth is
   * zero, 0 to maxDepth - 1 when it is positive, and none when it is negative.
   */
  lemma DepthsBelowLimit(maxDepth: int, depth: int)
    ensures maxDepth == 0 ==> (!DepthLimitReached(maxDepth, depth) <==> 0 <= depth < 64)
    ensures maxDepth > 0 ==> (!DepthLimitReached(maxDepth, depth) <==> 0 <= depth < maxDepth)
    ensures maxDepth < 0 ==> DepthLimitReached(maxDepth, depth)
  {
  }

  /** parseValue: dispatch on the first byte. */
  function ValueScan(maxDepth: int, depth: int, buf: seq<byte>, pos: nat): (s: Step)
    ensures s.err.None? ==> pos < s.end <= |buf|
    ensures s.err.Some? ==> WellPlaced(buf, s.err) && s.end <= |buf|
    decreases Remaining(buf, pos), 1
  {
    if pos >= |buf| then Fail(|buf|, |buf|, UnexpectedEOF)
    else
      var b := buf[pos];
      if b == QuoteMark then StringScan(buf, pos)
      else if b == MinusSign || IsDigit(b) then NumberScan(buf, pos)
      else if b == TrueBytes[0] then LiteralScan(buf, pos, TrueBytes)
      else if b == FalseBytes[0] then LiteralScan(buf, pos, FalseBytes)
      else if b == NullBytes[0] then LiteralScan(buf, pos, NullBytes)
      else if b == OpenBracket then ArrayScan(maxDepth, depth + 1, buf, pos)
      else if b == OpenBrace then ObjectScan(maxDepth, depth + 1, buf, pos)
      else Fail(pos + 1, pos, Unexpected(b))
  }

  /** parseArray at the opening bracket. */
  function ArrayScan(maxDepth: int, depth: int, buf: seq<byte>, pos: nat): (s: Step)
    ensures s.err.None? ==> pos < s.end <= |buf| && buf[s.end - 1] == CloseBracket
    ensures s.err.Some? && pos < |buf| && buf[pos] == OpenBracket ==>
      WellPlaced(buf, s.err) && s.end <= |buf|
    decreases Remaining(buf, pos), 0
  {
    if DepthLimitReached(maxDepth, depth) then Fail(pos, pos, DepthLimit)
    else if pos >= |buf| then Fail(|buf|, |buf|, UnexpectedEOF)
    else if buf[pos] != OpenBracket then Fail(pos + 1, pos, Unexpected(buf[pos]))
    else ArrayLoop(maxDepth, depth, buf, pos + 1, 0)
  }

  /**
   * The head of parseArray's loop at offset i: whitespace, then, after the first
   * value, a comma or the closing bracket, whitespace, and the check for an empty
   * or trailing-comma close. Either the offset of the next value, or the sentinel
   * EndArray with the offset past the closing bracket, or an error.
   */
  function ArrayNext(buf: seq<byte>, i: nat, more: bool): (s: Step)
    ensures s.err.None? ==> i <= s.end && (s.end <= |buf| || s.end == i)
    ensures s.err.None? && s.end < |buf| ==> buf[s.end] != CloseBracket && !IsWhitespace(buf[s.end])
    ensures s.err == Some(EndArray) ==> i < s.end <= |buf| && buf[s.end - 1] == CloseBracket
    ensures s.err.Some? && s.err != Some(EndArray) ==> WellPlaced(buf, s.err) && s.end <= |buf|
  {
    var j := WhitespaceEnd(buf, i);
    if !more then
      if j < |buf| && buf[j] == CloseBracket then Step(j + 1, Some(EndArray)) else Step(j, None)
    else
      var c := ArrayComma(buf, j);
      if c.err.Some? then c
      else
        var k := WhitespaceEnd(buf, c.end);
        if k < |buf| && buf[k] == CloseBracket then Step(k + 1, Some(EndArray)) else Step(k, None)
  }

  /** One turn of parseArray's loop from offset i, after count values. */
  function ArrayLoop(maxDepth: int, depth: int, buf: seq<byte>, i: nat, count: nat): (s: Step)
    ensures s.err.None? ==> i < s.end <= |buf| && buf[s.end - 1] == CloseBracket
    ensures s.err.Some? ==> WellPlaced(buf, s.err) && s.end <= |buf|
    decreases Remaining(buf, i), 2
  {
    var h := ArrayNext(buf, i, count > 0);
    if h.err == Some(EndArray) then Step(h.end, None)
    else if h.err.Some? then h
    else
      var v := ValueScan(maxDepth, depth, buf, h.end);
      if v.err.Some? then v
      else ArrayLoop(maxDepth, depth, buf, v.end, count + 1)
  }

  /** A successful turn of parseArray's loop either closes the array or scans a value. */
  lemma ArrayLoopOk(maxDepth: int, depth: int, buf: seq<byte>, i: nat, count: nat)
    requires ArrayLoop(maxDepth, depth, buf, i, count).err.None?
    ensures var h := ArrayNext(buf, i, count > 0);
      h.err == Some(EndArray) || (h.err.None? && ValueScan(maxDepth, depth, buf, h.end).err.None?)
  {
  }

  /** A turn of parseArray's loop that scans a value from k to m goes on at m. */
  lemma ArrayLoopTurn(maxDepth: int, depth: int, buf: seq<byte>, i: nat, count: nat, k: nat, m: nat)
    requires ArrayNext(buf, i, count > 0) == Step(k, None)
    requires ValueScan(maxDepth, depth, buf, k) == Step(m, None)
    ensures ArrayLoop(maxDepth, depth, buf, i, count) == ArrayLoop(maxDepth, depth, buf, m, count + 1)
  {
  }

  /** A turn of parseArray's loop whose head finds the closing bracket ends the array there. */
  lemma ArrayLoopAtEnd(maxDepth: int, depth: int, buf: seq<byte>, i: nat, count: nat, k: nat)
    requires ArrayNext(buf, i, count > 0) == Step(k, Some(EndArray))
    ensures ArrayLoop(maxDepth, depth, buf, i, count) == Step(k, None)
  {
  }

  /** parseObject at the opening brace. */
  function ObjectScan(maxDepth: int, depth: int, buf: seq<byte>, pos: nat): (s: Step)
    ensures s.err.None? ==> pos < s.end <= |buf| && buf[s.end - 1] == CloseBrace
    ensures s.err.Some? && pos < |buf| && buf[pos] == OpenBrace ==>
      WellPlaced(buf, s.err) && s.end <= |buf|
    decreases Remaining(buf, pos), 0
  {
    if DepthLimitReached(maxDepth, depth) then Fail(pos, pos, DepthLimit)
    else if pos >= |buf| then Fail(|buf|, |buf|, UnexpectedEOF)
    else if buf[pos] != OpenBrace then Fail(pos + 1, pos, Unexpected(buf[pos]))
    else ObjectLoop(maxDepth, depth, buf, pos + 1, 0)
  }

  /**
   * The head of parseObject's loop (and of parse's) at offset i, as ArrayNext with
   * `}` and the sentinel EndObject.
   */
  function ObjectNext(buf: seq<byte>, i: nat, more: bool): (s: Step)
    ensures s.err.None? ==> i <= s.end && (s.end <= |buf| || s.end == i)
    ensures s.err.None? && s.end < |buf| ==> buf[s.end] != CloseBrace && !IsWhitespace(buf[s.end])
    ensures s.err.None? && more ==> i < s.end
    ensures s.err == Some(EndObject) ==> i < s.end <= |buf| && buf[s.end - 1] == CloseBrace
    ensures s.err.Some? && s.err != Some(EndObject) ==> WellPlaced(buf, s.err) && s.end <= |buf|
  {
    var j := WhitespaceEnd(buf, i);
    if !more then
      if j < |buf| && buf[j] == CloseBrace then Step(j + 1, Some(EndObject)) else Step(j, None)
    else
      var c := ObjectComma(buf, j);
      if c.err.Some? then c
      else
        var k := WhitespaceEnd(buf, c.end);
        if k < |buf| && buf[k] == CloseBrace then Step(k + 1, Some(EndObject)) else Step(k, None)
  }

  /** One member inside a nested object at the key's offset k: key, colon, value. */
  function MemberValue(maxDepth: int, depth: int, buf: seq<byte>, k: nat): (s: Step)
    ensures s.err.None? ==> k < s.end <= |buf|
    ensures s.err.Some? ==> WellPlaced(buf, s.err) && s.end <= |buf|
    decreases Remaining(buf, k), 2
  {
    var key := StringScan(buf, k);
    if key.err.Some? then key
    else
      var colon := ColonToken(buf, WhitespaceEnd(buf, key.end));
      if colon.err.Some? then colon
      else ValueScan(maxDepth, depth, buf, WhitespaceEnd(buf, colon.end))
  }

  /** The parts of a member that scans: the key ending at ke, the colon ending at ce, the value. */
  lemma MemberValueOk(maxDepth: int, depth: int, buf: seq<byte>, k: nat, e: nat)
    requires MemberValue(maxDepth, depth, buf, k) == Step(e, None)
    ensures var ke := StringScan(buf, k).end;
      var ce := ColonToken(buf, WhitespaceEnd(buf, ke)).end;
      StringScan(buf, k) == Step(ke, None) && ColonToken(buf, WhitespaceEnd(buf, ke)) == Step(ce, None) &&
      ValueScan(maxDepth, depth, buf, WhitespaceEnd(buf, ce)) == Step(e, None)
  {
  }

  /** A member assembled from its parts. */
  lemma MemberValueOf(maxDepth: int, depth: int, buf: seq<byte>, k: nat, ke: nat, ce: nat, vs: nat, e: nat)
    requires StringScan(buf, k) == Step(ke, None)
    requires ColonToken(buf, WhitespaceEnd(buf, ke)) == Step(ce, None)
    requires WhitespaceEnd(buf, ce) == vs && ValueScan(maxDepth, depth, buf, vs) == Step(e, None)
    ensures MemberValue(maxDepth, depth, buf, k) == Step(e, None)
  {
  }

  /** One turn of parseObject's loop from offset i, after count members. */
  function ObjectLoop(maxDepth: int, depth: int, buf: seq<byte>, i: nat, count: nat): (s: Step)
    ensures s.err.None? ==> i < s.end <= |buf| && buf[s.end - 1] == CloseBrace
    ensures s.err.Some? ==> WellPlaced(buf, s.err) && s.end <= |buf|
    decreases Remaining(buf, i), 3
  {
    var h := ObjectNext(buf, i, count > 0);
    if h.err == Some(EndObject) then Step(h.end, None)
    else if h.err.Some? then h
    else
      var v := MemberValue(maxDepth, depth, buf, h.end);
      if v.err.Some? then v
      else ObjectLoop(maxDepth, depth, buf, v.end, count + 1)
  }

  /** Past the head of a turn of parseObject's loop, the turn is decided by the member. */
  lemma ObjectLoopAtMember(maxDepth: int, depth: int, buf: seq<byte>, i: nat, count: nat, k: nat)
    requires ObjectNext(buf, i, count > 0) == Step(k, None)
    ensures var v := MemberValue(maxDepth, depth, buf, k);
      ObjectLoop(maxDepth, depth, buf, i, count) ==
        if v.err.Some? then v else ObjectLoop(maxDepth, depth, buf, v.end, count + 1)
  {
  }

  /** A successful turn of parseObject's loop either closes the object or scans a member. */
  lemma ObjectLoopOk(maxDepth: int, depth: int, buf: seq<byte>, i: nat, count: nat)
    requires ObjectLoop(maxDepth, depth, buf, i, count).err.None?
    ensures var h := ObjectNext(buf, i, count > 0);
      h.err == Some(EndObject) || (h.err.None? && MemberValue(maxDepth, depth, buf, h.end).err.None?)
  {
  }

  /** A turn of parseObject's loop that scans a member from k to m goes on at m. */
  lemma ObjectLoopTurn(maxDepth: int, depth: int, buf: seq<byte>, i: nat, count: nat, k: nat, m: nat)
    requires ObjectNext(buf, i, count > 0) == Step(k, None)
    requires MemberValue(maxDepth, depth, buf, k) == Step(m, None)
    ensures ObjectLoop(maxDepth, depth, buf, i, count) == ObjectLoop(maxDepth, depth, buf, m, count + 1)
  {
  }

  /** A turn of parseObject's loop whose head finds the closing brace ends the object there. */
  lemma ObjectLoopAtEnd(maxDepth: int, depth: int, buf: seq<byte>, i: nat, count: nat, k: nat)
    requires ObjectNext(buf, i, count > 0) == Step(k, Some(EndObject))
    ensures ObjectLoop(maxDepth, depth, buf, i, count) == Step(k, None)
  {
  }

  /** parseValue */
  /**
   * Past the nesting limit an array or an object fails at its opening byte and
   * consumes nothing; with maxDepth zero the limit is DefaultMaxDepth, otherwise
   * maxDepth itself, so a negative maxDepth rejects every container.
   */
  lemma DepthLimitStopsAtBracket(maxDepth: int, depth: int, buf: seq<byte>, pos: nat)
    requires pos < |buf| && (buf[pos] == OpenBracket || buf[pos] == OpenBrace)
    requires depth + 1 >= (if maxDepth == 0 then DefaultMaxDepth else maxDepth) || depth + 1 < 0
    ensures var s := ValueScan(maxDepth, depth, buf, pos);
      s.end == pos && FailsAt(s, pos, DepthLimit)
  {
  }

  /** Within the limit the container is scanned: no depth error at its opening byte. */
  lemma WithinDepthLimitOpens(maxDepth: int, depth: int, buf: seq<byte>, pos: nat)
    requires pos < |buf| && (buf[pos] == OpenBracket || buf[pos] == OpenBrace)
    requires 0 <= depth + 1 < (if maxDepth == 0 then DefaultMaxDepth else maxDepth)
    ensures var s := ValueScan(maxDepth, depth, buf, pos);
      s == if buf[pos] == OpenBracket then ArrayLoop(maxDepth, depth + 1, buf, pos + 1, 0)
           else ObjectLoop(maxDepth, depth + 1, buf, pos + 1, 0)
  {
  }

  /** After a value, a comma and then `]` end the array: one trailing comma is tolerated. */
  lemma ArrayTrailingComma(buf: seq<byte>, i: nat, j: nat, k: nat)
    requires j == WhitespaceEnd(buf, i) && j < |buf| && buf[j] == Comma
    requires k == WhitespaceEnd(buf, j + 1) && k < |buf| && buf[k] == CloseBracket
    ensures ArrayNext(buf, i, true) == Step(k + 1, Some(EndArray))
  {
  }

  /** A second comma is not tolerated: the array fails at it. */
  lemma ArrayDoubleComma(maxDepth: int, depth: int, buf: seq<byte>, i: nat, count: nat, j: nat, k: nat)
    requires count > 0
    requires j == WhitespaceEnd(buf, i) && j < |buf| && buf[j] == Comma
    requires k == WhitespaceEnd(buf, j + 1) && k < |buf| && buf[k] == Comma
    ensures ArrayLoop(maxDepth, depth, buf, i, count) == Fail(k + 1, k, Unexpected(Comma))
  {
  }

  /** Nor a leading one: `[` followed by a comma fails at the comma. */
  lemma ArrayLeadingComma(maxDepth: int, depth: int, buf: seq<byte>, i: nat, j: nat)
    requires j == WhitespaceEnd(buf, i) && j < |buf| && buf[j] == Comma
    ensures ArrayLoop(maxDepth, depth, buf, i, 0) == Fail(j + 1, j, Unexpected(Comma))
  {
  }

  /** After a value, any byte other than a comma or `]` fails the array at that byte. */
  lemma ArrayAfterValue(maxDepth: int, depth: int, buf: seq<byte>, i: nat, count: nat, j: nat)
    requires count > 0
    requires j == WhitespaceEnd(buf, i) && j < |buf| && buf[j] != Comma && buf[j] != CloseBracket
    ensures ArrayLoop(maxDepth, depth, buf, i, count) == Fail(j + 1, j, Unexpected(buf[j]))
  {
  }

  /** After a member, a comma and then `}` end the object: one trailing comma is tolerated. */
  lemma ObjectTrailingComma(buf: seq<byte>, i: nat, j: nat, k: nat)
    requires j == WhitespaceEnd(buf, i) && j < |buf| && buf[j] == Comma
    requires k == WhitespaceEnd(buf, j + 1) && k < |buf| && buf[k] == CloseBrace
    ensures ObjectNext(buf, i, true) == Step(k + 1, Some(EndObject))
  {
  }

  /** A second comma is not tolerated: the object fails at it. */
  lemma ObjectDoubleComma(maxDepth: int, depth: int, buf: seq<byte>, i: nat, count: nat, j: nat, k: nat)
    requires count > 0
    requires j == WhitespaceEnd(buf, i) && j < |buf| && buf[j] == Comma
    requires k == WhitespaceEnd(buf, j + 1) && k < |buf| && buf[k] == Comma
    ensures ObjectLoop(maxDepth, depth, buf, i, count) == Fail(k + 1, k, Unexpected(Comma))
  {
  }

  /** After a member, any byte other than a comma or `}` fails the object at that byte. */
  lemma ObjectAfterMember(maxDepth: int, depth: int, buf: seq<byte>, i: nat, count: nat, j: nat)
    requires count > 0
    requires j == WhitespaceEnd(buf, i) && j < |buf| && buf[j] != Comma && buf[j] != CloseBrace
    ensures ObjectLoop(maxDepth, depth, buf, i, count) == Fail(j + 1, j, Unexpected(buf[j]))
  {
  }

  method ParseValue(maxDepth: int, depth: int, buf: seq<byte>, initialPos: nat) returns (end: int, err: Option<Error>)
    ensures Step(end, err) == ValueScan(maxDepth, depth, buf, initialPos)
    decreases Remaining(buf, initialPos), 1
  {
    var i := initialPos;
    if i >= |buf| {
      return |buf|, ParseErrorAt(|buf|, Some(Cause(UnexpectedEOF)));
    }
    var b := buf[i];
    if b == QuoteMark {
      end, err := ParseString(buf, i);
    } else if b == MinusSign || IsDigit(b) {
      end, err := ParseNumber(buf, i);
    } else if b == TrueBytes[0] {
      end, err := ParseTrue(buf, i);
    } else if b == FalseBytes[0] {
      end, err := ParseFalse(buf, i);
    } else if b == NullBytes[0] {
      end, err := ParseNull(buf, i);
    } else if b == OpenBracket {
      end, err := ParseArray(maxDepth, depth + 1, buf, i);
    } else if b == OpenBrace {
      end, err := ParseObject(maxDepth, depth + 1, buf, i);
    } else {
      end, err := i + 1, ParseErrorAt(i, Some(Cause(Unexpected(b))));
    }
  }

  /** parseArray */
  method ParseArray(maxDepth: int, depth: int, buf: seq<byte>, initialPos: nat) returns (end: int, err: Option<Error>)
    ensures Step(end, err) == ArrayScan(maxDepth, depth, buf, initialPos)
    decreases Remaining(buf, initialPos), 0
  {
    if DepthLimitReached(maxDepth, depth) {
      return initialPos, ParseErrorAt(initialPos, Some(Cause(DepthLimit)));
    }
    var i: nat := initialPos;
    if i >= |buf| {
      return |buf|, ParseErrorAt(|buf|, Some(Cause(UnexpectedEOF)));
    }
    var b := buf[i];
    if b != OpenBracket {
      return i + 1, ParseErrorAt(i, Some(Cause(Unexpected(b))));
    }
    i := i + 1;
    var numValues: nat := 0;
    while true
      invariant initialPos < i <= |buf|
      invariant ArrayLoop(maxDepth, depth, buf, i, numValues) == ArrayScan(maxDepth, depth, buf, initialPos)
      decreases Remaining(buf, i)
    {
      ghost var top := i;
      i := SkipWhitespace(buf, i);
      if numValues > 0 {
        var comma := ArrayComma(buf, i);
        if comma.err == Some(EndArray) {
          return comma.end, None;
        }
        if comma.err.Some? {
          return comma.end, comma.err;
        }
        i := SkipWhitespace(buf, comma.end);
      }
      if i < |buf| && buf[i] == CloseBracket {
        return i + 1, None;
      }
      var valueEnd, valueErr := ParseValue(maxDepth, depth, buf, i);
      if valueErr.Some? {
        return valueEnd, valueErr;
      }
      assert ArrayLoop(maxDepth, depth, buf, top, numValues) == ArrayLoop(maxDepth, depth, buf, valueEnd, numValues + 1);
      i := valueEnd;
      numValues := numValues + 1;
    }
  }

  /** parseObject */
  method ParseObject(maxDepth: int, depth: int, buf: seq<byte>, initialPos: nat) returns (end: int, err: Option<Error>)
    ensures Step(end, err) == ObjectScan(maxDepth, depth, buf, initialPos)
    decreases Remaining(buf, initialPos), 0
  {
    if DepthLimitReached(maxDepth, depth) {
      return initialPos, ParseErrorAt(initialPos, Some(Cause(DepthLimit)));
    }
    var i: nat := initialPos;
    if i >= |buf| {
      return |buf|, ParseErrorAt(|buf|, Some(Cause(UnexpectedEOF)));
    }
    var b := buf[i];
    if b != OpenBrace {
      return i + 1, ParseErrorAt(i, Some(Cause(Unexpected(b))));
    }
    i := i + 1;
    var numPairs: nat := 0;
    ghost var goal := ObjectScan(maxDepth, depth, buf, initialPos);
    assert ObjectLoop(maxDepth, depth, buf, i, numPairs) == goal;
    while true
      invariant initialPos < i <= |buf|
      invariant ObjectLoop(maxDepth, depth, buf, i, numPairs) == goal
      decreases Remaining(buf, i)
    {
      ghost var top := i;
      i := SkipWhitespace(buf, i);
      if numPairs > 0 {
        var comma := ObjectComma(buf, i);
        if comma.err == Some(EndObject) {
          return comma.end, None;
        }
        if comma.err.Some? {
          return comma.end, comma.err;
        }
        i := SkipWhitespace(buf, comma.end);
      }
      if i < |buf| && buf[i] == CloseBrace {
        return i + 1, None;
      }
      ObjectLoopAtMember(maxDepth, depth, buf, top, numPairs, i);
      var keyStart := i;
      var keyEnd, keyErr := ParseString(buf, keyStart);
      if keyErr.Some? {
        return keyEnd, keyErr;
      }
      i := SkipWhitespace(buf, keyEnd);
      var colon := ColonToken(buf, i);
      if colon.err.Some? {
        return colon.end, colon.err;
      }
      i := SkipWhitespace(buf, colon.end);
      var valueEnd, valueErr := ParseValue(maxDepth, depth, buf, i);
      if valueErr.Some? {
        return valueEnd, valueErr;
      }
      assert MemberValue(maxDepth, depth, buf, keyStart) == Step(valueEnd, None);
      i := valueEnd;
      numPairs := numPairs + 1;
    }
  }
}
