/**
 * Locality of the scanner: a successful scan of parser.go depends only on
 * the bytes it consumed. Moved to another buffer holding the same bytes at
 * another offset, it succeeds there too and ends at the same place, shifted.
 *
 * The one byte a scan looks at beyond its span is the one after a number,
 * which must not continue the number (ExtendsNumber). Inside an array, an
 * object or parse's loop that byte is the whitespace, comma or closing
 * bracket that the loop goes on to accept, so only the outermost value needs
 * its follower stated.
 */
module Locality {
  import opened Wrappers
  import opened Bytes
  import opened Errors
  import opened Scanner
  import opened Values
  import opened Pairs

  /** The byte at e exists and does not continue a number that ends before it. */
  predicate Follows(buf: seq<byte>, e: int)
  {
    0 <= e < |buf| && !ExtendsNumber(buf[e])
  }

  /**
   * The bytes of buf1 on [lo, hi) sit in buf2 at [lo + delta, hi + delta). Stated
   * byte after byte by recursion rather than by a quantifier, so that it says
   * nothing about a byte until asked (SameAt, SameAgree).
   */
  predicate Same(buf1: seq<byte>, buf2: seq<byte>, delta: int, lo: int, hi: int)
    decreases hi - lo
  {
    0 <= lo <= hi <= |buf1| && 0 <= lo + delta && hi + delta <= |buf2| &&
    (lo < hi ==> buf1[lo] == buf2[lo + delta] && Same(buf1, buf2, delta, lo + 1, hi))
  }

  /** One byte of the agreement: t in buf1 is t2 = t + delta in buf2. */
  lemma {:induction false} SameAt(buf1: seq<byte>, buf2: seq<byte>, delta: int, lo: int, hi: int, t: int, t2: int)
    requires Same(buf1, buf2, delta, lo, hi) && lo <= t < hi && t2 == t + delta
    ensures 0 <= t2 < |buf2| && buf1[t] == buf2[t2]
    decreases hi - lo
  {
    if lo < t {
      SameAt(buf1, buf2, delta, lo + 1, hi, t, t2);
    }
  }

  /** The agreement, byte by byte. */
  lemma SameAgree(buf1: seq<byte>, buf2: seq<byte>, delta: int, lo: int, hi: int)
    requires Same(buf1, buf2, delta, lo, hi)
    ensures Agree(buf1, buf2, delta, lo, hi)
  {
    forall t | lo <= t < hi
      ensures buf1[t] == buf2[t + delta]
    {
      SameAt(buf1, buf2, delta, lo, hi, t, t + delta);
    }
  }

  /** Agreement on a range holds on every range inside it. */
  lemma AgreeWithin(buf1: seq<byte>, buf2: seq<byte>, delta: int, lo: int, hi: int, lo': int, hi': int)
    requires Agree(buf1, buf2, delta, lo, hi) && lo <= lo' <= hi' <= hi
    ensures Agree(buf1, buf2, delta, lo', hi')
  {
  }

  /** Equal slices give the agreement: buf1[lo..hi] sits in buf2 at lo2 = lo + delta. */
  lemma {:induction false} SameFromSlices(buf1: seq<byte>, buf2: seq<byte>, delta: int, lo: int, hi: int, lo2: int, hi2: int)
    requires 0 <= lo <= hi <= |buf1| && 0 <= lo2 <= hi2 <= |buf2| && lo2 == lo + delta && hi2 == hi + delta
    requires buf1[lo..hi] == buf2[lo2..hi2]
    ensures Same(buf1, buf2, delta, lo, hi)
    decreases hi - lo
  {
    if lo < hi {
      assert buf1[lo] == buf1[lo..hi][0] && buf2[lo2] == buf2[lo2..hi2][0];
      assert buf1[lo + 1..hi] == buf1[lo..hi][1..] && buf2[lo2 + 1..hi2] == buf2[lo2..hi2][1..];
      SameFromSlices(buf1, buf2, delta, lo + 1, hi, lo2 + 1, hi2);
    }
  }

  // Every lemma below takes the range [lo, hi) on which the two buffers agree,
  // and names each offset in buf2 on its own (i2 for i + delta), so that the
  // span of the scan it moves lies inside that range.

  // ------------------------------------------------------------------- tokens

  lemma {:induction false} WhitespaceShift(buf1: seq<byte>, buf2: seq<byte>, delta: int, lo: int, hi: int, i: nat, i2: nat)
    requires Same(buf1, buf2, delta, lo, hi) && lo <= i && WhitespaceEnd(buf1, i) < hi && i2 == i + delta
    ensures WhitespaceEnd(buf2, i2) == WhitespaceEnd(buf1, i) + delta
    decreases Remaining(buf1, i)
  {
    SameAt(buf1, buf2, delta, lo, hi, i, i2);
    if IsWhitespace(buf1[i]) {
      WhitespaceShift(buf1, buf2, delta, lo, hi, i + 1, i2 + 1);
    }
  }

  lemma {:induction false} LiteralShift(buf1: seq<byte>, buf2: seq<byte>, delta: int, lo: int, hi: int,
                                        pos: nat, pos2: nat, raw: seq<byte>, r: nat)
    requires r <= |raw| && LiteralFrom(buf1, pos, raw, r).err.None?
    requires Same(buf1, buf2, delta, lo, hi) && lo <= pos && pos + |raw| <= hi && pos2 == pos + delta
    ensures LiteralFrom(buf2, pos2, raw, r) == Step(pos2 + |raw|, None)
    decreases |raw| - r
  {
    if r < |raw| {
      SameAt(buf1, buf2, delta, lo, hi, pos + r, pos2 + r);
      LiteralShift(buf1, buf2, delta, lo, hi, pos, pos2, raw, r + 1);
    }
  }

  lemma NumberShift(buf1: seq<byte>, buf2: seq<byte>, delta: int, lo: int, hi: int, pos: nat, pos2: nat)
    requires NumberScan(buf1, pos).err.None? && pos2 == pos + delta
    requires Same(buf1, buf2, delta, lo, hi) && lo <= pos && NumberScan(buf1, pos).end <= hi
    requires Follows(buf2, NumberScan(buf1, pos).end + delta)
    ensures NumberScan(buf2, pos2) == Step(NumberScan(buf1, pos).end + delta, None)
  {
    SameAgree(buf1, buf2, delta, lo, hi);
    var m := NumberMinus(buf1, pos);
    var n := NumberInt(buf1, m.end);
    var f := NumberFrac(buf1, n.end);
    var e := NumberScan(buf1, pos).end;
    ScannedParts(buf1, pos);
    AgreeWithin(buf1, buf2, delta, lo, hi, pos, e);
    NumberPartsTransfer(buf1, buf2, delta, pos, m.end, n.end, f.end, e);
    NumberPartsAreScanned(buf2, pos2, m.end + delta, n.end + delta, f.end + delta, e + delta);
  }

  lemma {:induction false} StringFromShift(buf1: seq<byte>, buf2: seq<byte>, delta: int, lo: int, hi: int,
                                           i: nat, i2: nat, escapeNext: bool)
    requires StringFrom(buf1, i, escapeNext).err.None? && i2 == i + delta
    requires Same(buf1, buf2, delta, lo, hi) && lo <= i && StringFrom(buf1, i, escapeNext).end <= hi
    ensures StringFrom(buf2, i2, escapeNext) == Step(StringFrom(buf1, i, escapeNext).end + delta, None)
    decreases Remaining(buf1, i)
  {
    SameAt(buf1, buf2, delta, lo, hi, i, i2);
    if buf1[i] == Backslash {
      StringFromShift(buf1, buf2, delta, lo, hi, i + 1, i2 + 1, !escapeNext);
    } else if buf1[i] != QuoteMark || escapeNext {
      StringFromShift(buf1, buf2, delta, lo, hi, i + 1, i2 + 1, false);
    }
  }

  lemma StringShift(buf1: seq<byte>, buf2: seq<byte>, delta: int, lo: int, hi: int, pos: nat, pos2: nat)
    requires StringScan(buf1, pos).err.None? && pos2 == pos + delta
    requires Same(buf1, buf2, delta, lo, hi) && lo <= pos && StringScan(buf1, pos).end <= hi
    ensures StringScan(buf2, pos2) == Step(StringScan(buf1, pos).end + delta, None)
  {
    SameAt(buf1, buf2, delta, lo, hi, pos, pos2);
    StringFromShift(buf1, buf2, delta, lo, hi, pos + 1, pos2 + 1, false);
  }

  lemma ColonShift(buf1: seq<byte>, buf2: seq<byte>, delta: int, lo: int, hi: int, j: nat, j2: nat)
    requires ColonToken(buf1, j).err.None? && j2 == j + delta
    requires Same(buf1, buf2, delta, lo, hi) && lo <= j < hi
    ensures ColonToken(buf2, j2) == Step(ColonToken(buf1, j).end + delta, None)
  {
    SameAt(buf1, buf2, delta, lo, hi, j, j2);
  }

  /** Equal bytes at the same offsets make equal slices. */
  lemma SliceShift(buf1: seq<byte>, buf2: seq<byte>, delta: int, lo: int, hi: int, a: int, b: int, a2: int, b2: int)
    requires Same(buf1, buf2, delta, lo, hi) && lo <= a <= b <= hi && a2 == a + delta && b2 == b + delta
    ensures 0 <= a2 <= b2 <= |buf2| && buf2[a2..b2] == buf1[a..b]
  {
    forall t | 0 <= t < b - a
      ensures buf2[a2..b2][t] == buf1[a..b][t]
    {
      SameAt(buf1, buf2, delta, lo, hi, a + t, a2 + t);
    }
  }

  // -------------------------------------------------------- loop heads

  /** After the first element, a successful loop turn starts on whitespace, a comma or the closer. */
  lemma ArrayLoopFollows(maxDepth: int, depth: int, buf: seq<byte>, i: nat, count: nat)
    requires count > 0 && ArrayLoop(maxDepth, depth, buf, i, count).err.None?
    ensures Follows(buf, i)
  {
    var j := WhitespaceEnd(buf, i);
    WhitespaceEndSkipsWhitespace(buf, i);
    if i < j {
      assert IsWhitespace(buf[i]);
    }
  }

  lemma ObjectLoopFollows(maxDepth: int, depth: int, buf: seq<byte>, i: nat, count: nat)
    requires count > 0 && ObjectLoop(maxDepth, depth, buf, i, count).err.None?
    ensures Follows(buf, i)
  {
    var j := WhitespaceEnd(buf, i);
    WhitespaceEndSkipsWhitespace(buf, i);
    if i < j {
      assert IsWhitespace(buf[i]);
    }
  }

  lemma PairsLoopFollows(unquote: Unquoter, maxDepth: int, buf: seq<byte>, n: nat, pairs: seq<Pair>)
    requires |pairs| > 0 && PairsLoop(unquote, maxDepth, buf, n, pairs).err.None?
    ensures Follows(buf, n)
  {
    var j := WhitespaceEnd(buf, n);
    WhitespaceEndSkipsWhitespace(buf, n);
    if n < j {
      assert IsWhitespace(buf[n]);
    }
  }

  /** The follower of a value moves with the bytes. */
  lemma FollowsShift(buf1: seq<byte>, buf2: seq<byte>, delta: int, lo: int, hi: int, m: nat, m2: nat)
    requires Follows(buf1, m) && Same(buf1, buf2, delta, lo, hi) && lo <= m < hi && m2 == m + delta
    ensures Follows(buf2, m2)
  {
    SameAt(buf1, buf2, delta, lo, hi, m, m2);
  }

  /** The head of a turn of parseArray's loop, moved. */
  lemma ArrayNextShift(buf1: seq<byte>, buf2: seq<byte>, delta: int, lo: int, hi: int, i: nat, i2: nat, more: bool)
    requires Same(buf1, buf2, delta, lo, hi) && lo <= i && i2 == i + delta
    requires var h := ArrayNext(buf1, i, more);
      (h.err.None? && h.end < hi) || (h.err == Some(EndArray) && h.end <= hi)
    ensures var h := ArrayNext(buf1, i, more); ArrayNext(buf2, i2, more) == Step(h.end + delta, h.err)
  {
    var j := WhitespaceEnd(buf1, i);
    var j2 := j + delta;
    WhitespaceShift(buf1, buf2, delta, lo, hi, i, i2);
    SameAt(buf1, buf2, delta, lo, hi, j, j2);
    if more && buf1[j] == Comma {
      var k := WhitespaceEnd(buf1, j + 1);
      WhitespaceShift(buf1, buf2, delta, lo, hi, j + 1, j2 + 1);
      SameAt(buf1, buf2, delta, lo, hi, k, k + delta);
    }
  }

  /** The head of a turn of parseObject's loop or parse's loop, moved. */
  lemma ObjectNextShift(buf1: seq<byte>, buf2: seq<byte>, delta: int, lo: int, hi: int, i: nat, i2: nat, more: bool)
    requires Same(buf1, buf2, delta, lo, hi) && lo <= i && i2 == i + delta
    requires var h := ObjectNext(buf1, i, more);
      (h.err.None? && h.end < hi) || (h.err == Some(EndObject) && h.end <= hi)
    ensures var h := ObjectNext(buf1, i, more); ObjectNext(buf2, i2, more) == Step(h.end + delta, h.err)
  {
    var j := WhitespaceEnd(buf1, i);
    var j2 := j + delta;
    WhitespaceShift(buf1, buf2, delta, lo, hi, i, i2);
    SameAt(buf1, buf2, delta, lo, hi, j, j2);
    if more && buf1[j] == Comma {
      var k := WhitespaceEnd(buf1, j + 1);
      WhitespaceShift(buf1, buf2, delta, lo, hi, j + 1, j2 + 1);
      SameAt(buf1, buf2, delta, lo, hi, k, k + delta);
    }
  }

  // ------------------------------------------------------------------ values

  // The lemmas below name the end e of the scan they move (e2 in buf2), and
  // the unfolding of each loop goes through ArrayLoopOk/ArrayLoopTurn and
  // their like.

  /** A value scanned in one buffer scans the same in any buffer holding its bytes and a follower. */
  lemma {:induction false} ValueShift(maxDepth: int, depth: int, buf1: seq<byte>, buf2: seq<byte>, delta: int,
                                      lo: int, hi: int, pos: nat, e: nat, pos2: nat, e2: nat)
    requires ValueScan(maxDepth, depth, buf1, pos) == Step(e, None)
    requires Same(buf1, buf2, delta, lo, hi) && lo <= pos && e <= hi
    requires pos2 == pos + delta && e2 == e + delta && Follows(buf2, e2)
    ensures ValueScan(maxDepth, depth, buf2, pos2) == Step(e2, None)
    decreases Remaining(buf1, pos), 1
  {
    var b := buf1[pos];
    SameAt(buf1, buf2, delta, lo, hi, pos, pos2);
    if b == QuoteMark {
      StringShift(buf1, buf2, delta, lo, hi, pos, pos2);
    } else if b == MinusSign || IsDigit(b) {
      NumberShift(buf1, buf2, delta, lo, hi, pos, pos2);
    } else if b == TrueBytes[0] {
      LiteralShift(buf1, buf2, delta, lo, hi, pos, pos2, TrueBytes, 0);
    } else if b == FalseBytes[0] {
      LiteralShift(buf1, buf2, delta, lo, hi, pos, pos2, FalseBytes, 0);
    } else if b == NullBytes[0] {
      LiteralShift(buf1, buf2, delta, lo, hi, pos, pos2, NullBytes, 0);
    } else if b == OpenBracket {
      ArrayShift(maxDepth, depth + 1, buf1, buf2, delta, lo, hi, pos, e, pos2, e2);
    } else {
      ObjectShift(maxDepth, depth + 1, buf1, buf2, delta, lo, hi, pos, e, pos2, e2);
    }
  }

  lemma {:induction false} ArrayShift(maxDepth: int, depth: int, buf1: seq<byte>, buf2: seq<byte>, delta: int,
                                      lo: int, hi: int, pos: nat, e: nat, pos2: nat, e2: nat)
    requires ArrayScan(maxDepth, depth, buf1, pos) == Step(e, None)
    requires Same(buf1, buf2, delta, lo, hi) && lo <= pos && e <= hi && pos2 == pos + delta && e2 == e + delta
    ensures ArrayScan(maxDepth, depth, buf2, pos2) == Step(e2, None)
    decreases Remaining(buf1, pos), 0
  {
    SameAt(buf1, buf2, delta, lo, hi, pos, pos2);
    ArrayLoopShift(maxDepth, depth, buf1, buf2, delta, lo, hi, pos + 1, 0, e, pos2 + 1, e2);
  }

  lemma {:induction false} ArrayLoopShift(maxDepth: int, depth: int, buf1: seq<byte>, buf2: seq<byte>, delta: int,
                                          lo: int, hi: int, i: nat, count: nat, e: nat, i2: nat, e2: nat)
    requires ArrayLoop(maxDepth, depth, buf1, i, count) == Step(e, None)
    requires Same(buf1, buf2, delta, lo, hi) && lo <= i && e <= hi && i2 == i + delta && e2 == e + delta
    ensures ArrayLoop(maxDepth, depth, buf2, i2, count) == Step(e2, None)
    decreases Remaining(buf1, i), 2
  {
    var h := ArrayNext(buf1, i, count > 0);
    var k2 := h.end + delta;
    ArrayLoopOk(maxDepth, depth, buf1, i, count);
    if h.err == Some(EndArray) {
      ArrayLoopAtEnd(maxDepth, depth, buf1, i, count, h.end);
      ArrayNextShift(buf1, buf2, delta, lo, hi, i, i2, count > 0);
      ArrayLoopAtEnd(maxDepth, depth, buf2, i2, count, k2);
    } else {
      var m := ValueScan(maxDepth, depth, buf1, h.end).end;
      var m2 := m + delta;
      ArrayLoopTurn(maxDepth, depth, buf1, i, count, h.end, m);
      ArrayLoopFollows(maxDepth, depth, buf1, m, count + 1);
      ArrayNextShift(buf1, buf2, delta, lo, hi, i, i2, count > 0);
      FollowsShift(buf1, buf2, delta, lo, hi, m, m2);
      ValueShift(maxDepth, depth, buf1, buf2, delta, lo, hi, h.end, m, k2, m2);
      ArrayLoopShift(maxDepth, depth, buf1, buf2, delta, lo, hi, m, count + 1, e, m2, e2);
      ArrayLoopTurn(maxDepth, depth, buf2, i2, count, k2, m2);
    }
  }

  lemma {:induction false} ObjectShift(maxDepth: int, depth: int, buf1: seq<byte>, buf2: seq<byte>, delta: int,
                                       lo: int, hi: int, pos: nat, e: nat, pos2: nat, e2: nat)
    requires ObjectScan(maxDepth, depth, buf1, pos) == Step(e, None)
    requires Same(buf1, buf2, delta, lo, hi) && lo <= pos && e <= hi && pos2 == pos + delta && e2 == e + delta
    ensures ObjectScan(maxDepth, depth, buf2, pos2) == Step(e2, None)
    decreases Remaining(buf1, pos), 0
  {
    SameAt(buf1, buf2, delta, lo, hi, pos, pos2);
    ObjectLoopShift(maxDepth, depth, buf1, buf2, delta, lo, hi, pos + 1, 0, e, pos2 + 1, e2);
  }

  lemma {:induction false} MemberValueShift(maxDepth: int, depth: int, buf1: seq<byte>, buf2: seq<byte>, delta: int,
                                            lo: int, hi: int, k: nat, e: nat, k2: nat, e2: nat)
    requires MemberValue(maxDepth, depth, buf1, k) == Step(e, None)
    requires Same(buf1, buf2, delta, lo, hi) && lo <= k && e <= hi && k2 == k + delta && e2 == e + delta
    requires Follows(buf2, e2)
    ensures MemberValue(maxDepth, depth, buf2, k2) == Step(e2, None)
    decreases Remaining(buf1, k), 2
  {
    MemberValueOk(maxDepth, depth, buf1, k, e);
    var ke := StringScan(buf1, k).end;
    var j := WhitespaceEnd(buf1, ke);
    var ce := ColonToken(buf1, j).end;
    var vs := WhitespaceEnd(buf1, ce);
    var ke2, j2, ce2, vs2 := ke + delta, j + delta, ce + delta, vs + delta;
    StringShift(buf1, buf2, delta, lo, hi, k, k2);
    MemberColonShift(buf1, buf2, delta, lo, hi, ke, j, ce, vs, ke2, j2, ce2, vs2);
    ValueShift(maxDepth, depth, buf1, buf2, delta, lo, hi, vs, e, vs2, e2);
    MemberValueOf(maxDepth, depth, buf2, k2, ke2, ce2, vs2, e2);
  }

  lemma {:induction false} ObjectLoopShift(maxDepth: int, depth: int, buf1: seq<byte>, buf2: seq<byte>, delta: int,
                                           lo: int, hi: int, i: nat, count: nat, e: nat, i2: nat, e2: nat)
    requires ObjectLoop(maxDepth, depth, buf1, i, count) == Step(e, None)
    requires Same(buf1, buf2, delta, lo, hi) && lo <= i && e <= hi && i2 == i + delta && e2 == e + delta
    ensures ObjectLoop(maxDepth, depth, buf2, i2, count) == Step(e2, None)
    decreases Remaining(buf1, i), 3
  {
    var h := ObjectNext(buf1, i, count > 0);
    var k2 := h.end + delta;
    ObjectLoopOk(maxDepth, depth, buf1, i, count);
    if h.err == Some(EndObject) {
      ObjectLoopAtEnd(maxDepth, depth, buf1, i, count, h.end);
      ObjectNextShift(buf1, buf2, delta, lo, hi, i, i2, count > 0);
      ObjectLoopAtEnd(maxDepth, depth, buf2, i2, count, k2);
    } else {
      var m := MemberValue(maxDepth, depth, buf1, h.end).end;
      var m2 := m + delta;
      ObjectLoopTurn(maxDepth, depth, buf1, i, count, h.end, m);
      ObjectLoopFollows(maxDepth, depth, buf1, m, count + 1);
      ObjectNextShift(buf1, buf2, delta, lo, hi, i, i2, count > 0);
      FollowsShift(buf1, buf2, delta, lo, hi, m, m2);
      MemberValueShift(maxDepth, depth, buf1, buf2, delta, lo, hi, h.end, m, k2, m2);
      ObjectLoopShift(maxDepth, depth, buf1, buf2, delta, lo, hi, m, count + 1, e, m2, e2);
      ObjectLoopTurn(maxDepth, depth, buf2, i2, count, k2, m2);
    }
  }

  // ---------------------------------------------------------------- parse

  /** The key of a member, moved: its span and its bytes. */
  lemma MemberKeyShift(buf1: seq<byte>, buf2: seq<byte>, delta: int, lo: int, hi: int,
                       k: nat, ke: nat, k2: nat, ke2: nat)
    requires StringScan(buf1, k) == Step(ke, None)
    requires Same(buf1, buf2, delta, lo, hi) && lo <= k && ke <= hi && k2 == k + delta && ke2 == ke + delta
    ensures StringScan(buf2, k2) == Step(ke2, None) && k2 < ke2 <= |buf2| && buf2[k2..ke2] == buf1[k..ke]
  {
    StringShift(buf1, buf2, delta, lo, hi, k, k2);
    SliceShift(buf1, buf2, delta, lo, hi, k, ke, k2, ke2);
  }

  /** The colon after the key of a member and the whitespace around it, moved. */
  lemma MemberColonShift(buf1: seq<byte>, buf2: seq<byte>, delta: int, lo: int, hi: int,
                         ke: nat, j: nat, ce: nat, vs: nat, ke2: nat, j2: nat, ce2: nat, vs2: nat)
    requires WhitespaceEnd(buf1, ke) == j && ColonToken(buf1, j) == Step(ce, None) && WhitespaceEnd(buf1, ce) == vs
    requires Same(buf1, buf2, delta, lo, hi) && lo <= ke && vs < hi
    requires ke2 == ke + delta && j2 == j + delta && ce2 == ce + delta && vs2 == vs + delta
    ensures WhitespaceEnd(buf2, ke2) == j2 && ColonToken(buf2, j2) == Step(ce2, None) && WhitespaceEnd(buf2, ce2) == vs2
  {
    WhitespaceShift(buf1, buf2, delta, lo, hi, ke, ke2);
    ColonShift(buf1, buf2, delta, lo, hi, j, j2);
    WhitespaceShift(buf1, buf2, delta, lo, hi, ce, ce2);
  }

  /** A member's value, moved, with its bytes. */
  lemma MemberBytesShift(maxDepth: int, buf1: seq<byte>, buf2: seq<byte>, delta: int, lo: int, hi: int,
                         vs: nat, e: nat, vs2: nat, e2: nat)
    requires ValueScan(maxDepth, 0, buf1, vs) == Step(e, None)
    requires Same(buf1, buf2, delta, lo, hi) && lo <= vs && e <= hi
    requires vs2 == vs + delta && e2 == e + delta && Follows(buf2, e2)
    ensures ValueScan(maxDepth, 0, buf2, vs2) == Step(e2, None) && vs2 <= e2 <= |buf2| && buf2[vs2..e2] == buf1[vs..e]
  {
    ValueShift(maxDepth, 0, buf1, buf2, delta, lo, hi, vs, e, vs2, e2);
    SliceShift(buf1, buf2, delta, lo, hi, vs, e, vs2, e2);
  }

  lemma MemberScanShift(unquote: Unquoter, maxDepth: int, buf1: seq<byte>, buf2: seq<byte>, delta: int,
                        lo: int, hi: int, k: nat, p: Pair, e: nat, k2: nat, e2: nat)
    requires MemberScan(unquote, maxDepth, buf1, k) == Parsed([p], e, None)
    requires Same(buf1, buf2, delta, lo, hi) && lo <= k && e <= hi && k2 == k + delta && e2 == e + delta
    requires Follows(buf2, e2)
    ensures MemberScan(unquote, maxDepth, buf2, k2) == Parsed([p], e2, None)
  {
    MemberScanOk(unquote, maxDepth, buf1, k, p, e);
    var ke := StringScan(buf1, k).end;
    var j := WhitespaceEnd(buf1, ke);
    var ce := ColonToken(buf1, j).end;
    var vs := WhitespaceEnd(buf1, ce);
    var ke2, j2, ce2, vs2 := ke + delta, j + delta, ce + delta, vs + delta;
    MemberKeyShift(buf1, buf2, delta, lo, hi, k, ke, k2, ke2);
    MemberColonShift(buf1, buf2, delta, lo, hi, ke, j, ce, vs, ke2, j2, ce2, vs2);
    MemberBytesShift(maxDepth, buf1, buf2, delta, lo, hi, vs, e, vs2, e2);
    MemberScanOf(unquote, maxDepth, buf2, k2, ke2, ce2, vs2, e2, p);
  }

  lemma {:induction false} PairsLoopShift(unquote: Unquoter, maxDepth: int, buf1: seq<byte>, buf2: seq<byte>, delta: int,
                                          lo: int, hi: int, n: nat, pairs: seq<Pair>, r: seq<Pair>, e: nat, n2: nat, e2: nat)
    requires PairsLoop(unquote, maxDepth, buf1, n, pairs) == Parsed(r, e, None)
    requires Same(buf1, buf2, delta, lo, hi) && lo <= n && e <= hi && n2 == n + delta && e2 == e + delta
    ensures PairsLoop(unquote, maxDepth, buf2, n2, pairs) == Parsed(r, e2, None)
    decreases Remaining(buf1, n)
  {
    var h := ObjectNext(buf1, n, |pairs| > 0);
    var k2 := h.end + delta;
    PairsLoopOk(unquote, maxDepth, buf1, n, pairs);
    if h.err == Some(EndObject) {
      PairsLoopAtEnd(unquote, maxDepth, buf1, n, pairs, h.end);
      ObjectNextShift(buf1, buf2, delta, lo, hi, n, n2, |pairs| > 0);
      PairsLoopAtEnd(unquote, maxDepth, buf2, n2, pairs, k2);
    } else {
      var ms := MemberScan(unquote, maxDepth, buf1, h.end);
      var p, m := ms.pairs[0], ms.n;
      var m2 := m + delta;
      assert ms == Parsed([p], m, None);
      PairsLoopTurn(unquote, maxDepth, buf1, n, pairs, h.end, p, m);
      PairsLoopFollows(unquote, maxDepth, buf1, m, pairs + [p]);
      PairsLoopEnds(unquote, maxDepth, buf1, m, pairs + [p]);
      ObjectNextShift(buf1, buf2, delta, lo, hi, n, n2, |pairs| > 0);
      FollowsShift(buf1, buf2, delta, lo, hi, m, m2);
      MemberScanShift(unquote, maxDepth, buf1, buf2, delta, lo, hi, h.end, p, m, k2, m2);
      PairsLoopShift(unquote, maxDepth, buf1, buf2, delta, lo, hi, m, pairs + [p], r, e, m2, e2);
      PairsLoopTurn(unquote, maxDepth, buf2, n2, pairs, k2, p, m2);
    }
  }

  /**
   * parse reads nothing past the closing brace: any buffer that begins with the
   * same n bytes parses to the same pairs and the same n.
   */
  lemma TopLevelIsLocal(unquote: Unquoter, maxDepth: int, buf1: seq<byte>, buf2: seq<byte>)
    requires TopLevel(unquote, maxDepth, buf1).err.None?
    requires var n := TopLevel(unquote, maxDepth, buf1).n; 0 <= n <= |buf1| && n <= |buf2| && buf1[..n] == buf2[..n]
    ensures TopLevel(unquote, maxDepth, buf2) == TopLevel(unquote, maxDepth, buf1)
  {
    var t := TopLevel(unquote, maxDepth, buf1);
    TopLevelEnds(unquote, maxDepth, buf1);
    SameFromSlices(buf1, buf2, 0, 0, t.n, 0, t.n);
    var j := WhitespaceEnd(buf1, 0);
    var b := BeginObject(buf1, j);
    PairsLoopEnds(unquote, maxDepth, buf1, b.end, []);
    WhitespaceShift(buf1, buf2, 0, 0, t.n, 0, 0);
    SameAt(buf1, buf2, 0, 0, t.n, j, j);
    PairsLoopShift(unquote, maxDepth, buf1, buf2, 0, 0, t.n, b.end, [], t.pairs, t.n, b.end, t.n);
  }

  /** The bytes after the object play no part: parse of the object alone gives the same result. */
  lemma TopLevelOfObjectAlone(unquote: Unquoter, maxDepth: int, buf: seq<byte>)
    requires TopLevel(unquote, maxDepth, buf).err.None?
    ensures var t := TopLevel(unquote, maxDepth, buf);
      0 < t.n <= |buf| && TopLevel(unquote, maxDepth, buf[..t.n]) == t
  {
    var t := TopLevel(unquote, maxDepth, buf);
    TopLevelEnds(unquote, maxDepth, buf);
    assert buf[..t.n] == buf[..t.n][..t.n];
    TopLevelIsLocal(unquote, maxDepth, buf, buf[..t.n]);
  }

  /** Whatever follows a parsed object, parse gives the same result. */
  lemma TopLevelIgnoresTail(unquote: Unquoter, maxDepth: int, buf: seq<byte>, tail: seq<byte>)
    requires TopLevel(unquote, maxDepth, buf).err.None?
    ensures TopLevel(unquote, maxDepth, buf + tail) == TopLevel(unquote, maxDepth, buf)
  {
    var t := TopLevel(unquote, maxDepth, buf);
    TopLevelEnds(unquote, maxDepth, buf);
    assert buf[..t.n] == (buf + tail)[..t.n];
    TopLevelIsLocal(unquote, maxDepth, buf, buf + tail);
  }
}
