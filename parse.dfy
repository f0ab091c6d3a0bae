/**
 * The top-level `parse` of parser.go: the key/value pairs of one JSON object,
 * in source order, as raw byte spans, with the key unquoted for matching.
 *
 * The unquoting is the external jsonconv.Unquote. Here it is a parameter
 * `unquote` of the parser, so that everything proved about parsing holds for
 * any unquoting; the writers pass Keys.Unquote, the stand-in that decodes the
 * escapes of RFC 8259.
 */
module Pairs {
  import opened Wrappers
  import opened Bytes
  import opened Errors
  import opened Scanner
  import opened Values

  /** kv: the unquoted key, the quoted key as written, the value as written. */
  datatype Pair = Pair(keyUnquoted: seq<byte>, keyBytes: seq<byte>, valueBytes: seq<byte>)

  /** The key decoder parse calls: bytes of a quoted key to the unquoted key, or None on failure. */
  type Unquoter = seq<byte> -> Option<seq<byte>>

  /** The three results of parse. */
  datatype Parsed = Parsed(pairs: seq<Pair>, n: int, err: Option<Error>)

  /** parse, as a function. */
  function TopLevel(unquote: Unquoter, maxDepth: int, buf: seq<byte>): Parsed
  {
    var b := BeginObject(buf, WhitespaceEnd(buf, 0));
    if b.err.Some? then Parsed([], b.end, b.err)
    else PairsLoop(unquote, maxDepth, buf, b.end, [])
  }

  /** One turn of parse's loop from offset n, with the pairs found so far. */
  function PairsLoop(unquote: Unquoter, maxDepth: int, buf: seq<byte>, n: nat, pairs: seq<Pair>): Parsed
    decreases Remaining(buf, n)
  {
    var h := ObjectNext(buf, n, |pairs| > 0);
    if h.err == Some(EndObject) then Parsed(pairs, h.end, None)
    else if h.err.Some? then Parsed(pairs, h.end, h.err)
    else
      var m := MemberScan(unquote, maxDepth, buf, h.end);
      if m.err.Some? then Parsed(pairs, m.n, m.err)
      else PairsLoop(unquote, maxDepth, buf, m.n, pairs + [m.pairs[0]])
  }

  /**
   * The body of one turn of parse's loop at the key's opening quote: key, unquoting,
   * colon, value. On success the one pair found, and the offset just past the value.
   */
  function MemberScan(unquote: Unquoter, maxDepth: int, buf: seq<byte>, k: nat): (r: Parsed)
    ensures r.err.None? ==> |r.pairs| == 1 && k < r.n <= |buf|
    ensures r.err.Some? ==> r.pairs == [] && WellPlaced(buf, r.err) && r.n <= |buf|
  {
    var key := StringScan(buf, k);
    if key.err.Some? then Parsed([], key.end, key.err)
    else
      var keyBytes := buf[k..key.end];
      var unquoted := unquote(keyBytes);
      if unquoted.None? then Parsed([], key.end, ParseErrorAt(k, Some(Cause(KeyNotUnquoted))))
      else
        var colon := ColonToken(buf, WhitespaceEnd(buf, key.end));
        if colon.err.Some? then Parsed([], colon.end, colon.err)
        else
          var valueStart := WhitespaceEnd(buf, colon.end);
          var v := ValueScan(maxDepth, 0, buf, valueStart);
          if v.err.Some? then Parsed([], v.end, v.err)
          else Parsed([Pair(unquoted.value, keyBytes, buf[valueStart..v.end])], v.end, None)
  }

  /** The parts of a member that scans: the key, its unquoting, the colon and the value. */
  lemma MemberScanOk(unquote: Unquoter, maxDepth: int, buf: seq<byte>, k: nat, p: Pair, e: nat)
    requires MemberScan(unquote, maxDepth, buf, k) == Parsed([p], e, None)
    ensures var ke := StringScan(buf, k).end;
      var ce := ColonToken(buf, WhitespaceEnd(buf, ke)).end;
      var vs := WhitespaceEnd(buf, ce);
      StringScan(buf, k) == Step(ke, None) && k < ke && p.keyBytes == buf[k..ke] &&
      unquote(p.keyBytes) == Some(p.keyUnquoted) &&
      ColonToken(buf, WhitespaceEnd(buf, ke)) == Step(ce, None) &&
      ValueScan(maxDepth, 0, buf, vs) == Step(e, None) && vs <= e && p.valueBytes == buf[vs..e]
  {
    assert [p][0] == p;
  }

  /** A member assembled from its parts: key from k to ke, colon ending at ce, value from vs to e. */
  lemma MemberScanOf(unquote: Unquoter, maxDepth: int, buf: seq<byte>, k: nat, ke: nat, ce: nat, vs: nat, e: nat, p: Pair)
    requires StringScan(buf, k) == Step(ke, None) && k < ke
    requires buf[k..ke] == p.keyBytes && unquote(p.keyBytes) == Some(p.keyUnquoted)
    requires ColonToken(buf, WhitespaceEnd(buf, ke)) == Step(ce, None)
    requires WhitespaceEnd(buf, ce) == vs
    requires ValueScan(maxDepth, 0, buf, vs) == Step(e, None) && vs <= e && buf[vs..e] == p.valueBytes
    ensures MemberScan(unquote, maxDepth, buf, k) == Parsed([p], e, None)
  {
  }

  /** A successful turn of parse's loop either closes the object or scans a member. */
  lemma PairsLoopOk(unquote: Unquoter, maxDepth: int, buf: seq<byte>, n: nat, pairs: seq<Pair>)
    requires PairsLoop(unquote, maxDepth, buf, n, pairs).err.None?
    ensures var h := ObjectNext(buf, n, |pairs| > 0);
      h.err == Some(EndObject) || (h.err.None? && MemberScan(unquote, maxDepth, buf, h.end).err.None?)
  {
  }

  /** A turn of parse's loop that finds the pair p from k to m goes on at m with p appended. */
  lemma PairsLoopTurn(unquote: Unquoter, maxDepth: int, buf: seq<byte>, n: nat, pairs: seq<Pair>, k: nat, p: Pair, m: nat)
    requires ObjectNext(buf, n, |pairs| > 0) == Step(k, None)
    requires MemberScan(unquote, maxDepth, buf, k) == Parsed([p], m, None)
    ensures PairsLoop(unquote, maxDepth, buf, n, pairs) == PairsLoop(unquote, maxDepth, buf, m, pairs + [p])
  {
  }

  /** A turn of parse's loop whose head finds the closing brace ends the object there. */
  lemma PairsLoopAtEnd(unquote: Unquoter, maxDepth: int, buf: seq<byte>, n: nat, pairs: seq<Pair>, k: nat)
    requires ObjectNext(buf, n, |pairs| > 0) == Step(k, Some(EndObject))
    ensures PairsLoop(unquote, maxDepth, buf, n, pairs) == Parsed(pairs, k, None)
  {
  }

  /**
   * Where a run of parse's loop ends: on success one past a closing brace that
   * lies beyond n and within the buffer, on failure with an error that pins the
   * offending offset.
   */
  lemma {:induction false} PairsLoopEnds(unquote: Unquoter, maxDepth: int, buf: seq<byte>, n: nat, pairs: seq<Pair>)
    ensures var r := PairsLoop(unquote, maxDepth, buf, n, pairs);
      (r.err.None? ==> n < r.n <= |buf| && buf[r.n - 1] == CloseBrace) &&
      (r.err.Some? ==> WellPlaced(buf, r.err) && r.n <= |buf|)
    decreases Remaining(buf, n)
  {
    var h := ObjectNext(buf, n, |pairs| > 0);
    if h.err.None? {
      var m := MemberScan(unquote, maxDepth, buf, h.end);
      if m.err.None? {
        PairsLoopEnds(unquote, maxDepth, buf, m.n, pairs + [m.pairs[0]]);
      }
    }
  }

  /** The loop only ever appends: the pairs found before a turn stay, in order, at the front. */
  lemma {:induction false} PairsLoopExtends(unquote: Unquoter, maxDepth: int, buf: seq<byte>, n: nat, pairs: seq<Pair>)
    ensures var r := PairsLoop(unquote, maxDepth, buf, n, pairs);
      |pairs| <= |r.pairs| && r.pairs[..|pairs|] == pairs
    decreases Remaining(buf, n)
  {
    var h := ObjectNext(buf, n, |pairs| > 0);
    if h.err.None? {
      var m := MemberScan(unquote, maxDepth, buf, h.end);
      if m.err.None? {
        var next := pairs + [m.pairs[0]];
        PairsLoopExtends(unquote, maxDepth, buf, m.n, next);
        var r := PairsLoop(unquote, maxDepth, buf, m.n, next);
        assert r.pairs[..|pairs|] == r.pairs[..|next|][..|pairs|];
      }
    }
  }

  /**
   * pairs are the members of buf that start at the offsets ks and end at the
   * offsets es, in that order: each is what MemberScan reads there, and each
   * starts after the one before it ends.
   */
  predicate MembersAt(unquote: Unquoter, maxDepth: int, buf: seq<byte>, pairs: seq<Pair>, ks: seq<nat>, es: seq<nat>)
  {
    |ks| == |pairs| && |es| == |pairs| &&
    (forall i :: 0 <= i < |pairs| ==> MemberScan(unquote, maxDepth, buf, ks[i]) == Parsed([pairs[i]], es[i], None)) &&
    (forall i :: 0 < i < |pairs| ==> es[i - 1] < ks[i])
  }

  /** Each turn of parse's loop adds the member it reads, after those read before. */
  lemma {:induction false} PairsLoopMembers(unquote: Unquoter, maxDepth: int, buf: seq<byte>, n: nat, pairs: seq<Pair>,
                                            ks: seq<nat>, es: seq<nat>) returns (ks': seq<nat>, es': seq<nat>)
    requires MembersAt(unquote, maxDepth, buf, pairs, ks, es)
    requires |es| > 0 ==> es[|es| - 1] <= n
    ensures var r := PairsLoop(unquote, maxDepth, buf, n, pairs);
      MembersAt(unquote, maxDepth, buf, r.pairs, ks', es') &&
      (r.err.None? && |es'| > 0 ==> es'[|es'| - 1] < r.n)
    decreases Remaining(buf, n)
  {
    if ReadsMember(unquote, maxDepth, buf, n, pairs) {
      var p, k, e := MemberTurn(unquote, maxDepth, buf, n, pairs, ks, es);
      assert (es + [e])[|es|] == e;
      ks', es' := PairsLoopMembers(unquote, maxDepth, buf, e, pairs + [p], ks + [k], es + [e]);
    } else {
      LoopStops(unquote, maxDepth, buf, n, pairs);
      ks', es' := ks, es;
    }
  }

  /** The turn of parse's loop at n reads a member, and the loop goes on. */
  predicate ReadsMember(unquote: Unquoter, maxDepth: int, buf: seq<byte>, n: nat, pairs: seq<Pair>)
  {
    var h := ObjectNext(buf, n, |pairs| > 0);
    h.err.None? && MemberScan(unquote, maxDepth, buf, h.end).err.None?
  }

  /** A turn that reads a member from k to e: the loop goes on at e, and MembersAt grows by it. */
  lemma MemberTurn(unquote: Unquoter, maxDepth: int, buf: seq<byte>, n: nat, pairs: seq<Pair>,
                   ks: seq<nat>, es: seq<nat>) returns (p: Pair, k: nat, e: nat)
    requires ReadsMember(unquote, maxDepth, buf, n, pairs)
    requires MembersAt(unquote, maxDepth, buf, pairs, ks, es)
    requires |es| > 0 ==> es[|es| - 1] <= n
    ensures n < e <= |buf| && Remaining(buf, e) < Remaining(buf, n)
    ensures PairsLoop(unquote, maxDepth, buf, n, pairs) == PairsLoop(unquote, maxDepth, buf, e, pairs + [p])
    ensures MembersAt(unquote, maxDepth, buf, pairs + [p], ks + [k], es + [e])
  {
    var h := ObjectNext(buf, n, |pairs| > 0);
    var m := MemberScan(unquote, maxDepth, buf, h.end);
    p, k, e := m.pairs[0], h.end, m.n;
    assert m == Parsed([p], e, None);
    PairsLoopTurn(unquote, maxDepth, buf, n, pairs, k, p, e);
    MembersAtSnoc(unquote, maxDepth, buf, pairs, ks, es, p, k, e);
  }

  /** A turn that reads no member ends the loop with the pairs it has, past n on success. */
  lemma LoopStops(unquote: Unquoter, maxDepth: int, buf: seq<byte>, n: nat, pairs: seq<Pair>)
    requires !ReadsMember(unquote, maxDepth, buf, n, pairs)
    ensures var r := PairsLoop(unquote, maxDepth, buf, n, pairs);
      r.pairs == pairs && (r.err.None? ==> n < r.n)
  {
  }

  /** One more member, read after the last one ends, extends MembersAt. */
  lemma MembersAtSnoc(unquote: Unquoter, maxDepth: int, buf: seq<byte>, pairs: seq<Pair>, ks: seq<nat>, es: seq<nat>,
                      p: Pair, k: nat, e: nat)
    requires MembersAt(unquote, maxDepth, buf, pairs, ks, es)
    requires MemberScan(unquote, maxDepth, buf, k) == Parsed([p], e, None)
    requires |es| > 0 ==> es[|es| - 1] < k
    ensures MembersAt(unquote, maxDepth, buf, pairs + [p], ks + [k], es + [e])
  {
    var pairs', ks', es' := pairs + [p], ks + [k], es + [e];
    forall i | 0 <= i < |pairs'|
      ensures MemberScan(unquote, maxDepth, buf, ks'[i]) == Parsed([pairs'[i]], es'[i], None)
    {
      if i < |pairs| {
        assert ks'[i] == ks[i] && es'[i] == es[i] && pairs'[i] == pairs[i];
      }
    }
    forall i | 0 < i < |pairs'|
      ensures es'[i - 1] < ks'[i]
    {
      if i < |pairs| {
        assert es'[i - 1] == es[i - 1] && ks'[i] == ks[i];
      }
    }
  }

  /**
   * The pairs parse returns, on success or on error, are members of buf in
   * source order: pairs[i] is the member read from ks[i] to es[i], and the
   * offsets increase. On success the last member ends before n.
   */
  lemma TopLevelMembersInOrder(unquote: Unquoter, maxDepth: int, buf: seq<byte>)
    ensures var r := TopLevel(unquote, maxDepth, buf);
      exists ks: seq<nat>, es: seq<nat> ::
        MembersAt(unquote, maxDepth, buf, r.pairs, ks, es) && (r.err.None? && |es| > 0 ==> es[|es| - 1] < r.n)
  {
    var b := BeginObject(buf, WhitespaceEnd(buf, 0));
    if b.err.Some? {
      var none: seq<nat> := [];
      assert MembersAt(unquote, maxDepth, buf, TopLevel(unquote, maxDepth, buf).pairs, none, none);
    } else {
      var ks, es := PairsLoopMembers(unquote, maxDepth, buf, b.end, [], [], []);
      var r := TopLevel(unquote, maxDepth, buf);
      assert r == PairsLoop(unquote, maxDepth, buf, b.end, []);
      assert MembersAt(unquote, maxDepth, buf, r.pairs, ks, es) && (r.err.None? && |es| > 0 ==> es[|es| - 1] < r.n);
    }
  }

  /**
   * parse's outcome: on success n is one past the closing brace of the object,
   * n <= len(buf); on failure the error pins the offending offset.
   */
  lemma TopLevelEnds(unquote: Unquoter, maxDepth: int, buf: seq<byte>)
    ensures var r := TopLevel(unquote, maxDepth, buf);
      (r.err.None? ==> 0 < r.n <= |buf| && buf[r.n - 1] == CloseBrace) &&
      (r.err.Some? ==> WellPlaced(buf, r.err) && r.n <= |buf|)
  {
    var b := BeginObject(buf, WhitespaceEnd(buf, 0));
    if b.err.None? {
      PairsLoopEnds(unquote, maxDepth, buf, b.end, []);
    }
  }

  /** At the top level, too, a second comma after a member fails at it. */
  lemma PairsLoopDoubleComma(unquote: Unquoter, maxDepth: int, buf: seq<byte>, n: nat, pairs: seq<Pair>, j: nat, k: nat)
    requires |pairs| > 0
    requires j == WhitespaceEnd(buf, n) && j < |buf| && buf[j] == Comma
    requires k == WhitespaceEnd(buf, j + 1) && k < |buf| && buf[k] == Comma
    ensures PairsLoop(unquote, maxDepth, buf, n, pairs) == Parsed(pairs, k + 1, Fail(k + 1, k, Unexpected(Comma)).err)
  {
    assert ObjectComma(buf, j) == Step(j + 1, None);
    assert ObjectNext(buf, n, true) == Step(k, None);
    assert StringScan(buf, k) == Fail(k + 1, k, Unexpected(Comma));
    assert MemberScan(unquote, maxDepth, buf, k) == Parsed([], k + 1, Fail(k + 1, k, Unexpected(Comma)).err);
  }

  /** A first token other than `{` fails parse at that token's offset. */
  lemma TopLevelNeedsObject(unquote: Unquoter, maxDepth: int, buf: seq<byte>, j: nat)
    requires j == WhitespaceEnd(buf, 0) && j < |buf| && buf[j] != OpenBrace
    ensures TopLevel(unquote, maxDepth, buf) == Parsed([], j + 1, Fail(j + 1, j, Unexpected(buf[j])).err)
  {
  }

  /** Input that is empty or only whitespace fails parse with UnexpectedEOF at its end. */
  lemma TopLevelOfBlank(unquote: Unquoter, maxDepth: int, buf: seq<byte>)
    requires WhitespaceEnd(buf, 0) == |buf|
    ensures TopLevel(unquote, maxDepth, buf) == Parsed([], |buf|, Fail(|buf|, |buf|, UnexpectedEOF).err)
  {
  }

  /** parse */
  method Parse(unquote: Unquoter, maxDepth: int, buf: seq<byte>) returns (pairs: seq<Pair>, n: int, err: Option<Error>)
    ensures Parsed(pairs, n, err) == TopLevel(unquote, maxDepth, buf)
  {
    pairs := [];
    var i: nat := SkipWhitespace(buf, 0);
    var begin := BeginObject(buf, i);
    if begin.err.Some? {
      return pairs, begin.end, begin.err;
    }
    i := begin.end;
    while true
      invariant 0 < i <= |buf|
      invariant PairsLoop(unquote, maxDepth, buf, i, pairs) == TopLevel(unquote, maxDepth, buf)
      decreases Remaining(buf, i)
    {
      ghost var top := i;
      i := SkipWhitespace(buf, i);
      if |pairs| > 0 {
        var comma := ObjectComma(buf, i);
        if comma.err == Some(EndObject) {
          return pairs, comma.end, None;
        }
        if comma.err.Some? {
          return pairs, comma.end, comma.err;
        }
        i := SkipWhitespace(buf, comma.end);
      }
      if i < |buf| && buf[i] == CloseBrace {
        return pairs, i + 1, None;
      }
      var keyStart := i;
      var keyEnd, keyErr := ParseString(buf, keyStart);
      if keyErr.Some? {
        return pairs, keyEnd, keyErr;
      }
      var keyBytes := buf[keyStart..keyEnd];
      var unquoted := unquote(keyBytes);
      if unquoted.None? {
        return pairs, keyEnd, ParseErrorAt(keyStart, Some(Cause(KeyNotUnquoted)));
      }
      var afterKey := SkipWhitespace(buf, keyEnd);
      var colon := ColonToken(buf, afterKey);
      if colon.err.Some? {
        return pairs, colon.end, colon.err;
      }
      var valueStart := SkipWhitespace(buf, colon.end);
      var valueEnd, valueErr := ParseValue(maxDepth, 0, buf, valueStart);
      if valueErr.Some? {
        return pairs, valueEnd, valueErr;
      }
      assert MemberScan(unquote, maxDepth, buf, keyStart) ==
        Parsed([Pair(unquoted.value, keyBytes, buf[valueStart..valueEnd])], valueEnd, None);
      pairs := pairs + [Pair(unquoted.value, keyBytes, buf[valueStart..valueEnd])];
      i := valueEnd;
    }
  }
}
