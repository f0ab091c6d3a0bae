/**
 * The round trip of fuzz_test.go: the pairs parse returns, written back as
 * `{` key `:` value `,` ... `}` (reorder's serialisation, ObjectText), parse
 * again to the very same pairs. And since reorder writes a permutation of
 * those pairs in that same form, reorder's output parses to the arranged
 * pairs.
 *
 * The link between the two parses is a property of single pairs (Scans): the
 * key bytes form a string token by themselves and unquote to the key, and the
 * value bytes form a value by themselves. Parse's output has it (ParsedPairsScan),
 * and any pairs that have it parse back from ObjectText (ObjectTextParses).
 */
module RoundTrip {
  import opened Wrappers
  import opened Bytes
  import opened Errors
  import opened Scanner
  import opened Values
  import opened Pairs
  import opened Reorder
  import opened Locality

  /**
   * p parses on its own: keyBytes is one whole string token that unquotes to
   * keyUnquoted, and valueBytes is one whole value when a comma follows it.
   */
  predicate Scans(unquote: Unquoter, maxDepth: int, p: Pair)
  {
    StringScan(p.keyBytes, 0) == Step(|p.keyBytes|, None) &&
    unquote(p.keyBytes) == Some(p.keyUnquoted) &&
    ValueScan(maxDepth, 0, p.valueBytes + [Comma], 0) == Step(|p.valueBytes|, None)
  }

  predicate AllScan(unquote: Unquoter, maxDepth: int, ps: seq<Pair>)
  {
    forall p :: p in ps ==> Scans(unquote, maxDepth, p)
  }

  // ------------------------------------------------- parsed pairs scan alone

  /** A key scanned in buf from k to ke is, by itself, one whole string token. */
  lemma KeyStandsAlone(buf: seq<byte>, k: nat, ke: nat)
    requires StringScan(buf, k) == Step(ke, None)
    ensures k <= ke <= |buf| && StringScan(buf[k..ke], 0) == Step(ke - k, None)
  {
    var kb := buf[k..ke];
    var shift: int := 0 - k;
    assert kb[0..|kb|] == kb;
    SameFromSlices(buf, kb, shift, k, ke, 0, |kb|);
    StringShift(buf, kb, shift, k, ke, k, 0);
  }

  /** A value scanned in buf from vs to e is, by itself with a comma after it, one whole value. */
  lemma ValueStandsAlone(maxDepth: int, buf: seq<byte>, vs: nat, e: nat)
    requires ValueScan(maxDepth, 0, buf, vs) == Step(e, None)
    ensures vs <= e <= |buf| && ValueScan(maxDepth, 0, buf[vs..e] + [Comma], 0) == Step(e - vs, None)
  {
    var vb := buf[vs..e];
    var vc := vb + [Comma];
    var shift: int := 0 - vs;
    assert vc[0..|vb|] == vb;
    SameFromSlices(buf, vc, shift, vs, e, 0, |vb|);
    ValueShift(maxDepth, 0, buf, vc, shift, vs, e, vs, e, 0, e - vs);
  }

  /** The pair one member yields parses on its own. */
  lemma MemberScans(unquote: Unquoter, maxDepth: int, buf: seq<byte>, k: nat, p: Pair, e: nat)
    requires MemberScan(unquote, maxDepth, buf, k) == Parsed([p], e, None)
    ensures Scans(unquote, maxDepth, p)
  {
    MemberScanOk(unquote, maxDepth, buf, k, p, e);
    var ke := StringScan(buf, k).end;
    var ce := ColonToken(buf, WhitespaceEnd(buf, ke)).end;
    var vs := WhitespaceEnd(buf, ce);
    KeyStandsAlone(buf, k, ke);
    ValueStandsAlone(maxDepth, buf, vs, e);
  }

  /** Every pair parse's loop adds parses on its own. */
  lemma {:induction false} PairsLoopScans(unquote: Unquoter, maxDepth: int, buf: seq<byte>, n: nat, pairs: seq<Pair>)
    requires PairsLoop(unquote, maxDepth, buf, n, pairs).err.None? && AllScan(unquote, maxDepth, pairs)
    ensures AllScan(unquote, maxDepth, PairsLoop(unquote, maxDepth, buf, n, pairs).pairs)
    decreases Remaining(buf, n)
  {
    var h := ObjectNext(buf, n, |pairs| > 0);
    PairsLoopOk(unquote, maxDepth, buf, n, pairs);
    if h.err == Some(EndObject) {
      PairsLoopAtEnd(unquote, maxDepth, buf, n, pairs, h.end);
    } else {
      var ms := MemberScan(unquote, maxDepth, buf, h.end);
      var p, m := ms.pairs[0], ms.n;
      assert ms == Parsed([p], m, None);
      MemberScans(unquote, maxDepth, buf, h.end, p, m);
      PairsLoopTurn(unquote, maxDepth, buf, n, pairs, h.end, p, m);
      assert AllScan(unquote, maxDepth, pairs + [p]);
      PairsLoopScans(unquote, maxDepth, buf, m, pairs + [p]);
    }
  }

  /** Every pair parse returns parses on its own. */
  lemma ParsedPairsScan(unquote: Unquoter, maxDepth: int, buf: seq<byte>)
    requires TopLevel(unquote, maxDepth, buf).err.None?
    ensures AllScan(unquote, maxDepth, TopLevel(unquote, maxDepth, buf).pairs)
  {
    var b := BeginObject(buf, WhitespaceEnd(buf, 0));
    PairsLoopScans(unquote, maxDepth, buf, b.end, []);
  }

  // --------------------------------------------- such pairs parse back again

  /**
   * What ObjectText holds from the member of qs on: `}` when there is none,
   * else the comma before it when more, the entries and `}`.
   */
  function Rest(qs: seq<Pair>, more: bool): seq<byte>
  {
    if qs == [] then [CloseBrace] else (if more then [Comma] else []) + Members(qs) + [CloseBrace]
  }

  lemma RestCons(qs: seq<Pair>, more: bool)
    requires qs != []
    ensures Rest(qs, more) == (if more then [Comma] else []) + Entry(qs[0]) + Rest(qs[1..], true)
  {
  }

  lemma ObjectTextRest(ps: seq<Pair>)
    ensures ObjectText(ps) == [OpenBrace] + Rest(ps, false)
  {
  }

  /** A value does not start with whitespace. */
  lemma ValueStartsClean(maxDepth: int, depth: int, buf: seq<byte>, pos: nat)
    requires ValueScan(maxDepth, depth, buf, pos).err.None?
    ensures pos < |buf| && !IsWhitespace(buf[pos])
  {
  }

  /** B holds R at n: then it holds every slice of R at the matching place. */
  lemma Within(B: seq<byte>, n: nat, R: seq<byte>, a: nat, b: nat)
    requires n + |R| <= |B| && B[n..n + |R|] == R && a <= b <= |R|
    ensures B[n + a..n + b] == R[a..b]
  {
    forall t | 0 <= t < b - a
      ensures B[n + a..n + b][t] == R[a..b][t]
    {
      assert B[n + a + t] == B[n..n + |R|][a + t];
    }
  }

  /** B holds x + y + z at n: then it holds x, y and z one after the other. */
  lemma Split3(B: seq<byte>, n: nat, x: seq<byte>, y: seq<byte>, z: seq<byte>)
    requires n + |x| + |y| + |z| <= |B| && B[n..n + |x| + |y| + |z|] == x + y + z
    ensures B[n..n + |x|] == x && B[n + |x|..n + |x| + |y|] == y && B[n + |x| + |y|..n + |x| + |y| + |z|] == z
  {
    var all := x + y + z;
    assert |all| == |x| + |y| + |z|;
    Within(B, n, all, 0, |x|);
    Within(B, n, all, |x|, |x| + |y|);
    Within(B, n, all, |x| + |y|, |all|);
    assert all[0..|x|] == x && all[|x|..|x| + |y|] == y && all[|x| + |y|..|all|] == z;
  }

  /** A key that forms a string token by itself, found in B at k, scans there. */
  lemma KeyFromParts(kb: seq<byte>, B: seq<byte>, k: nat, ke: nat)
    requires StringScan(kb, 0) == Step(|kb|, None)
    requires ke == k + |kb| && ke <= |B| && B[k..ke] == kb
    ensures StringScan(B, k) == Step(ke, None)
  {
    assert kb[0..|kb|] == kb;
    SameFromSlices(kb, B, k, 0, |kb|, k, ke);
    StringShift(kb, B, k, 0, |kb|, 0, k);
  }

  /** A value that forms one by itself, found in B at vs with a follower, scans there. */
  lemma ValueFromParts(maxDepth: int, vb: seq<byte>, B: seq<byte>, vs: nat, e: nat)
    requires ValueScan(maxDepth, 0, vb + [Comma], 0) == Step(|vb|, None)
    requires e == vs + |vb| && e < |B| && B[vs..e] == vb && !ExtendsNumber(B[e])
    ensures ValueScan(maxDepth, 0, B, vs) == Step(e, None) && WhitespaceEnd(B, vs) == vs
  {
    var vc := vb + [Comma];
    ValueStartsClean(maxDepth, 0, vc, 0);
    assert B[vs] == B[vs..e][0] == vc[0];
    assert vc[0..|vb|] == vb;
    SameFromSlices(vc, B, vs, 0, |vb|, vs, e);
    ValueShift(maxDepth, 0, vc, B, vs, 0, |vb|, 0, |vb|, vs, e);
  }

  /** key `:` value found in B at k: the key up to ke, a colon that parseColon accepts, the value from vs to e. */
  lemma EntryLayout(B: seq<byte>, k: nat, kb: seq<byte>, vb: seq<byte>, ke: nat, vs: nat, e: nat)
    requires ke == k + |kb| && vs == ke + 1 && e == vs + |vb|
    requires e <= |B| && B[k..e] == kb + [Colon] + vb
    ensures B[k..ke] == kb && B[vs..e] == vb
    ensures WhitespaceEnd(B, ke) == ke && ColonToken(B, ke) == Step(vs, None)
  {
    Split3(B, k, kb, [Colon], vb);
    assert B[ke] == B[ke..vs][0] == Colon;
  }

  /** The entry of a pair that scans on its own, found in B at k with a follower, parses as that member. */
  lemma MemberFromParts(unquote: Unquoter, maxDepth: int, B: seq<byte>, k: nat, e: nat, q: Pair)
    requires Scans(unquote, maxDepth, q)
    requires e == k + |Entry(q)| && e < |B| && B[k..e] == Entry(q) && !ExtendsNumber(B[e])
    ensures MemberScan(unquote, maxDepth, B, k) == Parsed([q], e, None)
  {
    var kb, vb := q.keyBytes, q.valueBytes;
    var ke: nat := k + |kb|;
    var vs: nat := ke + 1;
    EntryLayout(B, k, kb, vb, ke, vs, e);
    KeyFromParts(kb, B, k, ke);
    ValueFromParts(maxDepth, vb, B, vs, e);
    MemberScanOf(unquote, maxDepth, B, k, ke, vs, vs, e, q);
  }

  /** Rest([], ...) found in B at n: parse's loop meets the closing brace. */
  lemma RestAtEnd(unquote: Unquoter, maxDepth: int, B: seq<byte>, n: nat, acc: seq<Pair>)
    requires n < |B| && B[n] == CloseBrace
    ensures PairsLoop(unquote, maxDepth, B, n, acc) == Parsed(acc, n + 1, None)
  {
    assert ObjectNext(B, n, |acc| > 0) == Step(n + 1, Some(EndObject));
    PairsLoopAtEnd(unquote, maxDepth, B, n, acc, n + 1);
  }

  /** Rest(qs, true) begins with the comma before the next member, or with the closing brace. */
  lemma RestStart(qs: seq<Pair>)
    ensures Rest(qs, true) != [] && Rest(qs, true)[0] == if qs == [] then CloseBrace else Comma
  {
  }

  /**
   * The entry of q in B from k to e, after the comma parse's loop expects at n
   * when more, and before a comma or the closing brace: one turn of the loop
   * reads the member q and goes on at e.
   */
  lemma MemberTurn(unquote: Unquoter, maxDepth: int, B: seq<byte>, n: nat, acc: seq<Pair>, q: Pair, k: nat, e: nat)
    requires Scans(unquote, maxDepth, q)
    requires if |acc| > 0 then k == n + 1 && n < |B| && B[n] == Comma else k == n
    requires e == k + |Entry(q)| && e < |B| && B[k..e] == Entry(q) && (B[e] == Comma || B[e] == CloseBrace)
    ensures PairsLoop(unquote, maxDepth, B, n, acc) == PairsLoop(unquote, maxDepth, B, e, acc + [q])
  {
    assert B[k] == B[k..e][0] == q.keyBytes[0] == QuoteMark;
    assert ObjectNext(B, n, |acc| > 0) == Step(k, None);
    MemberFromParts(unquote, maxDepth, B, k, e, q);
    PairsLoopTurn(unquote, maxDepth, B, n, acc, k, q, e);
  }

  /** sep + E + R found in B at n, R starting with a comma or `}`: where each part lies. */
  lemma Layout(B: seq<byte>, n: nat, more: bool, sep: seq<byte>, E: seq<byte>, R: seq<byte>) returns (k: nat, e: nat)
    requires sep == (if more then [Comma] else []) && R != [] && (R[0] == Comma || R[0] == CloseBrace)
    requires n + |sep| + |E| + |R| <= |B| && B[n..n + |sep| + |E| + |R|] == sep + E + R
    ensures if more then k == n + 1 && n < |B| && B[n] == Comma else k == n
    ensures e == k + |E| && e < |B| && B[k..e] == E && (B[e] == Comma || B[e] == CloseBrace)
    ensures B[e..e + |R|] == R
  {
    Split3(B, n, sep, E, R);
    k := n + |sep|;
    e := k + |E|;
    assert B[e] == B[e..e + |R|][0];
    if more {
      assert B[n] == B[n..n + 1][0];
    }
  }

  /**
   * Rest(qs, more) found in B at n, qs not empty: the comma when more, the
   * entry of qs[0] from k to e, and Rest(qs[1..], true) from e on.
   */
  lemma RestLayout(B: seq<byte>, n: nat, qs: seq<Pair>, more: bool) returns (k: nat, e: nat)
    requires qs != []
    requires n + |Rest(qs, more)| <= |B| && B[n..n + |Rest(qs, more)|] == Rest(qs, more)
    ensures if more then k == n + 1 && n < |B| && B[n] == Comma else k == n
    ensures e == k + |Entry(qs[0])| && e < |B| && B[k..e] == Entry(qs[0]) && (B[e] == Comma || B[e] == CloseBrace)
    ensures e + |Rest(qs[1..], true)| == n + |Rest(qs, more)| && B[e..e + |Rest(qs[1..], true)|] == Rest(qs[1..], true)
  {
    var sep: seq<byte> := if more then [Comma] else [];
    RestCons(qs, more);
    RestStart(qs[1..]);
    k, e := Layout(B, n, more, sep, Entry(qs[0]), Rest(qs[1..], true));
  }

  lemma AppendHead(acc: seq<Pair>, qs: seq<Pair>)
    requires qs != []
    ensures acc + [qs[0]] + qs[1..] == acc + qs
  {
  }

  lemma AllScanTail(unquote: Unquoter, maxDepth: int, qs: seq<Pair>)
    requires qs != [] && AllScan(unquote, maxDepth, qs)
    ensures Scans(unquote, maxDepth, qs[0]) && AllScan(unquote, maxDepth, qs[1..])
  {
    assert qs[0] in qs;
    forall p | p in qs[1..] ensures p in qs { }
  }

  /** Rest(qs, ...) found in B at n, qs not empty: one turn of parse's loop reads qs[0]. */
  lemma RestTurn(unquote: Unquoter, maxDepth: int, B: seq<byte>, n: nat, acc: seq<Pair>, qs: seq<Pair>) returns (e: nat)
    requires qs != [] && AllScan(unquote, maxDepth, qs)
    requires n + |Rest(qs, |acc| > 0)| <= |B| && B[n..n + |Rest(qs, |acc| > 0)|] == Rest(qs, |acc| > 0)
    ensures e + |Rest(qs[1..], true)| == n + |Rest(qs, |acc| > 0)|
    ensures B[e..e + |Rest(qs[1..], true)|] == Rest(qs[1..], true)
    ensures PairsLoop(unquote, maxDepth, B, n, acc) == PairsLoop(unquote, maxDepth, B, e, acc + [qs[0]])
  {
    var k;
    k, e := RestLayout(B, n, qs, |acc| > 0);
    AllScanTail(unquote, maxDepth, qs);
    MemberTurn(unquote, maxDepth, B, n, acc, qs[0], k, e);
  }

  /** Rest(qs, ...) found in B at n: parse's loop reads the members of qs and the closing brace. */
  lemma {:induction false} RestParses(unquote: Unquoter, maxDepth: int, B: seq<byte>, n: nat, acc: seq<Pair>, qs: seq<Pair>)
    requires AllScan(unquote, maxDepth, qs)
    requires n + |Rest(qs, |acc| > 0)| <= |B| && B[n..n + |Rest(qs, |acc| > 0)|] == Rest(qs, |acc| > 0)
    ensures PairsLoop(unquote, maxDepth, B, n, acc) == Parsed(acc + qs, n + |Rest(qs, |acc| > 0)|, None)
    decreases |qs|
  {
    if qs == [] {
      assert B[n] == B[n..n + 1][0] == CloseBrace;
      RestAtEnd(unquote, maxDepth, B, n, acc);
      assert acc + qs == acc;
    } else {
      var e := RestTurn(unquote, maxDepth, B, n, acc, qs);
      AllScanTail(unquote, maxDepth, qs);
      RestParses(unquote, maxDepth, B, e, acc + [qs[0]], qs[1..]);
      AppendHead(acc, qs);
    }
  }

  /** Pairs that each parse on their own, written as reorder writes them, parse back to themselves. */
  lemma ObjectTextParses(unquote: Unquoter, maxDepth: int, ps: seq<Pair>)
    requires AllScan(unquote, maxDepth, ps)
    ensures TopLevel(unquote, maxDepth, ObjectText(ps)) == Parsed(ps, |ObjectText(ps)|, None)
  {
    var T := ObjectText(ps);
    ObjectTextRest(ps);
    var R := Rest(ps, false);
    assert T[1..1 + |R|] == R;
    RestParses(unquote, maxDepth, T, 1, [], ps);
    assert [] + ps == ps;
  }

  // --------------------------------------- whitespace before each member

  /** Whitespace bytes only. */
  predicate Blank(g: seq<byte>)
  {
    forall i :: 0 <= i < |g| ==> IsWhitespace(g[i])
  }

  predicate AllBlank(gaps: seq<seq<byte>>)
  {
    forall g :: g in gaps ==> Blank(g)
  }

  /**
   * The entries of qs as parse's loop meets them from a turn on: before each,
   * a comma (none before the first unless more) and then its gap.
   */
  function Spaced(qs: seq<Pair>, gaps: seq<seq<byte>>, more: bool): seq<byte>
    requires |gaps| == |qs|
    decreases |qs|
  {
    if qs == [] then []
    else ((if more then [Comma] else []) + gaps[0]) + Entry(qs[0]) + Spaced(qs[1..], gaps[1..], true)
  }

  /** `{` entries `}` with the gap gaps[i] of whitespace before entry i. */
  function SpacedText(ps: seq<Pair>, gaps: seq<seq<byte>>): seq<byte>
    requires |gaps| == |ps|
  {
    [OpenBrace] + Spaced(ps, gaps, false) + [CloseBrace]
  }

  /** A gap of whitespace before a byte that is not whitespace is what skipWhitespace skips. */
  lemma {:induction false} GapSkipped(B: seq<byte>, a: nat, g: seq<byte>)
    requires Blank(g) && a + |g| < |B| && B[a..a + |g|] == g && !IsWhitespace(B[a + |g|])
    ensures WhitespaceEnd(B, a) == a + |g|
    decreases |g|
  {
    if g != [] {
      assert B[a] == g[0];
      assert B[a + 1..a + 1 + |g[1..]|] == g[1..];
      GapSkipped(B, a + 1, g[1..]);
    }
  }

  /**
   * The comma parse's loop expects at n when acc is not empty, the gap g and
   * the entry of q from k to e, before a comma or the closing brace: one turn
   * of the loop reads the member q and goes on at e.
   */
  lemma SpacedTurn(unquote: Unquoter, maxDepth: int, B: seq<byte>, n: nat, acc: seq<Pair>, q: Pair,
                   g: seq<byte>, a: nat, k: nat, e: nat)
    requires Scans(unquote, maxDepth, q) && Blank(g)
    requires if |acc| > 0 then a == n + 1 && n < |B| && B[n] == Comma else a == n
    requires k == a + |g| && e == k + |Entry(q)| && e < |B|
    requires B[a..k] == g && B[k..e] == Entry(q) && (B[e] == Comma || B[e] == CloseBrace)
    ensures PairsLoop(unquote, maxDepth, B, n, acc) == PairsLoop(unquote, maxDepth, B, e, acc + [q])
  {
    assert B[k] == B[k..e][0] == q.keyBytes[0] == QuoteMark;
    GapSkipped(B, a, g);
    assert ObjectNext(B, n, |acc| > 0) == Step(k, None);
    MemberFromParts(unquote, maxDepth, B, k, e, q);
    PairsLoopTurn(unquote, maxDepth, B, n, acc, k, q, e);
  }

  /** B holds sep + g at n: the separator, then the gap. */
  lemma GapLayout(B: seq<byte>, n: nat, sep: seq<byte>, g: seq<byte>)
    requires n + |sep| + |g| <= |B| && B[n..n + |sep| + |g|] == sep + g
    ensures B[n..n + |sep|] == sep && B[n + |sep|..n + |sep| + |g|] == g
  {
    Within(B, n, sep + g, 0, |sep|);
    Within(B, n, sep + g, |sep|, |sep| + |g|);
    assert (sep + g)[..|sep|] == sep && (sep + g)[|sep|..] == g;
  }

  lemma SpacedCons(qs: seq<Pair>, gaps: seq<seq<byte>>, more: bool)
    requires |gaps| == |qs| && qs != []
    ensures Spaced(qs, gaps, more) ==
      ((if more then [Comma] else []) + gaps[0]) + Entry(qs[0]) + Spaced(qs[1..], gaps[1..], true)
    ensures qs[1..] != [] ==> Spaced(qs[1..], gaps[1..], true)[0] == Comma
  {
  }

  /** sep + g + E + R found in B at n: where each part lies. */
  lemma GapSplit(B: seq<byte>, n: nat, sep: seq<byte>, g: seq<byte>, E: seq<byte>, R: seq<byte>)
    requires n + |sep| + |g| + |E| + |R| <= |B| && B[n..n + |sep| + |g| + |E| + |R|] == (sep + g) + E + R
    ensures B[n..n + |sep|] == sep && B[n + |sep|..n + |sep| + |g|] == g
    ensures B[n + |sep| + |g|..n + |sep| + |g| + |E|] == E
    ensures B[n + |sep| + |g| + |E|..n + |sep| + |g| + |E| + |R|] == R
  {
    Split3(B, n, sep + g, E, R);
    GapLayout(B, n, sep, g);
  }

  /**
   * Spaced(qs, gaps, more) found in B at n, qs not empty: the comma when
   * more, the gap gaps[0] from a to k, the entry of qs[0] from k to e, and
   * the spaced rest from e on.
   */
  lemma SpacedLayout(B: seq<byte>, n: nat, qs: seq<Pair>, gaps: seq<seq<byte>>, more: bool) returns (a: nat, k: nat, e: nat)
    requires |gaps| == |qs| && qs != []
    requires var S := Spaced(qs, gaps, more);
      n + |S| < |B| && B[n..n + |S|] == S && (B[n + |S|] == Comma || B[n + |S|] == CloseBrace)
    ensures if more then a == n + 1 && n < |B| && B[n] == Comma else a == n
    ensures k == a + |gaps[0]| && e == k + |Entry(qs[0])| && e < |B|
    ensures B[a..k] == gaps[0] && B[k..e] == Entry(qs[0]) && (B[e] == Comma || B[e] == CloseBrace)
    ensures var R := Spaced(qs[1..], gaps[1..], true);
      e + |R| == n + |Spaced(qs, gaps, more)| && B[e..e + |R|] == R
  {
    var sep: seq<byte> := if more then [Comma] else [];
    var g, E, R := gaps[0], Entry(qs[0]), Spaced(qs[1..], gaps[1..], true);
    SpacedCons(qs, gaps, more);
    GapSplit(B, n, sep, g, E, R);
    a := n + |sep|;
    k := a + |g|;
    e := k + |E|;
    if more {
      assert B[n] == B[n..a][0];
    }
    if R != [] {
      assert B[e] == B[e..e + |R|][0];
    }
  }

  /**
   * Spaced(qs, gaps, ...) found in B at n, qs not empty: one turn of parse's
   * loop reads qs[0] and goes on at e, where the spaced rest begins.
   */
  lemma SpacedTurnAt(unquote: Unquoter, maxDepth: int, B: seq<byte>, n: nat, acc: seq<Pair>,
                     qs: seq<Pair>, gaps: seq<seq<byte>>) returns (e: nat)
    requires |gaps| == |qs| && qs != [] && AllScan(unquote, maxDepth, qs) && AllBlank(gaps)
    requires var S := Spaced(qs, gaps, |acc| > 0);
      n + |S| < |B| && B[n..n + |S|] == S && (B[n + |S|] == Comma || B[n + |S|] == CloseBrace)
    ensures var R := Spaced(qs[1..], gaps[1..], true);
      e + |R| == n + |Spaced(qs, gaps, |acc| > 0)| && B[e..e + |R|] == R
    ensures PairsLoop(unquote, maxDepth, B, n, acc) == PairsLoop(unquote, maxDepth, B, e, acc + [qs[0]])
  {
    var a, k;
    a, k, e := SpacedLayout(B, n, qs, gaps, |acc| > 0);
    AllScanTail(unquote, maxDepth, qs);
    assert gaps[0] in gaps;
    SpacedTurn(unquote, maxDepth, B, n, acc, qs[0], gaps[0], a, k, e);
  }

  lemma AllBlankTail(gaps: seq<seq<byte>>)
    requires gaps != [] && AllBlank(gaps)
    ensures AllBlank(gaps[1..])
  {
    forall h | h in gaps[1..]
      ensures Blank(h)
    {
      assert h in gaps;
    }
  }

  /**
   * Spaced(qs, gaps, ...) found in B at n, before a comma or the closing
   * brace: parse's loop reads the members of qs, whatever whitespace the gaps
   * hold, and goes on after them.
   */
  lemma {:induction false} SpacedRead(unquote: Unquoter, maxDepth: int, B: seq<byte>, n: nat, acc: seq<Pair>,
                                      qs: seq<Pair>, gaps: seq<seq<byte>>)
    requires |gaps| == |qs| && AllScan(unquote, maxDepth, qs) && AllBlank(gaps)
    requires var S := Spaced(qs, gaps, |acc| > 0);
      n + |S| < |B| && B[n..n + |S|] == S && (B[n + |S|] == Comma || B[n + |S|] == CloseBrace)
    ensures PairsLoop(unquote, maxDepth, B, n, acc) ==
      PairsLoop(unquote, maxDepth, B, n + |Spaced(qs, gaps, |acc| > 0)|, acc + qs)
    decreases |qs|
  {
    if qs == [] {
      assert acc + qs == acc;
    } else {
      var e := SpacedTurnAt(unquote, maxDepth, B, n, acc, qs, gaps);
      AllScanTail(unquote, maxDepth, qs);
      AllBlankTail(gaps);
      SpacedRead(unquote, maxDepth, B, e, acc + [qs[0]], qs[1..], gaps[1..]);
      AppendHead(acc, qs);
    }
  }

  /**
   * Whitespace after `{` and after the commas does not change what parse reads: the spaced
   * text of pairs that each parse on their own parses to exactly those pairs,
   * and n is the whole text.
   */
  lemma SpacedTextParses(unquote: Unquoter, maxDepth: int, ps: seq<Pair>, gaps: seq<seq<byte>>)
    requires |gaps| == |ps| && AllScan(unquote, maxDepth, ps) && AllBlank(gaps)
    ensures TopLevel(unquote, maxDepth, SpacedText(ps, gaps)) == Parsed(ps, |SpacedText(ps, gaps)|, None)
  {
    var T := SpacedText(ps, gaps);
    var S := Spaced(ps, gaps, false);
    assert T[1..1 + |S|] == S;
    assert T[1 + |S|] == CloseBrace;
    assert WhitespaceEnd(T, 0) == 0;
    SpacedRead(unquote, maxDepth, T, 1, [], ps, gaps);
    RestAtEnd(unquote, maxDepth, T, 1 + |S|, ps);
    assert [] + ps == ps;
  }

  /**
   * reorder drops the whitespace after `{` and after the commas: for the
   * spaced text it writes the arranged pairs with no whitespace, the same
   * object as for the canonical text, and consumes all of it.
   */
  lemma ReorderDropsSpacing(ps: seq<Pair>, gaps: seq<seq<byte>>, firstKeys: seq<seq<byte>>)
    requires |firstKeys| > 0 && |gaps| == |ps| && AllScan(KeyDecoder, ParserMaxDepth, ps) && AllBlank(gaps)
    ensures ReorderSpec([], SpacedText(ps, gaps), firstKeys) ==
      Reordered(ObjectText(Arrange(ps, firstKeys)), |SpacedText(ps, gaps)|, None)
    ensures ReorderSpec([], SpacedText(ps, gaps), firstKeys).out == ReorderSpec([], ObjectText(ps), firstKeys).out
  {
    SpacedTextParses(KeyDecoder, ParserMaxDepth, ps, gaps);
    ObjectTextParses(KeyDecoder, ParserMaxDepth, ps);
    assert [] + ObjectText(Arrange(ps, firstKeys)) == ObjectText(Arrange(ps, firstKeys));
  }

  /**
   * The round trip: the pairs of a successful parse, written back as `{`
   * key `:` value `,` ... `}`, parse to the same pairs, and n is the whole text.
   */
  lemma ParseRoundTrip(unquote: Unquoter, maxDepth: int, buf: seq<byte>)
    requires TopLevel(unquote, maxDepth, buf).err.None?
    ensures var ps := TopLevel(unquote, maxDepth, buf).pairs;
      TopLevel(unquote, maxDepth, ObjectText(ps)) == Parsed(ps, |ObjectText(ps)|, None)
  {
    ParsedPairsScan(unquote, maxDepth, buf);
    ObjectTextParses(unquote, maxDepth, TopLevel(unquote, maxDepth, buf).pairs);
  }

  /** Arrange only picks pairs of ps. */
  lemma ArrangeDrawsFrom(ps: seq<Pair>, keys: seq<seq<byte>>, p: Pair)
    requires p in Arrange(ps, keys)
    ensures p in ps
  {
    var r := Arrange(ps, keys);
    var o := Order(ps, keys);
    OrderIsPermutation(ps, keys);
    var t :| 0 <= t < |r| && r[t] == p;
    assert o[t] < |ps| && p == ps[o[t]];
  }

  /**
   * reorder's output is itself an object that parse accepts: it parses to the
   * pairs in their new order, and n is the whole output.
   */
  lemma ReorderedParses(src: seq<byte>, firstKeys: seq<seq<byte>>)
    requires |firstKeys| > 0 && TopLevel(KeyDecoder, ParserMaxDepth, src).err.None?
    ensures var ps := Arrange(TopLevel(KeyDecoder, ParserMaxDepth, src).pairs, firstKeys);
      var out := ReorderSpec([], src, firstKeys).out;
      TopLevel(KeyDecoder, ParserMaxDepth, out) == Parsed(ps, |out|, None)
  {
    var pairs := TopLevel(KeyDecoder, ParserMaxDepth, src).pairs;
    var ps := Arrange(pairs, firstKeys);
    ParsedPairsScan(KeyDecoder, ParserMaxDepth, src);
    forall p | p in ps
      ensures Scans(KeyDecoder, ParserMaxDepth, p)
    {
      ArrangeDrawsFrom(pairs, firstKeys, p);
    }
    ObjectTextParses(KeyDecoder, ParserMaxDepth, ps);
    assert ReorderSpec([], src, firstKeys).out == ObjectText(ps);
  }

  /**
   * reorder is idempotent: reordering its output again, with the same keys,
   * gives that output back, and the whole of it is consumed.
   */
  lemma ReorderIsIdempotent(src: seq<byte>, firstKeys: seq<seq<byte>>)
    requires ReorderSpec([], src, firstKeys).err.None?
    ensures var out := ReorderSpec([], src, firstKeys).out;
      ReorderSpec([], out, firstKeys) == Reordered(out, |out|, None)
  {
    if |firstKeys| > 0 {
      ReorderedParses(src, firstKeys);
      ArrangeIsIdempotent(TopLevel(KeyDecoder, ParserMaxDepth, src).pairs, firstKeys);
    } else {
      assert [] + src == src;
    }
  }
}
