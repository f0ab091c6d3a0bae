/**
 * Worked cases of reorder on small inputs. Most come from the package's table
 * of reorder cases in reorder_test.go: empty input, an array, the empty
 * object, the string values case and four invalid numbers, each with the
 * output or the error offset it expects. FirstKeyMovesToFront is a smaller
 * object of its own.
 */
module Cases {
  import opened Wrappers
  import opened Bytes
  import opened Errors
  import opened Scanner
  import opened Values
  import opened Keys
  import opened Pairs
  import opened Reorder
  import opened RoundTrip

  const LowerA: byte := 0x61   // a
  const LowerB: byte := 0x62   // b
  const One: byte := 0x31      // 1
  const Two: byte := 0x32      // 2
  const LowerC: byte := 0x63   // c
  const LowerD: byte := 0x64   // d
  const LowerO: byte := 0x6F   // o
  const LowerQ: byte := 0x71   // q
  const LowerX: byte := 0x78   // x
  const LessThan: byte := 0x3C // <

  /** Empty input: UnexpectedEOF at offset 0, nothing written. */
  lemma EmptyInputIsEof()
    ensures ReorderSpec([], [], [[LowerA]]) == Reordered([], 0, Fail(0, 0, UnexpectedEOF).err)
  {
    TopLevelOfBlank(KeyDecoder, ParserMaxDepth, []);
  }

  /** `    []`: not an object, the error is at offset 4. */
  lemma ArrayIsNotAnObject()
    ensures var r := ReorderSpec([], [Space, Space, Space, Space, OpenBracket, CloseBracket], [[LowerA]]);
      r.out == [] && r.err.Some? && IsErrorAt(r.err.value) && Pos(r.err.value) == 4
  {
    var src := [Space, Space, Space, Space, OpenBracket, CloseBracket];
    assert WhitespaceEnd(src, 4) == 4;
    assert WhitespaceEnd(src, 0) == WhitespaceEnd(src, 1) == WhitespaceEnd(src, 2) == WhitespaceEnd(src, 3) == 4;
    TopLevelNeedsObject(KeyDecoder, ParserMaxDepth, src, 4);
  }

  /** `{}` stays `{}`, all of it consumed. */
  lemma EmptyObjectStays()
    ensures ReorderSpec([], [OpenBrace, CloseBrace], [[LowerA]]) == Reordered([OpenBrace, CloseBrace], 2, None)
  {
    var src := [OpenBrace, CloseBrace];
    assert ObjectNext(src, 1, false) == Step(2, Some(EndObject));
    PairsLoopAtEnd(KeyDecoder, ParserMaxDepth, src, 1, [], 2);
  }

  /** The pair `"b":1`. */
  function PairB(): Pair
  {
    Pair([LowerB], [QuoteMark, LowerB, QuoteMark], [One])
  }

  /** The pair `"a":2`. */
  function PairA(): Pair
  {
    Pair([LowerA], [QuoteMark, LowerA, QuoteMark], [Two])
  }

  /** A one-letter key and a one-digit value scan on their own. */
  lemma LetterAndDigitScan(p: Pair, c: byte, d: byte)
    requires p == Pair([c], [QuoteMark, c, QuoteMark], [d])
    requires IsDigit(d) && IsPlain(c)
    ensures Scans(KeyDecoder, ParserMaxDepth, p)
  {
    assert StringFrom(p.keyBytes, 2, false) == Step(3, None);
    assert StringFrom(p.keyBytes, 1, false) == Step(3, None);
    PlainUnescapesToItself(p.keyBytes, 1, 2);
    assert p.keyBytes[1..2] == [c];
    assert KeyDecoder(p.keyBytes) == Unquote(p.keyBytes) == Some([c]);
    var vc := p.valueBytes + [Comma];
    assert DigitsEnd(vc, 1) == 1 && DigitsEnd(vc, 0) == 1;
    assert NumberScan(vc, 0) == Step(1, None);
  }

  /** Both pairs scan on their own. */
  lemma BothScan()
    ensures AllScan(KeyDecoder, ParserMaxDepth, [PairB(), PairA()])
  {
    LetterAndDigitScan(PairB(), LowerB, One);
    LetterAndDigitScan(PairA(), LowerA, Two);
  }

  /** Only the second pair has the key `a`. */
  lemma OnlySecondHasA()
    ensures IndicesOf([PairB(), PairA()], [LowerA]) == [1]
  {
    var ps := [PairB(), PairA()];
    assert ps[..1] == [PairB()] && ps[..1][..0] == [];
    assert IndicesOf([], [LowerA]) == [];
    assert IndicesOf([PairB()], [LowerA]) == [];
  }

  /** With first key `a`, the pair keyed `a` is written first, then the other. */
  lemma FirstKeyOrder()
    ensures Arrange([PairB(), PairA()], [[LowerA]]) == [PairA(), PairB()]
  {
    var ps := [PairB(), PairA()];
    OnlySecondHasA();
    assert Unskipped([1], {}) == [1];
    assert Front(ps, [[LowerA]]) == [1];
    assert Elements([1]) == {1};
    assert Leftover(2, {1}) == [0];
    assert Order(ps, [[LowerA]]) == [1, 0];
  }

  /** `{"b":1,"a":2}` with first key `a` becomes `{"a":2,"b":1}`, all of it consumed. */
  lemma FirstKeyMovesToFront()
    ensures var src := ObjectText([PairB(), PairA()]);
      ReorderSpec([], src, [[LowerA]]) == Reordered(ObjectText([PairA(), PairB()]), |src|, None)
  {
    BothScan();
    ObjectTextParses(KeyDecoder, ParserMaxDepth, [PairB(), PairA()]);
    FirstKeyOrder();
  }

  // ------------------------------------------------------ the string values case

  /** s between quotes. */
  function Quoted(s: seq<byte>): seq<byte>
  {
    [QuoteMark] + s + [QuoteMark]
  }

  /** The pair `"k":"v"`. */
  function StringPair(k: seq<byte>, v: seq<byte>): Pair
  {
    Pair(k, Quoted(k), Quoted(v))
  }

  predicate AllPlain(s: seq<byte>)
  {
    forall i :: 0 <= i < |s| ==> IsPlain(s[i])
  }

  /** parseString's loop runs over plain bytes to the closing quote at e. */
  lemma {:induction false} PlainStringFrom(buf: seq<byte>, i: nat, e: nat)
    requires i <= e < |buf| && buf[e] == QuoteMark
    requires forall k :: i <= k < e ==> IsPlain(buf[k])
    ensures StringFrom(buf, i, false) == Step(e + 1, None)
    decreases e - i
  {
    if i < e {
      PlainStringFrom(buf, i + 1, e);
      assert IsPlain(buf[i]);
    }
  }

  /** A pair whose key and value are quoted plain bytes scans on its own. */
  lemma StringPairScans(k: seq<byte>, v: seq<byte>)
    requires AllPlain(k) && AllPlain(v)
    ensures Scans(KeyDecoder, ParserMaxDepth, StringPair(k, v))
  {
    var kb := Quoted(k);
    assert forall j :: 1 <= j < |k| + 1 ==> kb[j] == k[j - 1];
    PlainStringFrom(kb, 1, |k| + 1);
    PlainUnescapesToItself(kb, 1, |k| + 1);
    assert kb[1..|k| + 1] == k;
    assert KeyDecoder(kb) == Unquote(kb) == Some(k);
    var vc := Quoted(v) + [Comma];
    assert forall j :: 1 <= j < |v| + 1 ==> vc[j] == v[j - 1];
    PlainStringFrom(vc, 1, |v| + 1);
  }

  function Aaa(): seq<byte> { [LowerA, LowerA, LowerA] }
  function Bbb(): seq<byte> { [LowerB, LowerB, LowerB] }
  function Ccc(): seq<byte> { [LowerC, LowerC, LowerC] }
  function Ddd(): seq<byte> { [LowerD, LowerD, LowerD] }

  function Foo(): Pair { StringPair(Aaa(), [LowerF, LowerO, LowerO]) }
  function Bar(): Pair { StringPair(Bbb(), [LowerB, LowerA, LowerR]) }
  function Qux(): Pair { StringPair(Ccc(), [LowerQ, LowerU, LowerX]) }

  /** `"aaa":"foo"`, `"bbb":"bar"`, `"ccc":"qux"`, `"":""` and `"<":""`. */
  function StringValues(): seq<Pair>
  {
    [Foo(), Bar(), Qux(), StringPair([], []), StringPair([LessThan], [])]
  }

  /** The whitespace after each comma of the case's input. */
  function StringValuesGaps(): seq<seq<byte>>
  {
    [[], [Space], [Space], [Space], [Space, Space]]
  }

  /** The case's first keys: `ddd`, `bbb`, the empty key, `bbb` again. */
  function StringValuesKeys(): seq<seq<byte>>
  {
    [Ddd(), Bbb(), [], Bbb()]
  }

  /** Five pairs that each scan on their own. */
  lemma FiveScan(a: Pair, b: Pair, c: Pair, d: Pair, e: Pair)
    requires Scans(KeyDecoder, ParserMaxDepth, a) && Scans(KeyDecoder, ParserMaxDepth, b)
    requires Scans(KeyDecoder, ParserMaxDepth, c) && Scans(KeyDecoder, ParserMaxDepth, d)
    requires Scans(KeyDecoder, ParserMaxDepth, e)
    ensures AllScan(KeyDecoder, ParserMaxDepth, [a, b, c, d, e])
  {
  }

  lemma StringValuesScan()
    ensures AllScan(KeyDecoder, ParserMaxDepth, StringValues())
  {
    StringPairScans(Aaa(), [LowerF, LowerO, LowerO]);
    StringPairScans(Bbb(), [LowerB, LowerA, LowerR]);
    StringPairScans(Ccc(), [LowerQ, LowerU, LowerX]);
    StringPairScans([], []);
    StringPairScans([LessThan], []);
    FiveScan(Foo(), Bar(), Qux(), StringPair([], []), StringPair([LessThan], []));
  }

  lemma StringValuesBlank()
    ensures AllBlank(StringValuesGaps())
  {
  }

  /** A key no pair has gives no index. */
  lemma {:induction false} NoIndex(ps: seq<Pair>, key: seq<byte>)
    requires forall i :: 0 <= i < |ps| ==> ps[i].keyUnquoted != key
    ensures IndicesOf(ps, key) == []
    decreases |ps|
  {
    if ps != [] {
      NoIndex(ps[..|ps| - 1], key);
    }
  }

  /** A key that exactly one pair has gives that pair's index alone. */
  lemma {:induction false} SingleIndex(ps: seq<Pair>, key: seq<byte>, j: nat)
    requires j < |ps| && ps[j].keyUnquoted == key
    requires forall i :: 0 <= i < |ps| && i != j ==> ps[i].keyUnquoted != key
    ensures IndicesOf(ps, key) == [j]
    decreases |ps|
  {
    var last := |ps| - 1;
    if last == j {
      NoIndex(ps[..last], key);
    } else {
      SingleIndex(ps[..last], key, j);
    }
  }

  /** The keys of the string values case, in the order of its input. */
  predicate StringValuesKeyed(ps: seq<Pair>)
  {
    |ps| == 5 && ps[0].keyUnquoted == Aaa() && ps[1].keyUnquoted == Bbb() &&
    ps[2].keyUnquoted == Ccc() && ps[3].keyUnquoted == [] && ps[4].keyUnquoted == [LessThan]
  }

  /** `ddd` names no pair. */
  lemma FrontAfterDdd(ps: seq<Pair>)
    requires StringValuesKeyed(ps)
    ensures Front(ps, [Ddd()]) == []
  {
    assert Aaa()[0] != Ddd()[0] && Bbb()[0] != Ddd()[0] && Ccc()[0] != Ddd()[0];
    assert [LessThan][0] != Ddd()[0];
    AbsentKeyIsIgnored(ps, [], Ddd());
    assert [] + [Ddd()] == [Ddd()];
  }

  /** `bbb` moves the one pair keyed `bbb`. */
  lemma FrontAfterBbb(ps: seq<Pair>)
    requires StringValuesKeyed(ps)
    ensures Front(ps, [Ddd(), Bbb()]) == [1]
  {
    FrontAfterDdd(ps);
    assert Aaa()[0] != Bbb()[0] && Ccc()[0] != Bbb()[0] && [LessThan][0] != Bbb()[0];
    SingleIndex(ps, Bbb(), 1);
    assert Bbb() != Ddd() by {
      assert Bbb()[0] != Ddd()[0];
    }
    NewKeyMovesAllItsPairs(ps, [Ddd()], Bbb());
    assert [Ddd()] + [Bbb()] == [Ddd(), Bbb()];
  }

  /** The empty key moves the one pair keyed "". */
  lemma FrontAfterEmpty(ps: seq<Pair>)
    requires StringValuesKeyed(ps)
    ensures Front(ps, [Ddd(), Bbb(), []]) == [1, 3]
  {
    var none: seq<byte> := [];
    FrontAfterBbb(ps);
    assert |Aaa()| != 0 && |Bbb()| != 0 && |Ccc()| != 0 && |[LessThan]| != 0;
    SingleIndex(ps, none, 3);
    assert none !in [Ddd(), Bbb()];
    NewKeyMovesAllItsPairs(ps, [Ddd(), Bbb()], none);
    assert [Ddd(), Bbb()] + [none] == [Ddd(), Bbb(), none];
  }

  /** The second `bbb` adds nothing. */
  lemma StringValuesFront(ps: seq<Pair>)
    requires StringValuesKeyed(ps)
    ensures Front(ps, StringValuesKeys()) == [1, 3]
  {
    var none: seq<byte> := [];
    FrontAfterEmpty(ps);
    assert Bbb() in [Ddd(), Bbb(), none];
    RepeatedKeyAddsNothing(ps, [Ddd(), Bbb(), none], Bbb());
    assert [Ddd(), Bbb(), none] + [Bbb()] == StringValuesKeys();
  }

  /** Pairs 1 and 3 moved to the front; the others follow as they came. */
  lemma FrontOneThree(ps: seq<Pair>, keys: seq<seq<byte>>)
    requires |ps| == 5 && Front(ps, keys) == [1, 3]
    ensures Arrange(ps, keys) == [ps[1], ps[3], ps[0], ps[2], ps[4]]
  {
    assert Elements([1, 3]) == {1, 3};
    assert Leftover(5, {1, 3}) == [0, 2, 4];
    assert Order(ps, keys) == [1, 3, 0, 2, 4];
  }

  /** The order is bbb, "", then the others as they came: aaa, ccc, "<". */
  lemma StringValuesOrder()
    ensures var ps := StringValues();
      Arrange(ps, StringValuesKeys()) == [ps[1], ps[3], ps[0], ps[2], ps[4]]
  {
    StringValuesFront(StringValues());
    FrontOneThree(StringValues(), StringValuesKeys());
  }

  /**
   * The string values case: `{"aaa":"foo", "bbb":"bar", "ccc":"qux", "":"",  "<":""}`
   * with first keys `ddd`, `bbb`, "", `bbb` becomes
   * `{"bbb":"bar","":"","aaa":"foo","ccc":"qux","<":""}`, all 55 bytes consumed.
   */
  lemma StringValuesCase()
    ensures var src := SpacedText(StringValues(), StringValuesGaps());
      var ps := StringValues();
      |src| == 55 &&
      ReorderSpec([], src, StringValuesKeys()) == Reordered(ObjectText([ps[1], ps[3], ps[0], ps[2], ps[4]]), 55, None)
  {
    StringValuesScan();
    StringValuesBlank();
    ReorderDropsSpacing(StringValues(), StringValuesGaps(), StringValuesKeys());
    StringValuesOrder();
  }

  // ---------------------------------------------------- the invalid number cases

  /** `{"aaa":"foo", "bbb":"bar"`: the 25 bytes before the third member. */
  function Head(): seq<byte>
  {
    [OpenBrace] + Spaced([Foo(), Bar()], [[], [Space]], false)
  }

  /** `, "ccc":`, then the third value and what follows it. */
  function ThirdMember(rest: seq<byte>): seq<byte>
  {
    [Comma, Space, QuoteMark, LowerC, LowerC, LowerC, QuoteMark, Colon] + rest
  }

  lemma HeadLength()
    ensures |Head()| == 25
  {
    SpacedCons([Foo(), Bar()], [[], [Space]], false);
    SpacedCons([Bar()], [[Space]], true);
  }

  lemma HeadScans()
    ensures AllScan(KeyDecoder, ParserMaxDepth, [Foo(), Bar()]) && AllBlank([[], [Space]])
  {
    StringPairScans(Aaa(), [LowerF, LowerO, LowerO]);
    StringPairScans(Bbb(), [LowerB, LowerA, LowerR]);
  }

  /** A buffer that starts with those 25 bytes and a comma: parse reads the two members. */
  lemma HeadRead(src: seq<byte>)
    requires |src| > 25 && src[..25] == Head() && src[25] == Comma
    ensures TopLevel(KeyDecoder, ParserMaxDepth, src) == PairsLoop(KeyDecoder, ParserMaxDepth, src, 25, [Foo(), Bar()])
  {
    HeadLength();
    HeadScans();
    assert src[1..25] == Head()[1..] == Spaced([Foo(), Bar()], [[], [Space]], false);
    assert src[0] == Head()[0] == OpenBrace;
    assert WhitespaceEnd(src, 0) == 0;
    SpacedRead(KeyDecoder, ParserMaxDepth, src, 1, [], [Foo(), Bar()], [[], [Space]]);
    assert [] + [Foo(), Bar()] == [Foo(), Bar()];
  }

  /** The bytes found in src at a, one by one. */
  lemma {:induction false} BytesAt(src: seq<byte>, a: nat, w: seq<byte>)
    requires a + |w| <= |src| && src[a..a + |w|] == w
    ensures forall t :: 0 <= t < |w| ==> src[a + t] == w[t]
  {
    forall t | 0 <= t < |w|
      ensures src[a + t] == w[t]
    {
      assert src[a..a + |w|][t] == src[a + t];
    }
  }

  /** `, "ccc":` at offset 25: the loop passes the comma and the space and finds the key at 27. */
  lemma ThirdKeyFound(src: seq<byte>)
    requires |src| > 33 && src[25..33] == ThirdMember([])
    ensures ObjectNext(src, 25, true) == Step(27, None)
    ensures StringScan(src, 27) == Step(32, None) && src[27..32] == Quoted(Ccc())
    ensures ColonToken(src, WhitespaceEnd(src, 32)) == Step(33, None)
  {
    var T := ThirdMember([]);
    BytesAt(src, 25, T);
    assert src[25] == T[0] && src[26] == T[1] && src[27] == T[2] && src[28] == T[3];
    assert src[29] == T[4] && src[30] == T[5] && src[31] == T[6] && src[32] == T[7];
    assert WhitespaceEnd(src, 27) == 27;
    assert WhitespaceEnd(src, 26) == 27;
    PlainStringFrom(src, 28, 31);
    assert src[27..32] == Quoted(Ccc());
    assert WhitespaceEnd(src, 32) == 32;
  }

  /** The member at 27 is the key `ccc` and the number at offset 33, or that number's error. */
  lemma ThirdMemberScan(src: seq<byte>)
    requires |src| > 33 && src[25..33] == ThirdMember([]) && IsDigit(src[33])
    ensures var s := NumberScan(src, 33);
      MemberScan(KeyDecoder, ParserMaxDepth, src, 27) ==
        if s.err.Some? then Parsed([], s.end, s.err)
        else Parsed([Pair(Ccc(), Quoted(Ccc()), src[33..s.end])], s.end, None)
  {
    ThirdKeyFound(src);
    StringPairScans(Ccc(), [LowerQ, LowerU, LowerX]);
    assert KeyDecoder(Quoted(Ccc())) == Some(Ccc());
    assert WhitespaceEnd(src, 33) == 33;
    assert ValueScan(ParserMaxDepth, 0, src, 33) == NumberScan(src, 33);
  }

  /**
   * `, "ccc":` at offset 25 followed by a digit, after the pairs acc: the
   * loop reads the key `ccc` and its colon, and the third value is the number
   * at offset 33. When that number fails, so does parse, with the pairs it has;
   * otherwise the loop goes on after it with the third pair.
   */
  lemma ThirdKeyRead(src: seq<byte>, acc: seq<Pair>)
    requires |acc| > 0 && |src| > 33 && src[25..33] == ThirdMember([]) && IsDigit(src[33])
    ensures var s := NumberScan(src, 33);
      PairsLoop(KeyDecoder, ParserMaxDepth, src, 25, acc) ==
        if s.err.Some? then Parsed(acc, s.end, s.err)
        else PairsLoop(KeyDecoder, ParserMaxDepth, src, s.end, acc + [Pair(Ccc(), Quoted(Ccc()), src[33..s.end])])
  {
    ThirdKeyFound(src);
    ThirdMemberScan(src);
  }

  /**
   * What parse makes of src once it has read the pairs acc and the key
   * `ccc`: the number at offset 33 decides.
   */
  predicate ThirdValueDecides(src: seq<byte>, acc: seq<Pair>)
  {
    |src| > 33 &&
    TopLevel(KeyDecoder, ParserMaxDepth, src) ==
      var s := NumberScan(src, 33);
      if s.err.Some? then Parsed(acc, s.end, s.err)
      else PairsLoop(KeyDecoder, ParserMaxDepth, src, s.end, acc + [Pair(Ccc(), Quoted(Ccc()), src[33..s.end])])
  }

  /** Head() + ThirdMember(rest), rest starting with a digit: the number at offset 33 decides. */
  lemma CaseLayout(src: seq<byte>, rest: seq<byte>) returns (acc: seq<Pair>)
    requires rest != [] && IsDigit(rest[0]) && src == Head() + ThirdMember(rest)
    ensures |src| == 33 + |rest| && src[33..] == rest && |acc| > 0 && ThirdValueDecides(src, acc)
  {
    var T := ThirdMember(rest);
    HeadLength();
    assert src[..25] == Head() && src[25..] == T;
    assert src[25..33] == T[..8] == ThirdMember([]);
    assert src[33..] == T[8..] == rest;
    assert src[25] == T[0] && src[33] == rest[0];
    HeadRead(src);
    acc := [Foo(), Bar()];
    ThirdKeyRead(src, acc);
  }

  /** The number at offset 33 fails: reorder writes nothing and reports that error. */
  lemma NumberFailsThere(src: seq<byte>, acc: seq<Pair>, firstKeys: seq<seq<byte>>, p: nat, k: Kind)
    requires |firstKeys| > 0 && ThirdValueDecides(src, acc) && NumberScan(src, 33) == Fail(p, p, k)
    ensures ReorderSpec([], src, firstKeys) == Reordered([], p, Fail(p, p, k).err)
  {
  }

  /** The number at offset 33 ends at p, where a byte b stands that is not a comma: the error is at p. */
  lemma CommaMissing(src: seq<byte>, acc: seq<Pair>, firstKeys: seq<seq<byte>>, p: nat, b: byte)
    requires |acc| > 0 && |firstKeys| > 0 && ThirdValueDecides(src, acc) && NumberScan(src, 33) == Step(p, None)
    requires p < |src| && src[p] == b && b != Comma && b != CloseBrace && !IsWhitespace(b)
    ensures ReorderSpec([], src, firstKeys) == Reordered([], p + 1, Fail(p + 1, p, Unexpected(b)).err)
  {
    var acc' := acc + [Pair(Ccc(), Quoted(Ccc()), src[33..p])];
    assert WhitespaceEnd(src, p) == p;
    assert PairsLoop(KeyDecoder, ParserMaxDepth, src, p, acc') == Parsed(acc', p + 1, Fail(p + 1, p, Unexpected(b)).err);
  }

  /** The bytes of src from a on, one by one. */
  lemma BytesFrom(src: seq<byte>, a: nat, w: seq<byte>)
    requires a + |w| == |src| && src[a..] == w
    ensures forall t :: 0 <= t < |w| ==> src[a + t] == w[t]
  {
    BytesAt(src, a, w);
  }

  /** `11.e` at offset 33: parseNumberFrac finds no digit after the dot. */
  lemma DotLetterNumber(src: seq<byte>, rest: seq<byte>)
    requires |src| == 33 + |rest| && src[33..] == rest
    requires |rest| >= 4 && rest[0] == One && rest[1] == One && rest[2] == Dot && rest[3] == LowerE
    ensures NumberScan(src, 33) == Fail(36, 36, Unexpected(LowerE))
  {
    BytesFrom(src, 33, rest);
    assert src[33] == rest[0] && src[34] == rest[1] && src[35] == rest[2] && src[36] == rest[3];
    assert DigitsEnd(src, 35) == 35;
    assert DigitsEnd(src, 33) == 35;
  }

  /**
   * `{"aaa":"foo", "bbb":"bar", "ccc":11.e}`, and any third value that starts
   * with `11.e`: no digit after the dot, the error is at offset 36.
   */
  lemma InvalidNumberDotLetter(src: seq<byte>, rest: seq<byte>)
    requires src == Head() + ThirdMember(rest)
    requires |rest| >= 4 && rest[0] == One && rest[1] == One && rest[2] == Dot && rest[3] == LowerE
    ensures ReorderSpec([], src, [Bbb()]) == Reordered([], 36, Fail(36, 36, Unexpected(LowerE)).err)
  {
    var acc := CaseLayout(src, rest);
    DotLetterNumber(src, rest);
    NumberFailsThere(src, acc, [Bbb()], 36, Unexpected(LowerE));
  }

  /** `11.11.11` at offset 33: the number is `11.11`; the second dot at 38 follows it. */
  lemma SecondDotNumber(src: seq<byte>, rest: seq<byte>)
    requires |src| == 33 + |rest| && src[33..] == rest
    requires |rest| >= 6 && rest[0] == One && rest[1] == One && rest[2] == Dot
    requires rest[3] == One && rest[4] == One && rest[5] == Dot
    ensures NumberScan(src, 33) == Step(38, None) && src[38] == Dot
  {
    BytesFrom(src, 33, rest);
    assert src[33] == rest[0] && src[34] == rest[1] && src[35] == rest[2];
    assert src[36] == rest[3] && src[37] == rest[4] && src[38] == rest[5];
    assert DigitsEnd(src, 35) == 35 && DigitsEnd(src, 38) == 38;
    assert DigitsEnd(src, 33) == 35 && DigitsEnd(src, 36) == 38;
  }

  /**
   * `{"aaa":"foo", "bbb":"bar", "ccc":11.11.11}`, and any third value that starts
   * with `11.11.`: the number ends at the second dot, offset 38, where a
   * comma was due.
   */
  lemma InvalidNumberSecondDot(src: seq<byte>, rest: seq<byte>)
    requires src == Head() + ThirdMember(rest)
    requires |rest| >= 6 && rest[0] == One && rest[1] == One && rest[2] == Dot
    requires rest[3] == One && rest[4] == One && rest[5] == Dot
    ensures ReorderSpec([], src, [Bbb()]) == Reordered([], 39, Fail(39, 38, Unexpected(Dot)).err)
  {
    var acc := CaseLayout(src, rest);
    SecondDotNumber(src, rest);
    CommaMissing(src, acc, [Bbb()], 38, Dot);
  }

  /** `1x1` at offset 33: the number is `1`; the `x` at 34 follows it. */
  lemma LetterNumber(src: seq<byte>, rest: seq<byte>)
    requires |src| == 33 + |rest| && src[33..] == rest
    requires |rest| >= 2 && rest[0] == One && rest[1] == LowerX
    ensures NumberScan(src, 33) == Step(34, None) && src[34] == LowerX
  {
    BytesFrom(src, 33, rest);
    assert src[33] == rest[0] && src[34] == rest[1];
    assert DigitsEnd(src, 34) == 34;
    assert DigitsEnd(src, 33) == 34;
  }

  /**
   * `{"aaa":"foo", "bbb":"bar", "ccc":1x1}`, and any third value that starts
   * with `1x`: the number is `1`, and the `x` at offset 34 is not a comma.
   */
  lemma InvalidNumberLetter(src: seq<byte>, rest: seq<byte>)
    requires src == Head() + ThirdMember(rest)
    requires |rest| >= 2 && rest[0] == One && rest[1] == LowerX
    ensures ReorderSpec([], src, [Bbb()]) == Reordered([], 35, Fail(35, 34, Unexpected(LowerX)).err)
  {
    var acc := CaseLayout(src, rest);
    LetterNumber(src, rest);
    CommaMissing(src, acc, [Bbb()], 34, LowerX);
  }

  /** `1e.1` at offset 33: parseNumberExp finds no digit after the `e`. */
  lemma ExponentDotNumber(src: seq<byte>, rest: seq<byte>)
    requires |src| == 33 + |rest| && src[33..] == rest
    requires |rest| >= 3 && rest[0] == One && rest[1] == LowerE && rest[2] == Dot
    ensures NumberScan(src, 33) == Fail(35, 35, Unexpected(Dot))
  {
    BytesFrom(src, 33, rest);
    assert src[33] == rest[0] && src[34] == rest[1] && src[35] == rest[2];
    assert DigitsEnd(src, 34) == 34 && DigitsEnd(src, 35) == 35;
    assert DigitsEnd(src, 33) == 34;
  }

  /**
   * `{"aaa":"foo", "bbb":"bar", "ccc":1e.1}`, and any third value that starts
   * with `1e.`: no digit after the `e`, the error is at offset 35.
   */
  lemma InvalidNumberExponentDot(src: seq<byte>, rest: seq<byte>)
    requires src == Head() + ThirdMember(rest)
    requires |rest| >= 3 && rest[0] == One && rest[1] == LowerE && rest[2] == Dot
    ensures ReorderSpec([], src, [Bbb()]) == Reordered([], 35, Fail(35, 35, Unexpected(Dot)).err)
  {
    var acc := CaseLayout(src, rest);
    ExponentDotNumber(src, rest);
    NumberFailsThere(src, acc, [Bbb()], 35, Unexpected(Dot));
  }
}
