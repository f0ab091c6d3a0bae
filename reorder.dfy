/**
 * reorder.go: the parsed top-level pairs of an object re-serialised as
 * `{k:v,...}` with the pairs whose keys are named in firstKeys moved to the
 * front, appended to dest.
 *
 * The emission order is given index by index: Front is what the loop over
 * firstKeys emits, Leftover what the loop over the remaining pairs emits, and
 * Order the two together. Reorder is the method with the source's loops, its
 * keyPositions map and its skip set, proved equal to ReorderSpec.
 */
module Reorder {
  import opened Wrappers
  import opened Bytes
  import opened Errors
  import opened Scanner
  import opened Pairs
  import Keys

  /** The key decoder the parser inside reorder uses. */
  const KeyDecoder: Unquoter := Keys.Unquote

  /** `&parser{}`: maxDepth 0, so the default nesting limit. */
  const ParserMaxDepth: int := 0

  // ------------------------------------------------------------ serialisation

  /** One pair as reorder writes it: the key as written, a colon, the value as written. */
  function Entry(p: Pair): seq<byte>
  {
    p.keyBytes + [Colon] + p.valueBytes
  }

  /** The entries of ps, separated by commas. */
  function Members(ps: seq<Pair>): seq<byte>
    decreases |ps|
  {
    if ps == [] then []
    else if |ps| == 1 then Entry(ps[0])
    else Entry(ps[0]) + [Comma] + Members(ps[1..])
  }

  /** `{` entries `}` */
  function ObjectText(ps: seq<Pair>): seq<byte>
  {
    [OpenBrace] + Members(ps) + [CloseBrace]
  }

  /** Appending one pair writes a comma unless it is the first, then its entry. */
  lemma {:induction false} MembersSnoc(ps: seq<Pair>, p: Pair)
    ensures Members(ps + [p]) == Members(ps) + (if ps == [] then [] else [Comma]) + Entry(p)
    decreases |ps|
  {
    if |ps| == 0 {
      assert ps + [p] == [p];
    } else if |ps| == 1 {
      assert (ps + [p])[1..] == [p];
    } else {
      assert (ps + [p])[1..] == ps[1..] + [p];
      MembersSnoc(ps[1..], p);
    }
  }

  // ------------------------------------------------------------------ indices

  /** Every index of order is an index of a sequence of length n. */
  predicate InRange(order: seq<nat>, n: nat)
  {
    forall t :: 0 <= t < |order| ==> order[t] < n
  }

  /** No index occurs twice. */
  predicate Distinct(s: seq<nat>)
  {
    forall a, b :: 0 <= a < b < |s| ==> s[a] != s[b]
  }

  /** Strictly increasing: source order. */
  predicate Increasing(s: seq<nat>)
  {
    forall a, b :: 0 <= a < b < |s| ==> s[a] < s[b]
  }

  /** The indices a sequence holds. */
  function Elements(s: seq<nat>): set<nat>
  {
    set j | j in s
  }

  /** The pairs at the given indices, in the order given. */
  function Pick(ps: seq<Pair>, order: seq<nat>): (r: seq<Pair>)
    requires InRange(order, |ps|)
    ensures |r| == |order|
  {
    seq(|order|, t requires 0 <= t < |order| => ps[order[t]])
  }

  /** What the loops have appended after `{` once they have written the pairs at order, in that order. */
  function Written(ps: seq<Pair>, order: seq<nat>): seq<byte>
    requires InRange(order, |ps|)
    decreases |order|
  {
    if order == [] then []
    else Written(ps, order[..|order| - 1]) + (if |order| > 1 then [Comma] else []) + Entry(ps[order[|order| - 1]])
  }

  /** 0, 1, ..., n - 1 */
  function Range(n: nat): seq<nat>
  {
    if n == 0 then [] else Range(n - 1) + [n - 1]
  }

  /** `keyPositions[key]`: a missing key reads as the empty list. */
  function Lookup(m: map<seq<byte>, seq<nat>>, key: seq<byte>): seq<nat>
  {
    if key in m then m[key] else []
  }

  /** The indices of the pairs whose unquoted key is key, in the order keyPositions collects them. */
  function IndicesOf(ps: seq<Pair>, key: seq<byte>): seq<nat>
    decreases |ps|
  {
    if ps == [] then []
    else IndicesOf(ps[..|ps| - 1], key) + (if ps[|ps| - 1].keyUnquoted == key then [|ps| - 1] else [])
  }

  /** The indices of idx that are not in skip, in order. */
  function Unskipped(idx: seq<nat>, skip: set<nat>): seq<nat>
    decreases |idx|
  {
    if idx == [] then []
    else Unskipped(idx[..|idx| - 1], skip) + (if idx[|idx| - 1] in skip then [] else [idx[|idx| - 1]])
  }

  /**
   * What the loop over firstKeys emits: for each key in turn, the indices
   * keyPositions lists for it that were not emitted before.
   */
  function Front(ps: seq<Pair>, keys: seq<seq<byte>>): seq<nat>
    decreases |keys|
  {
    if keys == [] then []
    else
      var f := Front(ps, keys[..|keys| - 1]);
      f + Unskipped(IndicesOf(ps, keys[|keys| - 1]), Elements(f))
  }

  /** What the loop over the pairs emits: the indices below n that are not in skip. */
  function Leftover(n: nat, skip: set<nat>): seq<nat>
  {
    if n == 0 then [] else Leftover(n - 1, skip) + (if n - 1 in skip then [] else [n - 1])
  }

  /** The order in which reorder writes the pairs, as indices into ps. */
  function Order(ps: seq<Pair>, keys: seq<seq<byte>>): seq<nat>
  {
    var f := Front(ps, keys);
    f + Leftover(|ps|, Elements(f))
  }

  /** The pairs in the order reorder writes them. */
  function Arrange(ps: seq<Pair>, keys: seq<seq<byte>>): (r: seq<Pair>)
    ensures |r| == |ps|
  {
    OrderIsPermutation(ps, keys);
    Pick(ps, Order(ps, keys))
  }

  // ------------------------------------------------------- lemmas on indices

  lemma {:induction false} IndicesOfExactly(ps: seq<Pair>, key: seq<byte>)
    ensures forall j :: j in IndicesOf(ps, key) <==> 0 <= j < |ps| && ps[j].keyUnquoted == key
    ensures Increasing(IndicesOf(ps, key)) && InRange(IndicesOf(ps, key), |ps|)
    decreases |ps|
  {
    if ps != [] {
      var init := ps[..|ps| - 1];
      IndicesOfExactly(init, key);
      forall j ensures j in IndicesOf(init, key) <==> 0 <= j < |ps| - 1 && ps[j].keyUnquoted == key {
        if 0 <= j < |ps| - 1 {
          assert init[j] == ps[j];
        }
      }
      var u := IndicesOf(init, key);
      forall t | 0 <= t < |u| ensures u[t] < |ps| - 1 {
        assert u[t] in u;
      }
    }
    var r := IndicesOf(ps, key);
    forall t | 0 <= t < |r| ensures r[t] < |ps| {
      assert r[t] in r;
    }
  }

  lemma {:induction false} UnskippedMembers(idx: seq<nat>, skip: set<nat>)
    ensures forall j :: j in Unskipped(idx, skip) <==> j in idx && j !in skip
    decreases |idx|
  {
    if idx != [] {
      var init := idx[..|idx| - 1];
      UnskippedMembers(init, skip);
      assert idx == init + [idx[|idx| - 1]];
    }
  }

  lemma {:induction false} UnskippedIncreasing(idx: seq<nat>, skip: set<nat>)
    requires Increasing(idx)
    ensures Increasing(Unskipped(idx, skip))
    decreases |idx|
  {
    if idx != [] {
      var init := idx[..|idx| - 1];
      var last := idx[|idx| - 1];
      UnskippedIncreasing(init, skip);
      UnskippedMembers(init, skip);
      var u := Unskipped(init, skip);
      forall t | 0 <= t < |u| ensures u[t] < last {
        assert u[t] in init;
      }
    }
  }

  /** Filtering by a set that holds none of the indices keeps them all. */
  lemma {:induction false} UnskippedKeepsAll(idx: seq<nat>, skip: set<nat>)
    requires forall j :: j in idx ==> j !in skip
    ensures Unskipped(idx, skip) == idx
    decreases |idx|
  {
    if idx != [] {
      var init := idx[..|idx| - 1];
      assert idx == init + [idx[|idx| - 1]];
      UnskippedKeepsAll(init, skip);
    }
  }

  /** Filtering by a set that holds all of the indices keeps none. */
  lemma {:induction false} UnskippedDropsAll(idx: seq<nat>, skip: set<nat>)
    requires forall j :: j in idx ==> j in skip
    ensures Unskipped(idx, skip) == []
    decreases |idx|
  {
    if idx != [] {
      var init := idx[..|idx| - 1];
      assert idx == init + [idx[|idx| - 1]];
      UnskippedDropsAll(init, skip);
    }
  }

  lemma {:induction false} LeftoverMembers(n: nat, skip: set<nat>)
    ensures forall j :: j in Leftover(n, skip) <==> 0 <= j < n && j !in skip
    ensures Increasing(Leftover(n, skip))
  {
    if n > 0 {
      LeftoverMembers(n - 1, skip);
      var u := Leftover(n - 1, skip);
      forall t | 0 <= t < |u| ensures u[t] < n - 1 {
        assert u[t] in u;
      }
    }
  }

  lemma {:induction false} RangeMembers(n: nat)
    ensures forall j :: j in Range(n) <==> 0 <= j < n
    ensures Increasing(Range(n))
  {
    if n > 0 {
      RangeMembers(n - 1);
      var u := Range(n - 1);
      forall t | 0 <= t < |u| ensures u[t] < n - 1 {
        assert u[t] in u;
      }
    }
  }

  lemma IncreasingIsDistinct(s: seq<nat>)
    requires Increasing(s)
    ensures Distinct(s)
  {
  }

  lemma DistinctAppend(s: seq<nat>, t: seq<nat>)
    requires Distinct(s) && Distinct(t)
    requires forall j :: j in s ==> j !in t
    ensures Distinct(s + t)
  {
    forall a, b | 0 <= a < b < |s + t| ensures (s + t)[a] != (s + t)[b] {
      if b >= |s| && a < |s| {
        assert (s + t)[a] in s && (s + t)[b] == t[b - |s|];
      }
    }
  }

  /** A sequence without repetitions holds each of its elements once. */
  lemma {:induction false} DistinctCount(s: seq<nat>)
    requires Distinct(s)
    ensures forall x :: multiset(s)[x] == if x in s then 1 else 0
    decreases |s|
  {
    if s != [] {
      var init := s[..|s| - 1];
      var last := s[|s| - 1];
      assert s == init + [last];
      DistinctCount(init);
      assert last !in init;
    }
  }

  // --------------------------------------------------------- lemmas on Order

  /** The first loop emits exactly the pairs whose key is one of keys, each once. */
  lemma {:induction false} FrontMembers(ps: seq<Pair>, keys: seq<seq<byte>>)
    ensures forall j :: j in Front(ps, keys) <==> 0 <= j < |ps| && ps[j].keyUnquoted in keys
    ensures Distinct(Front(ps, keys))
    decreases |keys|
  {
    if keys != [] {
      var init := keys[..|keys| - 1];
      var k := keys[|keys| - 1];
      assert keys == init + [k];
      var f := Front(ps, init);
      FrontMembers(ps, init);
      var idx := IndicesOf(ps, k);
      IndicesOfExactly(ps, k);
      UnskippedMembers(idx, Elements(f));
      UnskippedIncreasing(idx, Elements(f));
      IncreasingIsDistinct(Unskipped(idx, Elements(f)));
      DistinctAppend(f, Unskipped(idx, Elements(f)));
    }
  }

  /**
   * A key named again adds nothing: all its pairs were moved the first time.
   */
  lemma RepeatedKeyAddsNothing(ps: seq<Pair>, keys: seq<seq<byte>>, k: seq<byte>)
    requires k in keys
    ensures Front(ps, keys + [k]) == Front(ps, keys)
  {
    assert (keys + [k])[..|keys|] == keys;
    FrontMembers(ps, keys);
    IndicesOfExactly(ps, k);
    UnskippedDropsAll(IndicesOf(ps, k), Elements(Front(ps, keys)));
  }

  /**
   * A key named for the first time moves every pair with that key, in
   * source order, behind the pairs moved so far.
   */
  lemma NewKeyMovesAllItsPairs(ps: seq<Pair>, keys: seq<seq<byte>>, k: seq<byte>)
    requires k !in keys
    ensures Front(ps, keys + [k]) == Front(ps, keys) + IndicesOf(ps, k)
  {
    assert (keys + [k])[..|keys|] == keys;
    FrontMembers(ps, keys);
    IndicesOfExactly(ps, k);
    UnskippedKeepsAll(IndicesOf(ps, k), Elements(Front(ps, keys)));
  }

  /** A key no pair has is ignored. */
  lemma AbsentKeyIsIgnored(ps: seq<Pair>, keys: seq<seq<byte>>, k: seq<byte>)
    requires forall j :: 0 <= j < |ps| ==> ps[j].keyUnquoted != k
    ensures Front(ps, keys + [k]) == Front(ps, keys)
  {
    assert (keys + [k])[..|keys|] == keys;
    IndicesOfExactly(ps, k);
    UnskippedDropsAll(IndicesOf(ps, k), Elements(Front(ps, keys)));
  }

  /**
   * The pairs after the moved ones are exactly those whose key is not named,
   * in source order.
   */
  lemma RestKeepsSourceOrder(ps: seq<Pair>, keys: seq<seq<byte>>)
    ensures var rest := Order(ps, keys)[|Front(ps, keys)|..];
      (forall j :: j in rest <==> 0 <= j < |ps| && ps[j].keyUnquoted !in keys) &&
      Increasing(rest)
  {
    var f := Front(ps, keys);
    assert Order(ps, keys)[|f|..] == Leftover(|ps|, Elements(f));
    FrontMembers(ps, keys);
    LeftoverMembers(|ps|, Elements(f));
  }

  /** Every pair index is written exactly once: Order is a permutation of 0 .. |ps| - 1. */
  lemma OrderIsPermutation(ps: seq<Pair>, keys: seq<seq<byte>>)
    ensures multiset(Order(ps, keys)) == multiset(Range(|ps|))
    ensures |Order(ps, keys)| == |ps| && InRange(Order(ps, keys), |ps|)
    ensures Distinct(Order(ps, keys))
  {
    var f := Front(ps, keys);
    var rest := Leftover(|ps|, Elements(f));
    var o := Order(ps, keys);
    FrontMembers(ps, keys);
    LeftoverMembers(|ps|, Elements(f));
    IncreasingIsDistinct(rest);
    DistinctAppend(f, rest);
    RangeMembers(|ps|);
    IncreasingIsDistinct(Range(|ps|));
    DistinctCount(o);
    DistinctCount(Range(|ps|));
    forall x ensures multiset(o)[x] == multiset(Range(|ps|))[x] {
      assert x in o <==> x in Range(|ps|);
    }
    assert multiset(o) == multiset(Range(|ps|));
    assert |o| == |multiset(o)| == |multiset(Range(|ps|))| == |Range(|ps|)|;
    RangeLength(|ps|);
    forall t | 0 <= t < |o| ensures o[t] < |ps| {
      assert o[t] in o;
    }
  }

  lemma {:induction false} RangeLength(n: nat)
    ensures |Range(n)| == n
  {
    if n > 0 {
      RangeLength(n - 1);
    }
  }

  // ------------------------------------------------------------- idempotence

  /** Index t of Range(n) is t. */
  lemma {:induction false} RangeAt(n: nat, t: nat)
    requires t < n
    ensures |Range(n)| == n && Range(n)[t] == t
  {
    RangeLength(n);
    if t < n - 1 {
      RangeAt(n - 1, t);
    }
  }

  /** An increasing sequence that holds exactly 0 .. n - 1 is Range(n). */
  lemma {:induction false} IncreasingRange(s: seq<nat>, n: nat)
    requires Increasing(s)
    requires forall j :: j in s <==> 0 <= j < n
    ensures s == Range(n)
    decreases n
  {
    if s == [] {
      assert 0 in s <==> 0 < n;
    } else {
      var last := s[|s| - 1];
      assert last in s;
      assert n - 1 in s;
      assert last == n - 1;
      var init := s[..|s| - 1];
      forall j
        ensures j in init <==> 0 <= j < n - 1
      {
        if j in init {
          var i :| 0 <= i < |init| && init[i] == j;
          assert s[i] < last;
        }
        if 0 <= j < n - 1 {
          assert j in s;
          var i :| 0 <= i < |s| && s[i] == j;
          assert init[i] == j;
        }
      }
      IncreasingRange(init, n - 1);
      assert s == init + [last];
    }
  }

  /** Two increasing runs, the first below f and the second from f up, make one increasing run. */
  lemma IncreasingAppend(s: seq<nat>, t: seq<nat>, f: nat)
    requires Increasing(s) && Increasing(t)
    requires forall a :: a in s ==> a < f
    requires forall a :: a in t ==> f <= a
    ensures Increasing(s + t)
  {
    forall a, b | 0 <= a < b < |s + t|
      ensures (s + t)[a] < (s + t)[b]
    {
      if a < |s| && b >= |s| {
        assert s[a] in s && t[b - |s|] in t;
      }
    }
  }

  /** The pairs moved for the first m keys are written first, in the same order. */
  lemma {:induction false} FrontPrefix(ps: seq<Pair>, keys: seq<seq<byte>>, m: nat)
    requires m <= |keys|
    ensures var fm := Front(ps, keys[..m]);
      |fm| <= |Front(ps, keys)| && Front(ps, keys)[..|fm|] == fm
    decreases |keys|
  {
    if m == |keys| {
      assert keys[..m] == keys;
    } else {
      var init := keys[..|keys| - 1];
      assert init[..m] == keys[..m];
      FrontPrefix(ps, init, m);
    }
  }

  /**
   * In the arranged pairs, those whose key is among the first m keys are
   * exactly the first |Front(ps, keys[..m])| of them.
   */
  lemma ArrangedGroups(ps: seq<Pair>, keys: seq<seq<byte>>, m: nat, j: nat)
    requires m <= |keys| && j < |ps|
    ensures Arrange(ps, keys)[j].keyUnquoted in keys[..m] <==> j < |Front(ps, keys[..m])|
  {
    var o := Order(ps, keys);
    var fm := Front(ps, keys[..m]);
    OrderIsPermutation(ps, keys);
    FrontPrefix(ps, keys, m);
    FrontMembers(ps, keys[..m]);
    assert o[..|fm|] == fm;
    assert Arrange(ps, keys)[j] == ps[o[j]];
    if j < |fm| {
      assert o[j] == fm[j] && fm[j] in fm;
    } else {
      forall i | 0 <= i < |fm|
        ensures fm[i] != o[j]
      {
        assert o[i] == fm[i];
      }
      assert o[j] !in fm;
    }
  }

  /** On the arranged pairs, the first loop emits indices in increasing order. */
  lemma {:induction false} ArrangedFrontIncreasing(ps: seq<Pair>, keys: seq<seq<byte>>, m: nat)
    requires m <= |keys|
    ensures Increasing(Front(Arrange(ps, keys), keys[..m]))
    decreases m
  {
    if m > 0 {
      var qs := Arrange(ps, keys);
      var km := keys[..m];
      var init := keys[..m - 1];
      var k := keys[m - 1];
      assert km[..|km| - 1] == init && km[|km| - 1] == k;
      var f := Front(qs, init);
      var idx := IndicesOf(qs, k);
      var u := Unskipped(idx, Elements(f));
      ArrangedFrontIncreasing(ps, keys, m - 1);
      IndicesOfExactly(qs, k);
      UnskippedIncreasing(idx, Elements(f));
      UnskippedMembers(idx, Elements(f));
      FrontMembers(qs, init);
      var bound := |Front(ps, init)|;
      forall a | a in f
        ensures a < bound
      {
        ArrangedGroups(ps, keys, m - 1, a);
      }
      forall a | a in u
        ensures bound <= a
      {
        ArrangedGroups(ps, keys, m - 1, a);
      }
      IncreasingAppend(f, u, bound);
    }
  }

  /** Arranging the arranged pairs again with the same keys changes nothing. */
  lemma ArrangeIsIdempotent(ps: seq<Pair>, keys: seq<seq<byte>>)
    ensures Arrange(Arrange(ps, keys), keys) == Arrange(ps, keys)
  {
    var qs := Arrange(ps, keys);
    var n := |qs|;
    assert keys[..|keys|] == keys;
    ArrangedFrontIncreasing(ps, keys, |keys|);
    var f := Front(qs, keys);
    var bound := |Front(ps, keys)|;
    FrontMembers(qs, keys);
    forall a | a in f
      ensures a < bound
    {
      ArrangedGroups(ps, keys, |keys|, a);
    }
    var rest := Leftover(n, Elements(f));
    LeftoverMembers(n, Elements(f));
    forall a | a in rest
      ensures bound <= a
    {
      ArrangedGroups(ps, keys, |keys|, a);
    }
    IncreasingAppend(f, rest, bound);
    var o := Order(qs, keys);
    assert o == f + rest;
    forall j
      ensures j in o <==> 0 <= j < n
    {
      assert j in o <==> j in f || j in rest;
    }
    IncreasingRange(o, n);
    OrderIsPermutation(qs, keys);
    forall t | 0 <= t < n
      ensures Arrange(qs, keys)[t] == qs[t]
    {
      RangeAt(n, t);
    }
  }

  // --------------------------------------------------------------- reorder

  /** reorder's three results. */
  datatype Reordered = Reordered(out: seq<byte>, n: int, err: Option<Error>)

  /** reorder, as a function. */
  function ReorderSpec(dest: seq<byte>, src: seq<byte>, firstKeys: seq<seq<byte>>): (o: Reordered)
    ensures |dest| <= |o.out| && o.out[..|dest|] == dest
    ensures o.err.None? ==> 0 <= o.n <= |src|
    ensures o.err.Some? ==> o.out == dest && WellPlaced(src, o.err) && o.n <= |src|
  {
    if |firstKeys| == 0 then Reordered(dest + src, |src|, None)
    else
      TopLevelEnds(KeyDecoder, ParserMaxDepth, src);
      var r := TopLevel(KeyDecoder, ParserMaxDepth, src);
      if r.err.Some? then Reordered(dest, r.n, r.err)
      else Reordered(dest + ObjectText(Arrange(r.pairs, firstKeys)), r.n, None)
  }

  /** One turn of the loop over keyPositions[key]: the skip test and the order it extends. */
  lemma PositionStep(before: seq<nat>, positions: seq<nat>, b: nat, order: seq<nat>, skip: set<nat>)
    requires Increasing(positions) && b < |positions|
    requires order == before + Unskipped(positions[..b], Elements(before))
    requires skip == Elements(order)
    ensures (positions[b] in skip) == (positions[b] in Elements(before))
    ensures before + Unskipped(positions[..b + 1], Elements(before)) ==
      if positions[b] in Elements(before) then order else order + [positions[b]]
  {
    assert positions[..b + 1][..b] == positions[..b];
    UnskippedMembers(positions[..b], Elements(before));
  }

  /** One turn of the loop over the pairs, as the order it extends. */
  lemma LeftoverStep(front: seq<nat>, skip: set<nat>, i: nat, order: seq<nat>)
    requires order == front + Leftover(i, skip)
    ensures front + Leftover(i + 1, skip) == if i in skip then order else order + [i]
  {
  }

  lemma {:induction false} WrittenIsMembers(ps: seq<Pair>, order: seq<nat>)
    requires InRange(order, |ps|)
    ensures Written(ps, order) == Members(Pick(ps, order))
    decreases |order|
  {
    if order != [] {
      var init := order[..|order| - 1];
      var last := order[|order| - 1];
      WrittenIsMembers(ps, init);
      assert Pick(ps, order) == Pick(ps, init) + [ps[last]];
      MembersSnoc(Pick(ps, init), ps[last]);
    }
  }

  /** The closing brace completes the object text of the arranged pairs. */
  lemma Finish(dest: seq<byte>, out: seq<byte>, pairs: seq<Pair>, keys: seq<seq<byte>>, order: seq<nat>)
    requires order == Order(pairs, keys) && InRange(order, |pairs|)
    requires out == dest + [OpenBrace] + Written(pairs, order)
    ensures out + [CloseBrace] == dest + ObjectText(Arrange(pairs, keys))
  {
    WrittenIsMembers(pairs, order);
  }

  lemma ElementsSnoc(s: seq<nat>, p: nat)
    ensures Elements(s + [p]) == Elements(s) + {p}
  {
  }

  /** The four appends that write one pair after the text m. */
  lemma EmitBytes(prefix: seq<byte>, out: seq<byte>, m: seq<byte>, sep: seq<byte>, p: Pair)
    requires out == prefix + m
    ensures out + sep + p.keyBytes + [Colon] + p.valueBytes == prefix + (m + sep + Entry(p))
  {
  }

  /**
   * The state both writing loops keep: out is dest, `{` and the entries of the
   * pairs at order, and pairsWritten counts them.
   */
  predicate Emitted(dest: seq<byte>, pairs: seq<Pair>, order: seq<nat>, out: seq<byte>, pairsWritten: nat)
  {
    InRange(order, |pairs|) && out == dest + [OpenBrace] + Written(pairs, order) && pairsWritten == |order|
  }

  /** The appends of one turn of either loop write the entry of the pair at index p. */
  lemma EmitStep(dest: seq<byte>, pairs: seq<Pair>, order: seq<nat>, out: seq<byte>, pairsWritten: nat,
                 p: nat, next: seq<byte>)
    requires Emitted(dest, pairs, order, out, pairsWritten) && p < |pairs|
    requires next == (if pairsWritten > 0 then out + [Comma] else out) + pairs[p].keyBytes + [Colon] + pairs[p].valueBytes
    ensures Emitted(dest, pairs, order + [p], next, pairsWritten + 1)
  {
    assert (order + [p])[..|order|] == order;
    var sep: seq<byte> := if |order| > 0 then [Comma] else [];
    assert (if |order| > 0 then out + [Comma] else out) == out + sep;
    EmitBytes(dest + [OpenBrace], out, Written(pairs, order), sep, pairs[p]);
  }

  /** The state of the loop over keyPositions[key] after b of its positions. */
  predicate GroupState(dest: seq<byte>, pairs: seq<Pair>, positions: seq<nat>, before: seq<nat>, b: nat,
                       order: seq<nat>, out: seq<byte>, skip: set<nat>, pairsWritten: nat)
  {
    b <= |positions| && order == before + Unskipped(positions[..b], Elements(before)) &&
    skip == Elements(order) && Emitted(dest, pairs, order, out, pairsWritten)
  }

  /** One turn of the loop over keyPositions[key]: a position in skip is passed over, any other written. */
  lemma GroupTurn(dest: seq<byte>, pairs: seq<Pair>, positions: seq<nat>, before: seq<nat>, b: nat,
                  order: seq<nat>, out: seq<byte>, skip: set<nat>, pairsWritten: nat, next: seq<byte>)
    requires Increasing(positions) && InRange(positions, |pairs|) && b < |positions|
    requires GroupState(dest, pairs, positions, before, b, order, out, skip, pairsWritten)
    requires var p := positions[b];
      next == (if pairsWritten > 0 then out + [Comma] else out) + pairs[p].keyBytes + [Colon] + pairs[p].valueBytes
    ensures var p := positions[b];
      if p in skip then GroupState(dest, pairs, positions, before, b + 1, order, out, skip, pairsWritten)
      else GroupState(dest, pairs, positions, before, b + 1, order + [p], next, skip + {p}, pairsWritten + 1)
  {
    var p := positions[b];
    PositionStep(before, positions, b, order, skip);
    if p !in skip {
      ElementsSnoc(order, p);
      EmitStep(dest, pairs, order, out, pairsWritten, p, next);
    }
  }

  /** One turn of the loop over the pairs: an index in skip is passed over, any other written. */
  lemma RemainingTurn(dest: seq<byte>, pairs: seq<Pair>, front: seq<nat>, skip: set<nat>, i: nat,
                      order: seq<nat>, out: seq<byte>, pairsWritten: nat, next: seq<byte>)
    requires i < |pairs|
    requires order == front + Leftover(i, skip) && Emitted(dest, pairs, order, out, pairsWritten)
    requires next == (if pairsWritten > 0 then out + [Comma] else out) + pairs[i].keyBytes + [Colon] + pairs[i].valueBytes
    ensures if i in skip then front + Leftover(i + 1, skip) == order
      else front + Leftover(i + 1, skip) == order + [i] && Emitted(dest, pairs, order + [i], next, pairsWritten + 1)
  {
    LeftoverStep(front, skip, i, order);
    if i !in skip {
      EmitStep(dest, pairs, order, out, pairsWritten, i, next);
    }
  }

  /** The loop over firstKeys moves on to the next key. */
  lemma FrontStep(pairs: seq<Pair>, keys: seq<seq<byte>>, a: nat)
    requires a < |keys|
    ensures Front(pairs, keys[..a + 1]) ==
      Front(pairs, keys[..a]) + Unskipped(IndicesOf(pairs, keys[a]), Elements(Front(pairs, keys[..a])))
  {
    assert keys[..a + 1][..a] == keys[..a];
  }

  /** reorder */
  method Reorder(dest: seq<byte>, src: seq<byte>, firstKeys: seq<seq<byte>>)
    returns (out: seq<byte>, n: int, err: Option<Error>)
    ensures Reordered(out, n, err) == ReorderSpec(dest, src, firstKeys)
  {
    if |firstKeys| == 0 {
      return dest + src, |src|, None;
    }
    var pairs, m, e := Parse(KeyDecoder, ParserMaxDepth, src);
    if e.Some? {
      return dest, m, e;
    }
    out := AppendReordered(dest, pairs, firstKeys);
    return out, m, None;
  }

  /**
   * The part of reorder after a successful parse. The source's one function is
   * cut at its loops: keyPositions, the loop over firstKeys (with its inner
   * loop over one key's positions), and the loop over the remaining pairs.
   */
  method AppendReordered(dest: seq<byte>, pairs: seq<Pair>, firstKeys: seq<seq<byte>>) returns (out: seq<byte>)
    ensures out == dest + ObjectText(Arrange(pairs, firstKeys))
  {
    var keyPositions := CollectKeyPositions(pairs);
    var skip, pairsWritten;
    out, skip, pairsWritten := WriteFirstKeys(dest, pairs, firstKeys, keyPositions);
    out := WriteRemaining(dest, out, pairs, skip, pairsWritten, Front(pairs, firstKeys));
    Finish(dest, out, pairs, firstKeys, Order(pairs, firstKeys));
    out := out + [CloseBrace];
  }

  /** keyPositions: for each unquoted key, the indices of the pairs that have it. */
  method CollectKeyPositions(pairs: seq<Pair>) returns (keyPositions: map<seq<byte>, seq<nat>>)
    ensures forall key :: Lookup(keyPositions, key) == IndicesOf(pairs, key)
  {
    keyPositions := map[];
    var i := 0;
    while i < |pairs|
      invariant i <= |pairs|
      invariant forall key :: Lookup(keyPositions, key) == IndicesOf(pairs[..i], key)
    {
      var key := pairs[i].keyUnquoted;
      keyPositions := keyPositions[key := Lookup(keyPositions, key) + [i]];
      assert pairs[..i + 1][..i] == pairs[..i];
      i := i + 1;
    }
    assert pairs[..|pairs|] == pairs;
  }

  /** `{` and the loop over firstKeys: the pairs of Front, with skip holding their indices. */
  method WriteFirstKeys(dest: seq<byte>, pairs: seq<Pair>, firstKeys: seq<seq<byte>>, keyPositions: map<seq<byte>, seq<nat>>)
    returns (out: seq<byte>, skip: set<nat>, pairsWritten: nat)
    requires forall key :: Lookup(keyPositions, key) == IndicesOf(pairs, key)
    ensures Emitted(dest, pairs, Front(pairs, firstKeys), out, pairsWritten)
    ensures skip == Elements(Front(pairs, firstKeys))
  {
    pairsWritten := 0;
    skip := {};
    out := dest + [OpenBrace];
    var a := 0;
    while a < |firstKeys|
      invariant a <= |firstKeys|
      invariant skip == Elements(Front(pairs, firstKeys[..a]))
      invariant Emitted(dest, pairs, Front(pairs, firstKeys[..a]), out, pairsWritten)
    {
      var positions := Lookup(keyPositions, firstKeys[a]);
      IndicesOfExactly(pairs, firstKeys[a]);
      FrontStep(pairs, firstKeys, a);
      out, skip, pairsWritten := WriteKeyGroup(dest, out, pairs, positions, skip, pairsWritten, Front(pairs, firstKeys[..a]));
      a := a + 1;
    }
    assert firstKeys[..|firstKeys|] == firstKeys;
  }

  /** The inner loop over keyPositions[key]: each index not yet in skip is written and added to it. */
  method WriteKeyGroup(dest: seq<byte>, out0: seq<byte>, pairs: seq<Pair>, positions: seq<nat>,
                       skip0: set<nat>, written0: nat, ghost before: seq<nat>)
    returns (out: seq<byte>, skip: set<nat>, pairsWritten: nat)
    requires Increasing(positions) && InRange(positions, |pairs|)
    requires skip0 == Elements(before) && Emitted(dest, pairs, before, out0, written0)
    ensures var order := before + Unskipped(positions, Elements(before));
      skip == Elements(order) && Emitted(dest, pairs, order, out, pairsWritten)
  {
    out, skip, pairsWritten := out0, skip0, written0;
    ghost var order := before;
    var b := 0;
    while b < |positions|
      invariant GroupState(dest, pairs, positions, before, b, order, out, skip, pairsWritten)
    {
      var i := positions[b];
      ghost var was := out;
      var pair := pairs[i];
      ghost var next := (if pairsWritten > 0 then out + [Comma] else out) + pair.keyBytes + [Colon] + pair.valueBytes;
      GroupTurn(dest, pairs, positions, before, b, order, out, skip, pairsWritten, next);
      if i !in skip {
        if pairsWritten > 0 {
          out := out + [Comma];
        }
        out := out + pair.keyBytes;
        out := out + [Colon];
        out := out + pair.valueBytes;
        skip := skip + {i};
        pairsWritten := pairsWritten + 1;
        order := order + [i];
      }
      b := b + 1;
    }
    assert positions[..|positions|] == positions;
  }

  /** The loop over the pairs: each index not in skip is written, in source order. */
  method WriteRemaining(dest: seq<byte>, out0: seq<byte>, pairs: seq<Pair>, skip: set<nat>, written0: nat,
                        ghost front: seq<nat>)
    returns (out: seq<byte>)
    requires Emitted(dest, pairs, front, out0, written0)
    ensures exists w: nat :: Emitted(dest, pairs, front + Leftover(|pairs|, skip), out, w)
  {
    out := out0;
    var pairsWritten := written0;
    ghost var order := front;
    var i := 0;
    while i < |pairs|
      invariant i <= |pairs|
      invariant order == front + Leftover(i, skip)
      invariant Emitted(dest, pairs, order, out, pairsWritten)
    {
      var pair := pairs[i];
      ghost var next := (if pairsWritten > 0 then out + [Comma] else out) + pair.keyBytes + [Colon] + pair.valueBytes;
      RemainingTurn(dest, pairs, front, skip, i, order, out, pairsWritten, next);
      if i !in skip {
        if pairsWritten > 0 {
          out := out + [Comma];
        }
        out := out + pair.keyBytes;
        out := out + [Colon];
        out := out + pair.valueBytes;
        pairsWritten := pairsWritten + 1;
        order := order + [i];
      }
      i := i + 1;
    }
  }
}
