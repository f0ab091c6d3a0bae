/**
 * The JSON front ends of the log writer: Writer.Write with tryReorder
 * (writer_json.go), and ZordWriter.Write (zord_writer_json.go).
 *
 * Each Write reorders one log event into a fresh buffer and then either
 * writes the reordered object and a newline, or falls back to writing the
 * event untouched. The destination io.Writer is the class Output: the bytes
 * it has taken and the room it has left, so that every one of its writes
 * either succeeds whole or fails having taken nothing. WriterSpec and
 * ZordWriterSpec say, as functions of the key list, the event and that room,
 * what a Write appends to the Output and what it returns.
 */
module Writers {
  import opened Wrappers
  import opened Bytes
  import opened Errors
  import opened Scanner
  import opened Pairs
  import opened Reorder
  import opened Locality

  /** What one call appends to the Output, and the call's two results. */
  datatype Outcome = Outcome(written: seq<byte>, n: int, err: Option<Error>)

  /** Output.Write(p) on an Output with the given room left. */
  function Accept(room: nat, p: seq<byte>): Outcome
  {
    if |p| <= room then Outcome(p, |p|, None) else Outcome([], 0, Some(Cause(OutputFailed)))
  }

  /**
   * The destination io.Writer: every byte it has accepted, and how many more
   * it will accept. A write that fits is taken whole and reports its length;
   * a larger one is refused with an error and takes nothing.
   */
  class Output {
    var data: seq<byte>
    var room: nat

    constructor (room: nat)
      ensures data == [] && this.room == room
    {
      data := [];
      this.room := room;
    }

    /** Write */
    method Write(p: seq<byte>) returns (n: int, err: Option<Error>)
      modifies this
      ensures |p| <= old(room) ==> data == old(data) + p && room == old(room) - |p| && n == |p| && err.None?
      ensures |p| > old(room) ==> data == old(data) && room == old(room) && n == 0 && err == Some(Cause(OutputFailed))
    {
      if |p| <= room {
        data := data + p;
        room := room - |p|;
        return |p|, None;
      }
      return 0, Some(Cause(OutputFailed));
    }
  }

  /**
   * The happy path of both front ends: write obj, and only if that succeeded,
   * a newline; the count returned is the reorder's, whatever the writes report.
   */
  function ObjectThenNewline(room: nat, obj: seq<byte>, n: int): (o: Outcome)
    ensures o.n == n
    ensures o.err.None? <==> |obj| < room
    ensures o.err.None? ==> o.written == obj + [LineFeed]
    ensures o.err.Some? ==> o.err == Some(Cause(OutputFailed))
    ensures |obj| > room ==> o.written == []
    ensures |obj| == room ==> o.written == obj
  {
    var first := Accept(room, obj);
    if first.err.Some? then Outcome([], n, first.err)
    else
      var second := Accept(room - |obj|, [LineFeed]);
      Outcome(obj + second.written, n, second.err)
  }

  /** Where Writer.Write's trailing-bytes check stops: past the whitespace after the object. */
  function TrailingEnd(event: seq<byte>, n: int): int
  {
    if 0 <= n < |event| then WhitespaceEnd(event, n) else n
  }

  /** Some byte at offset n or later is not whitespace. */
  predicate TrailingGarbage(event: seq<byte>, n: int)
  {
    exists k :: 0 <= n <= k < |event| && !IsWhitespace(event[k])
  }

  /** Writer.Write, as a function of FirstKeys, the event and the Output's room. */
  function WriterSpec(firstKeys: seq<seq<byte>>, event: seq<byte>, room: nat): Outcome
  {
    var r := ReorderSpec([], event, firstKeys);
    if r.err.Some? then Accept(room, event)
    else
      var n := TrailingEnd(event, r.n);
      if n < |event| then Accept(room, event)
      else ObjectThenNewline(room, r.out, n)
  }

  /**
   * Writer.Write's decision: the event goes out untouched when reordering
   * fails or a non-whitespace byte follows the object; otherwise the reordered
   * object goes out, and the count returned is the whole event's length.
   */
  lemma WriterDecision(firstKeys: seq<seq<byte>>, event: seq<byte>, room: nat)
    ensures var r := ReorderSpec([], event, firstKeys);
      WriterSpec(firstKeys, event, room) ==
        if r.err.Some? || TrailingGarbage(event, r.n) then Accept(room, event)
        else ObjectThenNewline(room, r.out, |event|)
  {
    var r := ReorderSpec([], event, firstKeys);
    if r.err.None? && r.n < |event| {
      var w := WhitespaceEnd(event, r.n);
      WhitespaceEndSkipsWhitespace(event, r.n);
      if w < |event| {
        assert !IsWhitespace(event[w]);
      }
    }
  }

  /**
   * On success with only whitespace after the object, Writer.Write writes the
   * reordered object and a newline and nothing else, and reports the whole event.
   */
  lemma WriterWritesReordered(firstKeys: seq<seq<byte>>, event: seq<byte>, room: nat)
    requires |firstKeys| > 0
    requires TopLevel(KeyDecoder, ParserMaxDepth, event).err.None?
    requires !TrailingGarbage(event, TopLevel(KeyDecoder, ParserMaxDepth, event).n)
    ensures var pairs := TopLevel(KeyDecoder, ParserMaxDepth, event).pairs;
      var obj := ObjectText(Arrange(pairs, firstKeys));
      var o := WriterSpec(firstKeys, event, room);
      o.n == |event| &&
      (|obj| < room ==> o == Outcome(obj + [LineFeed], |event|, None)) &&
      (|obj| == room ==> o == Outcome(obj, |event|, Some(Cause(OutputFailed)))) &&
      (|obj| > room ==> o == Outcome([], |event|, Some(Cause(OutputFailed))))
  {
    WriterDecision(firstKeys, event, room);
  }

  /**
   * When reordering fails, or a non-whitespace byte follows the object, the
   * Output receives exactly the event, or nothing when it has no room for it.
   */
  lemma WriterPassesEventThrough(firstKeys: seq<seq<byte>>, event: seq<byte>, room: nat)
    requires var r := ReorderSpec([], event, firstKeys); r.err.Some? || TrailingGarbage(event, r.n)
    ensures var o := WriterSpec(firstKeys, event, room);
      (|event| <= room ==> o == Outcome(event, |event|, None)) &&
      (|event| > room ==> o == Outcome([], 0, Some(Cause(OutputFailed))))
  {
    WriterDecision(firstKeys, event, room);
  }

  /** With no FirstKeys, Writer.Write writes the event and a newline. */
  lemma WriterWithoutKeys(event: seq<byte>, room: nat)
    requires |event| < room
    ensures WriterSpec([], event, room) == Outcome(event + [LineFeed], |event|, None)
  {
    WriterDecision([], event, room);
  }

  /** ZordWriter.Write, as a function of FirstKeys, the event and the Output's room. */
  function ZordWriterSpec(firstKeys: seq<seq<byte>>, event: seq<byte>, room: nat): Outcome
  {
    var r := ReorderSpec([], event, firstKeys);
    if r.err.Some? then Accept(room, event)
    else ObjectThenNewline(room, r.out, r.n)
  }

  /**
   * A bad byte after the object makes Writer.Write pass the whole event
   * through to the Output untouched, however well the object itself parses.
   */
  lemma WriterRejectsTrailingBytes(firstKeys: seq<seq<byte>>, event: seq<byte>, tail: seq<byte>, k: nat, room: nat)
    requires |firstKeys| > 0 && TopLevel(KeyDecoder, ParserMaxDepth, event).err.None?
    requires k < |tail| && !IsWhitespace(tail[k])
    ensures WriterSpec(firstKeys, event + tail, room) == Accept(room, event + tail)
  {
    TopLevelIgnoresTail(KeyDecoder, ParserMaxDepth, event, tail);
    TopLevelEnds(KeyDecoder, ParserMaxDepth, event);
    assert (event + tail)[|event| + k] == tail[k];
    WriterDecision(firstKeys, event + tail, room);
  }

  /** When reordering fails, ZordWriter.Write gives the Output exactly the event, or nothing if it has no room. */
  lemma ZordPassesEventThrough(firstKeys: seq<seq<byte>>, event: seq<byte>, room: nat)
    requires ReorderSpec([], event, firstKeys).err.Some?
    ensures var o := ZordWriterSpec(firstKeys, event, room);
      (|event| <= room ==> o == Outcome(event, |event|, None)) &&
      (|event| > room ==> o == Outcome([], 0, Some(Cause(OutputFailed))))
  {
  }

  /**
   * On a successful parse ZordWriter.Write writes the reordered object and a
   * newline, and reports parse's n, whatever follows the object in the event.
   */
  lemma ZordWritesReordered(firstKeys: seq<seq<byte>>, event: seq<byte>, room: nat)
    requires |firstKeys| > 0 && TopLevel(KeyDecoder, ParserMaxDepth, event).err.None?
    ensures var t := TopLevel(KeyDecoder, ParserMaxDepth, event);
      var obj := ObjectText(Arrange(t.pairs, firstKeys));
      var o := ZordWriterSpec(firstKeys, event, room);
      o.n == t.n &&
      (|obj| < room ==> o == Outcome(obj + [LineFeed], t.n, None)) &&
      (|obj| >= room ==> o.err == Some(Cause(OutputFailed)) && o.written == (if |obj| == room then obj else []))
  {
  }

  /** ZordWriter.Write drops the bytes after the object: appending any tail to the event changes nothing. */
  lemma ZordDropsTrailingBytes(firstKeys: seq<seq<byte>>, event: seq<byte>, tail: seq<byte>, room: nat)
    requires |firstKeys| > 0 && TopLevel(KeyDecoder, ParserMaxDepth, event).err.None?
    ensures ZordWriterSpec(firstKeys, event + tail, room) == ZordWriterSpec(firstKeys, event, room)
  {
    TopLevelIgnoresTail(KeyDecoder, ParserMaxDepth, event, tail);
  }

  /** With no FirstKeys, ZordWriter.Write writes the event and a newline. */
  lemma ZordWithoutKeys(event: seq<byte>, room: nat)
    requires |event| < room
    ensures ZordWriterSpec([], event, room) == Outcome(event + [LineFeed], |event|, None)
  {
  }

  /**
   * tryReorder: reorder, with any panic turned into an error. reorder is total
   * and in bounds here, so no panic arises and the result is reorder's.
   */
  method TryReorder(dest: seq<byte>, src: seq<byte>, firstKeys: seq<seq<byte>>)
    returns (extended: seq<byte>, n: int, err: Option<Error>)
    ensures Reordered(extended, n, err) == ReorderSpec(dest, src, firstKeys)
  {
    extended, n, err := Reorder.Reorder(dest, src, firstKeys);
  }

  /** Writer: FirstKeys ordering in front of an Output. */
  class Writer {
    const output: Output
    const firstKeys: seq<seq<byte>>

    constructor (output: Output, firstKeys: seq<seq<byte>>)
      ensures this.output == output && this.firstKeys == firstKeys
    {
      this.output := output;
      this.firstKeys := firstKeys;
    }

    /** Write */
    method Write(event: seq<byte>) returns (n: int, err: Option<Error>)
      modifies output
      ensures var o := WriterSpec(firstKeys, event, old(output.room));
        output.data == old(output.data) + o.written && output.room == old(output.room) - |o.written| &&
        n == o.n && err == o.err
    {
      var obj;
      obj, n, err := TryReorder([], event, firstKeys);
      if err.Some? {
        n, err := output.Write(event);
        return;
      }
      if n < |event| {
        n := SkipWhitespace(event, n);
        if n < |event| {
          n, err := output.Write(event);
          return;
        }
      }
      var _, e := output.Write(obj);
      if e.Some? {
        return n, e;
      }
      var _, e' := output.Write([LineFeed]);
      return n, e';
    }
  }

  /** ZordWriter: FirstKeys ordering in front of an Output, without the trailing-bytes check. */
  class ZordWriter {
    const output: Output
    const firstKeys: seq<seq<byte>>

    constructor (output: Output, firstKeys: seq<seq<byte>>)
      ensures this.output == output && this.firstKeys == firstKeys
    {
      this.output := output;
      this.firstKeys := firstKeys;
    }

    /** Write */
    method Write(event: seq<byte>) returns (n: int, err: Option<Error>)
      modifies output
      ensures var o := ZordWriterSpec(firstKeys, event, old(output.room));
        output.data == old(output.data) + o.written && output.room == old(output.room) - |o.written| &&
        n == o.n && err == o.err
    {
      var obj;
      obj, n, err := Reorder.Reorder([], event, firstKeys);
      if err.Some? {
        n, err := output.Write(event);
        return;
      }
      var _, e := output.Write(obj);
      if e.Some? {
        return n, e;
      }
      var _, e' := output.Write([LineFeed]);
      return n, e';
    }
  }
}
