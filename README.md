# zord, modelled in Dafny

zord is a log writer. It takes each structured log event, which is one JSON
object, and moves the top-level fields named in a priority list (`FirstKeys`)
to the front. It does this without decoding the values: every key and value
is copied as the bytes it was written with.

This project models the core of zord and proves properties of it:

- the byte-level JSON object scanner of `parser.go`;
- the reordering of `reorder.go`;
- the position-tagged errors of `error.go`;
- the two JSON front ends, `Writer.Write` with `tryReorder` (`writer_json.go`) and
  `ZordWriter.Write` (`zord_writer_json.go`).

The model follows the code, not a stricter grammar.

Each parser routine with a loop is a `method` over `seq<byte>` with the
source's own loop. Each such method is proved equal to a recursive
specification function that returns `Step(end, err)`. The properties are
proved about those functions:

- where a scan ends;
- which offset an error names;
- that a number span matches the grammar of section 6 of RFC 8259;
- that a string ends at its first unescaped quote;
- that parse reads nothing past the closing brace;
- that re-parsing the written object gives back the same pairs.

`reorder` is a method with the source's three loops and its
`keyPositions` map and `skip` set. It is proved equal to `ReorderSpec`: the
object text of the pairs in `Order`. `Order` is proved to be a permutation of
the pairs that puts each priority key's pairs first, in source order, and the
rest after.

The writers' destination `io.Writer` is the class
`Output`, holding the bytes it has taken and the room it has left.

Files and modules:

| file | module | models |
|---|---|---|
| wrappers.dfy | Wrappers | `Option` |
| bytes.dfy | Bytes | byte constants, the whitespace table |
| errors.dfy | Errors | `errAt`, `parseErrorAt`, `Pos`, `Unwrap`, `Error`, the sentinels `errEndArray`/`errEndObject` |
| scanner.dfy | Scanner | `skipWhitespace`, the one-byte helpers, literals, numbers, `parseString` |
| values.dfy | Values | `depthLimitReached`, `parseValue`, `parseArray`, `parseObject` |
| parse.dfy | Pairs | `kv`, the top-level `parse` |
| keys.dfy | Keys | a stand-in for `jsonconv.Unquote` (section 7 of RFC 8259) |
| reorder.dfy | Reorder | `reorder` |
| locality.dfy | Locality | parse depends only on the bytes it reads |
| roundtrip.dfy | RoundTrip | re-serialised pairs parse back to themselves |
| writers.dfy | Writers | `Writer.Write`, `tryReorder`, `ZordWriter.Write`, the output stream |
| examples.dfy | Cases | worked cases of reorder, most of them from reorder_test.go |

Points where the code does something a reader might not expect:

- parser.go:28 documents only `maxDepth == 0`, which selects the default
  limit of 64 (parser.go:31-37). A negative `maxDepth` is kept as it is, so
  `depthLimitReached` holds at every depth and every container fails
  (`Values.DepthsBelowLimit`, `Values.DepthLimitStopsAtBracket`).
- `parseString` neither checks escapes nor rejects control bytes
  (parser.go:364-395). A string value such as `"\q"` is accepted. Only a key
  goes through the unquoting, and only the key can fail on a bad escape.
- One trailing comma is accepted before `}` and `]`, and a second one is
  rejected (`Values.ArrayTrailingComma`, `Values.ArrayDoubleComma`).
- A number that reaches the end of the buffer is an UnexpectedEOF error at
  `len(buf)`, even when its digits are complete (parser.go:250-251, 281-282).

## Model

| member | source | states |
|---|---|---|
| Errors.Pos | error.go:24-26 | Pos returns the offset the error was tagged with |
| Errors.Unwrap | error.go:28-30 | Unwrap returns the cause the tag wraps |
| Errors.ParseErrorAt | error.go:32-45 | nil gives nil; any other result is tagged at pos; an error already tagged at pos comes back unchanged; otherwise the result wraps err, and Unwrap gives err back |
| Errors.RetagSameIsIdempotent | error.go:36-39 | tagging twice at the same offset equals tagging once |
| Errors.RetagElsewhereWraps | error.go:41-44 | re-tagging at a different offset reports the new offset and keeps the old tagged error as the cause |
| Errors.TaggingKeepsKind | error.go:41-44 | errors.Is finds the same cause kind before and after tagging |
| Errors.ErrorText | error.go:17-22 | Error() is "error at position " + decimal(pos), followed by ": " + the cause's text only when there is a cause |
| Errors.DecimalRoundTrip | error.go:19 | the decimal text of the position (strconv.Itoa) reads back as the position, sign included |
| Bytes.WhitespaceTableMarks | parser.go:440-445 | the whitespace table marks exactly space, tab, LF and CR |
| Scanner.WhitespaceEnd | parser.go:447-457 | pos <= end, end <= len(buf), and the byte at end is not whitespace |
| Scanner.WhitespaceEndSkipsWhitespace | parser.go:449-453 | every byte skipped is whitespace |
| Scanner.SkipWhitespace | parser.go:447-457 | the loop stops where WhitespaceEnd does |
| Scanner.BeginObject | parser.go:146-156 | succeeds exactly on `{`; EOF at len(buf); any other byte is an error at its own offset, with end = pos+1 |
| Scanner.ColonToken | parser.go:158-168 | succeeds exactly on `:`; EOF at len(buf); any other byte is an error at its offset |
| Scanner.ArrayComma | parser.go:131-144 | a comma goes on; `]` gives the sentinel EndArray; EOF at len(buf); any other byte is an error at its offset |
| Scanner.ObjectComma | parser.go:349-362 | a comma goes on; `}` gives the sentinel EndObject; EOF at len(buf); any other byte is an error at its offset |
| Scanner.LiteralFromMatches | parser.go:170-183 | the literal check succeeds exactly when the literal's bytes are all present at pos |
| Scanner.LiteralMismatch | parser.go:397-410 | the first differing byte is an error at its own offset; a truncation is EOF at the offset just past the last byte checked |
| Scanner.ParseTrue | parser.go:397-410 | parseTrue's loop computes LiteralScan of `true` |
| Scanner.ParseFalse | parser.go:170-183 | parseFalse's loop computes LiteralScan of `false` |
| Scanner.ParseNull | parser.go:185-198 | parseNull's loop computes LiteralScan of `null` |
| Scanner.DigitsEndSkipsDigits | parser.go:277-282 | a digits loop passes over digits only and stops at a non-digit |
| Scanner.NumberMinus | parser.go:290-299 | an optional `-`; EOF at len(buf) |
| Scanner.NumberInt | parser.go:271-288 | `0` alone, or a run of digits starting with 1-9 that some byte follows; a non-digit at pos is an error at pos; no byte at pos, or digits up to the end, is EOF at len(buf) |
| Scanner.NumberFrac | parser.go:248-269 | nothing, or `.` and at least one digit, with a byte after it; `.` followed by a non-digit is an error at pos+1; `.` with digits up to the end, or no byte at pos, is EOF at len(buf) |
| Scanner.NumberExp | parser.go:218-246 | nothing, or `e`/`E`, an optional sign and at least one digit, with a byte after it; a non-digit where the first exponent digit is due is an error at that offset; running out of bytes is EOF at len(buf) |
| Scanner.NumberScan | parser.go:200-216 | a successful number ends before the end of the buffer; a failure pins the offending offset |
| Scanner.NumberFailsAtFirstRejectedByte | parser.go:200-288 | a number that fails before the end of the buffer fails at the first byte the number grammar rejects: the bytes before it begin some number, and no number begins with them and that byte |
| Scanner.ParseNumberInt | parser.go:271-288 | the loop computes NumberInt |
| Scanner.ParseNumberFrac | parser.go:248-269 | the loop computes NumberFrac |
| Scanner.ParseNumberExp | parser.go:218-246 | the loop computes NumberExp |
| Scanner.ParseNumber | parser.go:200-216 | parseNumber computes NumberScan |
| Scanner.NumberSpanIsNumber | parser.go:200-216 | the span a successful parseNumber consumes matches the number grammar of section 6 of RFC 8259: an optional minus, `0` or a digit 1-9 followed by digits, an optional fraction, an optional exponent |
| Scanner.NumberTextIsScanned | parser.go:200-216 | conversely, a span matching the grammar, followed by a byte that cannot extend it, is scanned exactly to its end |
| Scanner.StringScan | parser.go:364-395 | success needs a quote at pos and ends one past a quote; a failure pins the offending offset |
| Scanner.ParseString | parser.go:364-395 | the loop with its escapeNext flag computes StringScan |
| Scanner.StringEndsAtFirstClosingQuote | parser.go:375-394 | the string ends one past the first quote that follows an even run of backslashes; with no such quote, EOF at len(buf) |
| Values.ValueScan | parser.go:412-436 | a successful value consumes at least one byte; a failure pins the offending offset |
| Values.ArrayScan | parser.go:93-104 | a successful array ends one past `]` |
| Values.ArrayNext | parser.go:107-121 | the head of a loop turn: either the next value's offset (not `]`, not whitespace), or EndArray one past `]`, or a placed error |
| Values.ArrayLoop | parser.go:106-128 | a loop that succeeds ends one past `]`, within the buffer |
| Values.ObjectScan | parser.go:301-312 | a successful object ends one past `}` |
| Values.ObjectNext | parser.go:315-329 | as ArrayNext, with `}` and EndObject |
| Values.MemberValue | parser.go:330-343 | key, colon and value; a failure pins its offset |
| Values.ObjectLoop | parser.go:314-346 | a loop that succeeds ends one past `}`, within the buffer |
| Values.ParseValue | parser.go:412-436 | the dispatcher computes ValueScan |
| Values.ParseArray | parser.go:93-129 | parseArray's loop computes ArrayScan |
| Values.ParseObject | parser.go:301-347 | parseObject's loop computes ObjectScan |
| Values.DepthsBelowLimit | parser.go:31-37 | a container may open exactly at depths 0 to 63 when maxDepth is 0, at 0 to maxDepth-1 when it is positive, and at no depth when it is negative |
| Values.DepthLimitStopsAtBracket | parser.go:31-37 | at or past the limit (64 when maxDepth is 0, otherwise maxDepth), or below zero, a container fails with DepthLimit at its opening byte and consumes nothing |
| Values.WithinDepthLimitOpens | parser.go:429-432 | within the limit, a container is scanned at depth+1 |
| Values.ArrayTrailingComma | parser.go:108-121 | after a value, a comma and then `]` end the array |
| Values.ArrayDoubleComma | parser.go:108-125 | a second comma fails the array at that comma |
| Values.ArrayLeadingComma | parser.go:119-125 | a comma right after `[` fails at that comma |
| Values.ArrayAfterValue | parser.go:131-144 | after a value, any byte other than `,` or `]` fails the array at that byte |
| Values.ObjectTrailingComma | parser.go:316-329 | after a member, a comma and then `}` end the object |
| Values.ObjectDoubleComma | parser.go:316-333 | a second comma fails the object at that comma |
| Values.ObjectAfterMember | parser.go:349-362 | after a member, any byte other than `,` or `}` fails the object at that byte |
| Pairs.MemberScan | parser.go:68-89 | one member yields exactly one pair and ends within the buffer; on failure no pair, and the error pins its offset |
| Pairs.MemberScanOk | parser.go:68-88 | the pair's keyBytes is buf[keyStart:keyEnd], its keyUnquoted is the unquoting, and its valueBytes is buf[valueStart:valueEnd] of the scanned value |
| Pairs.PairsLoopExtends | parser.go:89 | the loop only appends: the pairs found so far stay at the front, in order |
| Pairs.PairsLoopMembers | parser.go:51-90 | each turn of the loop adds the member it reads at offsets after those of the members before it |
| Pairs.TopLevelMembersInOrder | parser.go:44-91 | parse's pairs are members of buf in source order, duplicates kept: pairs[i] is the member scanned from ks[i] to es[i], each starting after the previous one ends, and on success the last ends before n |
| Pairs.PairsLoopEnds | parser.go:51-90 | a loop that succeeds ends one past a `}` within the buffer |
| Pairs.TopLevelEnds | parser.go:44-91 | on success n is one past the closing `}` with 0 < n <= len(buf); on failure the error pins the offending offset |
| Pairs.PairsLoopDoubleComma | parser.go:53-71 | at the top level too, a second comma fails at that comma, keeping the pairs found so far |
| Pairs.TopLevelNeedsObject | parser.go:46-50 | a first token other than `{` is an error at its offset |
| Pairs.TopLevelOfBlank | parser.go:46-50 | empty or all-whitespace input is UnexpectedEOF at len(buf) |
| Pairs.Parse | parser.go:44-91 | parse's loop computes TopLevel |
| Keys.Unquote | parser.go:74 | a key that unquotes is at least two bytes, opening and closing with a quote |
| Keys.PlainUnescapesToItself | parser.go:74 | a key without escapes, quotes or control bytes unquotes to its inner bytes |
| Keys.UnquoteQuote | parser.go:74 | Quote is a right inverse of the unquoting: every byte string comes back from its quoted form |
| Reorder.MembersSnoc | reorder.go:37-42 | writing one more pair appends a comma, unless it is the first, and then key, `:`, value |
| Reorder.IndicesOfExactly | reorder.go:24-27 | keyPositions[key] lists exactly the indices of the pairs with that unquoted key, increasing and in range |
| Reorder.CollectKeyPositions | reorder.go:24-27 | the loop builds a map whose every lookup, a missing key included, is IndicesOf |
| Reorder.FrontMembers | reorder.go:31-46 | the loop over firstKeys writes exactly the pairs whose key is a priority key, each once |
| Reorder.RepeatedKeyAddsNothing | reorder.go:33-35 | a priority key that has already appeared adds nothing |
| Reorder.NewKeyMovesAllItsPairs | reorder.go:31-46 | a new priority key appends all its pairs, in source order |
| Reorder.AbsentKeyIsIgnored | reorder.go:31-32 | a priority key that no pair has is ignored |
| Reorder.RestKeepsSourceOrder | reorder.go:47-58 | after the priority groups come exactly the pairs with no priority key, in source order |
| Reorder.OrderIsPermutation | reorder.go:29-58 | the written order is a permutation of the pair indices: every pair is written exactly once |
| Reorder.ReorderSpec | reorder.go:15-61 | dest is always a preserved prefix; on error dest comes back unchanged, with the parser's n and a placed error; on success n <= len(src) |
| Reorder.WriteKeyGroup | reorder.go:32-45 | the inner loop writes the positions not yet in skip and adds them to skip |
| Reorder.WriteFirstKeys | reorder.go:30-46 | after `{` and the loop over firstKeys, the written text is Front's pairs, and skip holds their indices |
| Reorder.WriteRemaining | reorder.go:47-58 | the loop over the pairs writes those not in skip, in source order |
| Reorder.AppendReordered | reorder.go:24-59 | the result is dest + `{` + the entries in Order, comma-separated + `}` |
| Reorder.ArrangeIsIdempotent | reorder.go:29-58 | arranging the arranged pairs again with the same first keys changes nothing |
| Reorder.Reorder | reorder.go:15-61 | reorder computes ReorderSpec: with no firstKeys (dest ++ src, len(src), nil), without calling the parser |
| Locality.ValueShift | parser.go:412-436 | a value scans the same wherever its bytes and the byte after them are moved |
| Locality.TopLevelIsLocal | parser.go:44-91 | parse reads nothing past the closing brace: a buffer with the same first n bytes parses the same |
| Locality.TopLevelOfObjectAlone | parser.go:65-66 | the object alone, buf[:n], parses to the same result |
| Locality.TopLevelIgnoresTail | parser.go:44-91 | appending any bytes after a parsed object changes nothing |
| RoundTrip.ParsedPairsScan | parser.go:68-88 | each parsed key is a whole string token by itself that unquotes to keyUnquoted, and each value a whole value by itself |
| RoundTrip.ObjectTextParses | reorder.go:30-59 | `{k:v,...}` written from such pairs parses back to exactly those pairs, with n the whole text |
| RoundTrip.ParseRoundTrip | fuzz_test.go:14-40 | re-serialising the parsed pairs and parsing again succeeds with the same pairs (hence the same keyUnquoted and valueBytes) |
| RoundTrip.ReorderedParses | reorder.go:3-14 | reorder's output parses to the pairs in their new order: only top-level pairs move, and each value is carried byte for byte |
| RoundTrip.ReorderIsIdempotent | reorder.go:15-61 | reordering reorder's output again with the same first keys gives it back unchanged, all of it consumed |
| RoundTrip.SpacedRead | parser.go:51-90 | members each preceded by whitespace, after `{` or after a comma, are read as if the whitespace were not there |
| RoundTrip.SpacedTextParses | parser.go:44-91 | an object with whitespace after `{` and after its commas parses to exactly its pairs, with n the whole text |
| RoundTrip.ReorderDropsSpacing | reorder.go:3-14 | reorder drops the whitespace between top-level members: the spaced object is written as the arranged pairs with no whitespace, the same output as for the unspaced object |
| Writers.Output.Write | writer_json.go:17 | a write that fits is taken whole and reports its length; a larger one fails and takes nothing |
| Writers.ObjectThenNewline | writer_json.go:28-33 | the object and then "\n" are written; when the object's write fails, no newline is written; n is the reorder's, whatever the writes report |
| Writers.WriterDecision | writer_json.go:10-34 | falls back to the event on a reorder error or a non-whitespace byte after the object; otherwise writes the object and newline and returns len(event) |
| Writers.WriterWritesReordered | writer_json.go:19-33 | with only whitespace after the object: n = len(event); the output gets the reordered object and "\n" when both fit, the object alone and an error when only the object fits, nothing and an error otherwise |
| Writers.WriterPassesEventThrough | writer_json.go:13-27 | on a reorder failure or trailing garbage, the output receives exactly the event |
| Writers.WriterWithoutKeys | writer_json.go:12 | with no FirstKeys the output receives event ++ "\n" |
| Writers.WriterRejectsTrailingBytes | writer_json.go:19-27 | a non-whitespace byte anywhere after a well-formed object makes Writer.Write pass the whole event through |
| Writers.TryReorder | writer_json.go:36-47 | reorder cannot panic here, so tryReorder returns exactly reorder's result |
| Writers.Writer.Write | writer_json.go:10-34 | the output's new contents, its room and (n, err) are as WriterSpec says |
| Writers.ZordPassesEventThrough | zord_writer_json.go:7-13 | on a reorder error the output receives exactly the event |
| Writers.ZordWritesReordered | zord_writer_json.go:14-19 | on success the output receives the reordered object then "\n", n is parse's n, and a failed object write is followed by no newline |
| Writers.ZordDropsTrailingBytes | zord_writer_json.go:7-19 | there is no trailing-bytes check: bytes after the object are dropped and change nothing |
| Writers.ZordWithoutKeys | zord_writer_json.go:7-19 | with no FirstKeys the output receives event ++ "\n" |
| Writers.ZordWriter.Write | zord_writer_json.go:5-20 | the output's new contents, its room and (n, err) are as ZordWriterSpec says |
| Cases.EmptyInputIsEof | reorder_test.go:56-61 | empty input: UnexpectedEOF at 0, nothing written |
| Cases.ArrayIsNotAnObject | reorder_test.go:68-73 | `    []`: an error at offset 4 |
| Cases.EmptyObjectStays | reorder_test.go:62-67 | `{}` stays `{}`, with n = 2 |
| Cases.FirstKeyMovesToFront | reorder.go:29-58 | `{"b":1,"a":2}` with first key `a` becomes `{"a":2,"b":1}` |
| Cases.StringValuesCase | reorder_test.go:80-85 | `{"aaa":"foo", "bbb":"bar", "ccc":"qux", "":"",  "<":""}` with first keys `ddd`, `bbb`, "", `bbb` becomes `{"bbb":"bar","":"","aaa":"foo","ccc":"qux","<":""}`, all 55 bytes consumed |
| Cases.InvalidNumberDotLetter | reorder_test.go:189-193 | `"ccc":11.e` as third member: the error is at offset 36 and nothing is written |
| Cases.InvalidNumberSecondDot | reorder_test.go:195-199 | `"ccc":11.11.11`: the number ends at the second dot, and the error is at offset 38 |
| Cases.InvalidNumberLetter | reorder_test.go:201-205 | `"ccc":1x1`: the number is `1`, and the error is at the `x`, offset 34 |
| Cases.InvalidNumberExponentDot | reorder_test.go:207-211 | `"ccc":1e.1`: no digit after the `e`, and the error is at offset 35 |

## Left out

- The text of the errors the scanner builds with `fmt.Errorf` (the "array comma: unexpected 0x%X" messages). Each is modelled by its kind and
  its offset. `Errors.ErrorText` takes the text of an untagged cause as a
  parameter.
- `jsonconv.Unquote` is foreign code. The parser takes the key decoder as a
  parameter, so every parser lemma holds for any decoder. `Keys.Unquote` is
  a stand-in that follows section 7 of RFC 8259; the real function may
  differ on lone surrogates and invalid UTF-8.
- `io.Writer` is reduced to a byte sequence with a capacity. A write either
  takes all its bytes or fails having taken none. Short writes and other
  failure modes are not modelled.
- Go's `panic`/`recover` in `tryReorder` is not modelled. The model is total,
  and every index is proved in bounds, so there is nothing to recover from.
  `Writers.TryReorder` therefore returns reorder's result.
- Go slices alias the input: `keyBytes` and `valueBytes` share memory with
  `src`, and `append` may reuse `dest`'s capacity. Sequences are values, so
  the model describes the bytes, not the sharing.
- Bounded integers: offsets and depths are unbounded `int`. Go's `int` cannot
  overflow here, because offsets are below `len(buf)` and depth is capped.
- Not modelled:
  - the struct definitions and constructors in writer.go and zord_writer.go;
  - `DefaultFirstKeys` in defaults.go and default.go (zerolog constants);
  - sorted_writer.go (a comparison-only writer on `encoding/json`);
  - writer_cbor.go (a pass-through under a build tag);
  - the benchmarks.
- That reorder drops only whitespace between top-level tokens is proved for
  whitespace after `{` and after each comma (`RoundTrip.ReorderDropsSpacing`),
  not for whitespace before a comma, around a colon, or before `}`.
  For those, `RoundTrip.ReorderedParses` and `Reorder.AppendReordered` state
  the output as the pairs' own spans joined by `:` and `,`.
