/**
 * `stream_json_array` from json_utils.py: reads a file holding a JSON
 * array and hands its items out in lists of `chunk_size`.  The file's text
 * is a parameter, and the JSON decoder (`json.JSONDecoder.raw_decode`) is
 * a function parameter: given the text and a position it either decodes
 * one value, consuming at least one character, or fails.
 */
module ArrayStream {
  import opened Wrappers
  import opened JsonValue

  /** What `raw_decode(content, pos)` gives: a value and how many characters it used, or a decode error. */
  datatype Decoded = Value(v: Json, used: Used) | Failure

  type Used = n: nat | n >= 1 witness 1

  type Decoder = (string, nat) -> Decoded

  datatype StreamError =
    | NotAnArray           // the file's first character is not `[`
    | DecodeError(pos: nat)  // a value failed to decode at `pos` and the text there does not close the array

  /** Everything the generator yields, in order, and the error it raises at the end, if any. */
  datatype Stream = Stream(chunks: seq<seq<Json>>, failure: Option<StreamError>)

  /** The items the loop decodes from `pos` on, and the position of a fatal decode error. */
  datatype Scanned = Scanned(items: seq<Json>, error: Option<nat>)

  // ---------------------------------------------------------------------
  // Chunks
  // ---------------------------------------------------------------------

  function Flatten(chunks: seq<seq<Json>>): (r: seq<Json>) {
    if chunks == [] then [] else chunks[0] + Flatten(chunks[1..])
  }

  /** All of `items` cut into lists of `n`, the last one shorter when `n` does not divide the count. */
  function Chunked(items: seq<Json>, n: nat): (r: seq<seq<Json>>)
    requires n >= 1
    decreases |items|
  {
    if |items| <= n then (if items == [] then [] else [items])
    else [items[..n]] + Chunked(items[n..], n)
  }

  /** Only the full lists of `n`: what has been yielded when an error ends the stream. */
  function FullChunks(items: seq<Json>, n: nat): (r: seq<seq<Json>>)
    requires n >= 1
    decreases |items|
  {
    if |items| < n then [] else [items[..n]] + FullChunks(items[n..], n)
  }

  /** The chunks put back together are the items, in order. */
  lemma {:induction false} ChunkedFlatten(items: seq<Json>, n: nat)
    requires n >= 1
    ensures Flatten(Chunked(items, n)) == items
    decreases |items|
  {
    if |items| > n {
      ChunkedFlatten(items[n..], n);
      assert items[..n] + items[n..] == items;
    }
  }

  /** Every chunk but the last holds exactly `n` items, the last holds between 1 and `n`. */
  lemma {:induction false} ChunkedSizes(items: seq<Json>, n: nat)
    requires n >= 1
    ensures var c := Chunked(items, n);
      && (forall i :: 0 <= i < |c| - 1 ==> |c[i]| == n)
      && (c != [] ==> 1 <= |c[|c| - 1]| <= n)
      && (c == [] <==> items == [])
    decreases |items|
  {
    if |items| > n {
      ChunkedSizes(items[n..], n);
    }
  }

  /** Before an error, the items yielded are a prefix of those decoded, short of them by fewer than `n`. */
  lemma {:induction false} FullChunksPrefix(items: seq<Json>, n: nat)
    requires n >= 1
    ensures var f := Flatten(FullChunks(items, n));
      && f <= items && |items| - |f| < n
      && forall i :: 0 <= i < |FullChunks(items, n)| ==> |FullChunks(items, n)[i]| == n
    decreases |items|
  {
    if |items| >= n {
      FullChunksPrefix(items[n..], n);
      var rest := Flatten(FullChunks(items[n..], n));
      assert Flatten(FullChunks(items, n)) == items[..n] + rest;
      assert items == items[..n] + items[n..];
    }
  }

  /** Cutting 2500 items by 1000 gives lists of 1000, 1000 and 500. */
  lemma ChunksOf2500(items: seq<Json>)
    requires |items| == 2500
    ensures |Chunked(items, 1000)| == 3
    ensures |Chunked(items, 1000)[0]| == 1000 && |Chunked(items, 1000)[1]| == 1000 && |Chunked(items, 1000)[2]| == 500
  {
    var r1 := items[1000..];
    var r2 := r1[1000..];
    assert Chunked(r2, 1000) == [r2];
    assert Chunked(r1, 1000) == [r1[..1000]] + [r2];
  }

  /** Full chunks followed by a short remainder are exactly what `Chunked` and `FullChunks` cut. */
  lemma ChunksOfParts(chunks: seq<seq<Json>>, rest: seq<Json>, n: nat)
    requires n >= 1 && |rest| < n
    requires forall i :: 0 <= i < |chunks| ==> |chunks[i]| == n
    ensures Chunked(Flatten(chunks) + rest, n) == chunks + (if rest == [] then [] else [rest])
    ensures FullChunks(Flatten(chunks) + rest, n) == chunks
  {
    ChunkedOfParts(chunks, rest, n);
    FullChunksOfParts(chunks, rest, n);
  }

  lemma {:induction false} ChunkedOfParts(chunks: seq<seq<Json>>, rest: seq<Json>, n: nat)
    requires n >= 1 && |rest| < n
    requires forall i :: 0 <= i < |chunks| ==> |chunks[i]| == n
    ensures Chunked(Flatten(chunks) + rest, n) == chunks + (if rest == [] then [] else [rest])
  {
    if chunks == [] {
      assert Flatten(chunks) + rest == rest;
    } else {
      ChunkedOfParts(chunks[1..], rest, n);
      var all := Flatten(chunks) + rest;
      var tail := Flatten(chunks[1..]) + rest;
      FirstChunk(chunks, rest, n);
      assert chunks == [chunks[0]] + chunks[1..];
      if tail == [] {
        assert chunks[1..] == [] && rest == [];
        assert Chunked(all, n) == [all];
      } else {
        assert Chunked(all, n) == [chunks[0]] + Chunked(tail, n);
      }
    }
  }

  lemma {:induction false} FullChunksOfParts(chunks: seq<seq<Json>>, rest: seq<Json>, n: nat)
    requires n >= 1 && |rest| < n
    requires forall i :: 0 <= i < |chunks| ==> |chunks[i]| == n
    ensures FullChunks(Flatten(chunks) + rest, n) == chunks
  {
    if chunks == [] {
      assert Flatten(chunks) + rest == rest;
    } else {
      FullChunksOfParts(chunks[1..], rest, n);
      var all := Flatten(chunks) + rest;
      var tail := Flatten(chunks[1..]) + rest;
      FirstChunk(chunks, rest, n);
      assert chunks == [chunks[0]] + chunks[1..];
      assert FullChunks(all, n) == [chunks[0]] + FullChunks(tail, n);
    }
  }

  /** The first `n` items of full chunks and a remainder are the first chunk. */
  lemma FirstChunk(chunks: seq<seq<Json>>, rest: seq<Json>, n: nat)
    requires n >= 1 && chunks != [] && |chunks[0]| == n
    ensures var all := Flatten(chunks) + rest;
      && |all| >= n && all[..n] == chunks[0] && all[n..] == Flatten(chunks[1..]) + rest
  {
    var all := Flatten(chunks) + rest;
    assert all == chunks[0] + (Flatten(chunks[1..]) + rest);
  }

  // ---------------------------------------------------------------------
  // The decoding loop
  // ---------------------------------------------------------------------

  /** The position of the first non-blank character at or after `pos`. */
  function SkipBlanks(content: string, pos: nat): (p: nat)
    requires pos <= |content|
    ensures pos <= p <= |content|
    decreases |content| - pos
  {
    if pos < |content| && IsSpace(content[pos]) then SkipBlanks(content, pos + 1) else pos
  }

  /** The loop's `pos + len(content[pos:]) - len(content[pos:].lstrip())` is that position. */
  lemma {:induction false} SkipBlanksStrip(content: string, pos: nat)
    requires pos <= |content|
    ensures LStrip(content[pos..]) == content[SkipBlanks(content, pos)..]
    decreases |content| - pos
  {
    if pos < |content| && IsSpace(content[pos]) {
      SkipBlanksStrip(content, pos + 1);
      assert content[pos..][1..] == content[pos + 1..];
    }
  }

  /** Whether the text from `p` on, stripped, starts with `]`: a failed decode there ends the loop quietly. */
  predicate ClosesArray(content: string, p: nat)
    requires p <= |content|
  {
    StartsWith(Strip(content[p..]), "]")
  }

  /**
   * The `while pos < len(content)` loop from `pos` on: skip blanks, decode
   * one value, skip one comma right after it.  A failed decode ends the
   * loop quietly when the rest of the text starts with `]` once stripped,
   * and ends it with an error otherwise.
   */
  function Scan(content: string, pos: nat, decode: Decoder): (r: Scanned)
    ensures r.error.Some? ==> pos <= r.error.value < |content|
    decreases |content| - pos
  {
    if pos >= |content| then Scanned([], None)
    else
      var p := SkipBlanks(content, pos);
      if p == |content| then Scanned([], None)
      else match decode(content, p)
        case Failure =>
          if ClosesArray(content, p) then Scanned([], None) else Scanned([], Some(p))
        case Value(v, used) =>
          var q := p + used;
          var next := if q < |content| && content[q] == ',' then q + 1 else q;
          var rest := Scan(content, next, decode);
          Scanned([v] + rest.items, rest.error)
  }

  /** A scan fails only where the decoder fails and the stripped rest of the text does not start with `]`. */
  lemma {:induction false} ScanErrorCause(content: string, pos: nat, decode: Decoder)
    ensures var r := Scan(content, pos, decode);
      r.error.Some? ==> decode(content, r.error.value).Failure? && !ClosesArray(content, r.error.value)
    decreases |content| - pos
  {
    if pos < |content| {
      var p := SkipBlanks(content, pos);
      if p < |content| && decode(content, p).Value? {
        var q := p + decode(content, p).used;
        var next := if q < |content| && content[q] == ',' then q + 1 else q;
        ScanErrorCause(content, next, decode);
      }
    }
  }

  /** `chunk_size` as the loop uses it: a size below 1 yields every item on its own. */
  function ChunkLength(chunkSize: int): (n: nat)
    ensures n >= 1 && (chunkSize >= 1 ==> n == chunkSize)
  {
    if chunkSize < 1 then 1 else chunkSize
  }

  /** Everything `stream_json_array` yields for a file whose text is `text`. */
  function StreamOf(text: string, chunkSize: int, decode: Decoder): (r: Stream)
    ensures (text == [] || text[0] != '[') ==> r == Stream([], Some(NotAnArray))
    ensures r.failure.Some? && r.failure.value.DecodeError? ==> r.failure.value.pos < |Strip(text)|
  {
    if text == [] || text[0] != '[' then Stream([], Some(NotAnArray))
    else
      var content := Strip(text);
      var s := Scan(content, 1, decode);
      var n := ChunkLength(chunkSize);
      match s.error
      case None => Stream(Chunked(s.items, n), None)
      case Some(p) => Stream(FullChunks(s.items, n), Some(DecodeError(p)))
  }

  /**
   * The stream raises a decode error exactly where the decoder fails and
   * the stripped rest of the text does not start with `]`; a failure
   * before a `]` ends the stream without one.
   */
  lemma StreamErrorCause(text: string, chunkSize: int, decode: Decoder)
    ensures var r := StreamOf(text, chunkSize, decode);
      r.failure.Some? && r.failure.value.DecodeError? ==>
        decode(Strip(text), r.failure.value.pos).Failure? && !ClosesArray(Strip(text), r.failure.value.pos)
  {
    if text != [] && text[0] == '[' {
      ScanErrorCause(Strip(text), 1, decode);
    }
  }

  /** A text that starts with `[` still starts with `[` once stripped. */
  lemma StripKeepsBracket(text: string)
    requires text != [] && text[0] == '['
    ensures Strip(text) != [] && Strip(text)[0] == '['
  {
    assert !IsSpace('[');
  }

  /** With no decode error, the chunks hold every decoded item in order, cut into lists of `chunk_size`. */
  lemma StreamItems(text: string, chunkSize: int, decode: Decoder)
    requires text != [] && text[0] == '['
    requires StreamOf(text, chunkSize, decode).failure.None?
    ensures var r := StreamOf(text, chunkSize, decode);
      && Flatten(r.chunks) == Scan(Strip(text), 1, decode).items
      && forall i :: 0 <= i < |r.chunks| - 1 ==> |r.chunks[i]| == ChunkLength(chunkSize)
  {
    StripKeepsBracket(text);
    var s := Scan(Strip(text), 1, decode);
    ChunkedFlatten(s.items, ChunkLength(chunkSize));
    ChunkedSizes(s.items, ChunkLength(chunkSize));
  }

  /** No chunk the generator yields is empty. */
  lemma {:induction false} StreamChunksNonEmpty(text: string, chunkSize: int, decode: Decoder)
    ensures ChunksNonEmpty(StreamOf(text, chunkSize, decode).chunks)
  {
    if text != [] && text[0] == '[' {
      var s := Scan(Strip(text), 1, decode);
      var n := ChunkLength(chunkSize);
      if s.error.None? {
        assert StreamOf(text, chunkSize, decode).chunks == Chunked(s.items, n);
        ChunkedNonEmpty(s.items, n);
      } else {
        assert StreamOf(text, chunkSize, decode).chunks == FullChunks(s.items, n);
        FullChunksNonEmpty(s.items, n);
      }
    }
  }

  lemma ChunkedNonEmpty(items: seq<Json>, n: nat)
    requires n >= 1
    ensures ChunksNonEmpty(Chunked(items, n))
  {
    ChunkedSizes(items, n);
  }

  lemma FullChunksNonEmpty(items: seq<Json>, n: nat)
    requires n >= 1
    ensures ChunksNonEmpty(FullChunks(items, n))
  {
    FullChunksPrefix(items, n);
  }

  predicate ChunksNonEmpty(chunks: seq<seq<Json>>) {
    forall i :: 0 <= i < |chunks| ==> chunks[i] != []
  }

  /** After a decode error, what was yielded is a prefix of the decoded items, in full chunks only. */
  lemma StreamItemsOnError(text: string, chunkSize: int, decode: Decoder)
    requires text != [] && text[0] == '['
    requires StreamOf(text, chunkSize, decode).failure.Some?
    ensures var r := StreamOf(text, chunkSize, decode);
      && Flatten(r.chunks) <= Scan(Strip(text), 1, decode).items
      && forall i :: 0 <= i < |r.chunks| ==> |r.chunks[i]| == ChunkLength(chunkSize)
  {
    StripKeepsBracket(text);
    FullChunksPrefix(Scan(Strip(text), 1, decode).items, ChunkLength(chunkSize));
  }

  /** An array whose first item fails to decode while the text there is `]` is empty: nothing is yielded. */
  lemma EmptyArray(decode: Decoder, chunkSize: int)
    requires decode("[]", 1).Failure?
    ensures StreamOf("[]", chunkSize, decode) == Stream([], None)
  {
    var c := "[]";
    StripFixed(c);
    SkipNone(c, 1);
    StripFixed(c[1..]);
    ScanFailure(c, 1, 1, decode);
  }

  /** Only a comma right after a value is skipped: in `[1 ,2]` the decoder meets the comma and the stream fails there. */
  lemma SpaceBeforeCommaFails(decode: Decoder, chunkSize: int)
    requires decode("[1 ,2]", 1) == Value(JInt(1), 1) && decode("[1 ,2]", 3).Failure?
    ensures StreamOf("[1 ,2]", chunkSize, decode).failure == Some(DecodeError(3))
  {
    StripFixed("[1 ,2]");
    SpaceBeforeCommaScan(decode);
  }

  lemma SpaceBeforeCommaScan(decode: Decoder)
    requires decode("[1 ,2]", 1) == Value(JInt(1), 1) && decode("[1 ,2]", 3).Failure?
    ensures Scan("[1 ,2]", 1, decode).error == Some(3)
  {
    SkipNone("[1 ,2]", 1);
    ScanValue("[1 ,2]", 1, 1, 2, decode);
    CommaScan(decode);
  }

  /** From the blank before the comma, the scan stops at the comma with an error. */
  lemma CommaScan(decode: Decoder)
    requires decode("[1 ,2]", 3).Failure?
    ensures Scan("[1 ,2]", 2, decode) == Scanned([], Some(3))
  {
    var c := "[1 ,2]";
    SkipOne(c, 2);
    SkipNone(c, 3);
    StripFixed(c[3..]);
    ScanFailure(c, 2, 3, decode);
  }

  /** A trailing comma before `]` ends the array quietly when the decoder fails on the `]`. */
  lemma TrailingCommaEnds(decode: Decoder, chunkSize: int)
    requires decode("[1,]", 1) == Value(JInt(1), 1) && decode("[1,]", 3).Failure?
    ensures StreamOf("[1,]", chunkSize, decode) == Stream([[JInt(1)]], None)
  {
    StripFixed("[1,]");
    TrailingCommaScan(decode);
    assert Chunked([JInt(1)], ChunkLength(chunkSize)) == [[JInt(1)]];
  }

  lemma TrailingCommaScan(decode: Decoder)
    requires decode("[1,]", 1) == Value(JInt(1), 1) && decode("[1,]", 3).Failure?
    ensures Scan("[1,]", 1, decode) == Scanned([JInt(1)], None)
  {
    var c := "[1,]";
    SkipNone(c, 1);
    ScanValue(c, 1, 1, 3, decode);
    SkipNone(c, 3);
    StripFixed(c[3..]);
    ScanFailure(c, 3, 3, decode);
  }

  /** Text after the closing `]` is never read: `[1] junk` yields its one item and no error. */
  lemma JunkAfterArrayIgnored(decode: Decoder, chunkSize: int)
    requires decode("[1] junk", 1) == Value(JInt(1), 1) && decode("[1] junk", 2).Failure?
    ensures StreamOf("[1] junk", chunkSize, decode) == Stream([[JInt(1)]], None)
  {
    StripFixed("[1] junk");
    JunkAfterArrayScan(decode);
    assert Chunked([JInt(1)], ChunkLength(chunkSize)) == [[JInt(1)]];
  }

  lemma JunkAfterArrayScan(decode: Decoder)
    requires decode("[1] junk", 1) == Value(JInt(1), 1) && decode("[1] junk", 2).Failure?
    ensures Scan("[1] junk", 1, decode) == Scanned([JInt(1)], None)
  {
    var c := "[1] junk";
    SkipNone(c, 1);
    ScanValue(c, 1, 1, 2, decode);
    SkipNone(c, 2);
    StripFixed(c[2..]);
    ScanFailure(c, 2, 2, decode);
  }

  /** A text with no blank at either end is its own strip. */
  lemma StripFixed(s: string)
    requires s != [] && !IsSpace(s[0]) && !IsSpace(s[|s| - 1])
    ensures Strip(s) == s
  {
    assert RStrip(s) == s;
  }

  /** Skipping blanks at a blank moves past it. */
  lemma SkipOne(s: string, pos: nat)
    requires pos < |s| && IsSpace(s[pos])
    ensures SkipBlanks(s, pos) == SkipBlanks(s, pos + 1)
  {
  }

  /** Skipping blanks at a non-blank character stays put. */
  lemma SkipNone(s: string, pos: nat)
    requires pos < |s| && !IsSpace(s[pos])
    ensures SkipBlanks(s, pos) == pos
  {
  }

  // ---------------------------------------------------------------------
  // The generator itself
  // ---------------------------------------------------------------------

  /** `stream_json_array`: the chunks it yields and the error it raises after them, if any. */
  method StreamJsonArray(text: string, chunkSize: int, decode: Decoder) returns (out: Stream)
    ensures out == StreamOf(text, chunkSize, decode)
  {
    if text == [] || text[0] != '[' {
      return Stream([], Some(NotAnArray));
    }
    var content := Strip(text);
    StripKeepsBracket(text);
    var pos := 0;
    if content[0] == '[' {
      pos := 1;
    }
    var chunks, items, failedAt := DecodeLoop(content, pos, chunkSize, decode);
    ChunksOfParts(chunks, items, ChunkLength(chunkSize));
    if failedAt.Some? {
      return Stream(chunks, Some(DecodeError(failedAt.value)));
    }
    if items != [] {
      chunks := chunks + [items];
    }
    return Stream(chunks, None);
  }

  /**
   * The `while pos < len(content)` loop: the chunks it has yielded, the
   * items still held back, and the position of the decode error that
   * ended it, if one did.
   */
  method DecodeLoop(content: string, start: nat, chunkSize: int, decode: Decoder)
    returns (chunks: seq<seq<Json>>, items: seq<Json>, failedAt: Option<nat>)
    ensures Flatten(chunks) + items == Scan(content, start, decode).items
    ensures failedAt == Scan(content, start, decode).error
    ensures |items| < ChunkLength(chunkSize)
    ensures forall i :: 0 <= i < |chunks| ==> |chunks[i]| == ChunkLength(chunkSize)
  {
    ghost var n := ChunkLength(chunkSize);
    ghost var all := Scan(content, start, decode);
    var pos := start;
    chunks := [];
    items := [];
    ghost var done: seq<Json> := [];
    while pos < |content|
      invariant |items| < n && forall i :: 0 <= i < |chunks| ==> |chunks[i]| == n
      invariant done == Flatten(chunks) + items
      invariant all.items == done + Scan(content, pos, decode).items
      invariant all.error == Scan(content, pos, decode).error
      decreases |content| - pos
    {
      var p := SkipBlanks(content, pos);
      if p == |content| {
        assert Scan(content, pos, decode) == Scanned([], None);
        break;
      }
      ghost var before := pos;
      pos := p;
      match decode(content, pos) {
        case Value(v, used) =>
          chunks, items := Collect(chunks, items, v, chunkSize);
          ghost var at := pos;
          pos := pos + used;
          if pos < |content| && content[pos] == ',' {
            pos := pos + 1;
          }
          ScanValue(content, before, at, pos, decode);
          ConsShift(done, v, Scan(content, pos, decode).items);
          done := done + [v];
        case Failure =>
          if ClosesArray(content, pos) {
            assert Scan(content, before, decode) == Scanned([], None) by {
              ScanFailure(content, before, pos, decode);
            }
            break;
          } else {
            assert Scan(content, before, decode) == Scanned([], Some(pos)) by {
              ScanFailure(content, before, pos, decode);
            }
            return chunks, items, Some(pos);
          }
      }
    }
    return chunks, items, None;
  }

  /** `items.append(item)`, and the yield of a full list. */
  method Collect(chunks: seq<seq<Json>>, items: seq<Json>, v: Json, chunkSize: int)
    returns (chunks': seq<seq<Json>>, items': seq<Json>)
    requires |items| < ChunkLength(chunkSize)
    requires forall i :: 0 <= i < |chunks| ==> |chunks[i]| == ChunkLength(chunkSize)
    ensures Flatten(chunks') + items' == Flatten(chunks) + items + [v]
    ensures |items'| < ChunkLength(chunkSize)
    ensures forall i :: 0 <= i < |chunks'| ==> |chunks'[i]| == ChunkLength(chunkSize)
  {
    chunks', items' := chunks, items + [v];
    if |items'| >= chunkSize {
      FlattenSnoc(chunks, items');
      chunks' := chunks + [items'];
      items' := [];
    }
  }

  lemma ConsShift<T>(a: seq<T>, x: T, b: seq<T>)
    ensures a + ([x] + b) == (a + [x]) + b
  {
  }

  lemma {:induction false} ScanFailure(content: string, pos: nat, p: nat, decode: Decoder)
    requires pos < |content| && p == SkipBlanks(content, pos) && p < |content|
    requires decode(content, p).Failure?
    ensures Scan(content, pos, decode) ==
      if ClosesArray(content, p) then Scanned([], None) else Scanned([], Some(p))
  {
  }

  lemma {:induction false} ScanValue(content: string, pos: nat, p: nat, next: nat, decode: Decoder)
    requires pos < |content| && p == SkipBlanks(content, pos) && p < |content|
    requires decode(content, p).Value?
    requires var q := p + decode(content, p).used; next == if q < |content| && content[q] == ',' then q + 1 else q
    ensures Scan(content, pos, decode) ==
      Scanned([decode(content, p).v] + Scan(content, next, decode).items, Scan(content, next, decode).error)
  {
    var rest := Scan(content, next, decode);
    assert Scan(content, pos, decode) == Scanned([decode(content, p).v] + rest.items, rest.error);
  }

  lemma {:induction false} FlattenSnoc(chunks: seq<seq<Json>>, c: seq<Json>)
    ensures Flatten(chunks + [c]) == Flatten(chunks) + c
  {
    if chunks != [] {
      assert (chunks + [c])[1..] == chunks[1..] + [c];
      FlattenSnoc(chunks[1..], c);
    } else {
      assert Flatten([c]) == c + Flatten([]);
    }
  }
}
