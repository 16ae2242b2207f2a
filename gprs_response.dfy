/**
 * How the cellular HTTP client reads a response: it accumulates header bytes until the
 * blank line, takes the status code and `Content-Length` from them, and then reads the
 * body, decoding it when the response is chunked.
 */
module GprsResponse {
  import opened Clock
  import opened Text
  import opened Wrappers

  /** `GPRS_MAX_HEADER_SIZE`: the header text is refused once it reaches this length. */
  const GPRS_MAX_HEADER_SIZE: nat := 1024
  /** `GPRS_BODY_BUFFER_SIZE`: the body buffer keeps at most this many bytes minus one. */
  const GPRS_BODY_BUFFER_SIZE: nat := 1024

  const BlankLine: string := "\r\n\r\n"

  // ----- Headers -----

  /** How the header loop stops. */
  datatype HeaderScan =
    | TooLong(buffer: string, rest: string)     // the buffer reached the maximum header size
    | HeadersEnd(buffer: string, rest: string)  // the buffer now ends with the blank line
    | Drained(buffer: string)                   // no more bytes available for now

  /**
   * The header loop: it appends the available bytes one at a time and after each byte
   * stops when the buffer has reached `GPRS_MAX_HEADER_SIZE` or ends with the blank line.
   */
  function ScanHeaders(buffer: string, rx: string): (r: HeaderScan)
    decreases |rx|
  {
    if |rx| == 0 then Drained(buffer)
    else
      var b := buffer + [rx[0]];
      if |b| >= GPRS_MAX_HEADER_SIZE then TooLong(b, rx[1..])
      else if EndsWith(b, BlankLine) then HeadersEnd(b, rx[1..])
      else ScanHeaders(b, rx[1..])
  }

  /** The buffer holds no blank line yet. */
  predicate NoBlankLine(buffer: string)
  {
    forall j :: 0 <= j < |buffer| ==> !OccursAt(buffer, BlankLine, j)
  }

  /**
   * The header loop consumes a prefix of the available bytes and keeps the rest; it stops
   * at the first blank line, so that blank line ends the header text, and a buffer that
   * stays in the header state still holds no blank line and is shorter than the maximum.
   */
  lemma {:induction false} ScanHeadersSpec(buffer: string, rx: string)
    requires NoBlankLine(buffer) && |buffer| < GPRS_MAX_HEADER_SIZE
    ensures match ScanHeaders(buffer, rx)
      case TooLong(b, rest) => b + rest == buffer + rx && |b| == GPRS_MAX_HEADER_SIZE
      case HeadersEnd(b, rest) =>
        b + rest == buffer + rx && |b| < GPRS_MAX_HEADER_SIZE && EndsWith(b, BlankLine) &&
        IndexOf(b, BlankLine, 0) == |b| - |BlankLine|
      case Drained(b) => b == buffer + rx && NoBlankLine(b) && |b| < GPRS_MAX_HEADER_SIZE
    decreases |rx|
  {
    if |rx| > 0 {
      var b := buffer + [rx[0]];
      assert b + rx[1..] == buffer + rx;
      NoBlankLineBefore(buffer, b);
      if |b| >= GPRS_MAX_HEADER_SIZE {
      } else if EndsWith(b, BlankLine) {
        assert OccursAt(b, BlankLine, |b| - 4);
        IndexOfFirst(b, BlankLine, 0, |b| - 4);
      } else {
        assert NoBlankLine(b);
        ScanHeadersSpec(b, rx[1..]);
        assert b + rx[1..] == buffer + rx;
      }
    } else {
      assert buffer + rx == buffer;
    }
  }

  /** Appending one byte can only create a blank line at the very end. */
  lemma NoBlankLineBefore(buffer: string, b: string)
    requires NoBlankLine(buffer) && |b| == |buffer| + 1 && b[..|buffer|] == buffer
    ensures forall j :: j != |b| - 4 ==> !OccursAt(b, BlankLine, j)
  {
    forall j | j != |b| - 4 && OccursAt(b, BlankLine, j)
      ensures false
    {
      assert b[j..j + 4] == buffer[j..j + 4];
      assert OccursAt(buffer, BlankLine, j);
    }
  }

  /**
   * The status code: the text between the first and the second space, read as a decimal
   * number; `None` when there is no second space.
   */
  function StatusOf(h: string): Option<int>
  {
    var first := IndexOf(h, " ", 0);
    var second := if first != -1 then IndexOf(h, " ", first + 1) else -1;
    if second != -1 && first != -1 && second > first then Some(ToInt(Substring(h, first + 1, second)))
    else None
  }

  /**
   * `Content-Length`: found in the lower-cased header text, its value runs to the next
   * line break and is read with `toInt` into an `unsigned long`; 0 when either is missing.
   */
  function ContentLengthOf(h: string): Millis
  {
    var lower := ToLower(h);
    var at := IndexOf(lower, "content-length:", 0);
    if at == -1 then 0
    else
      var valueStart := at + |"content-length:"|;
      var end := IndexOf(h, "\r\n", valueStart);
      if end == -1 then 0 else ToUnsigned(ToInt(Substring(h, valueStart, end)))
  }

  /** `transfer-encoding: chunked` occurs in the lower-cased header text. */
  predicate IsChunked(h: string)
  {
    Contains(ToLower(h), "transfer-encoding: chunked")
  }

  /** What the header text decides. */
  datatype Head = Head(status: int, contentLength: Millis, chunked: bool, body: string)

  /**
   * The parse at the blank line: the status, the content length (forced to 0 for a chunked
   * response), and the body bytes already in the buffer after the first blank line.
   */
  function ParseHead(h: string): Option<Head>
  {
    match StatusOf(h)
    case None => None
    case Some(status) =>
      var chunked := IsChunked(h);
      var bodyAt := IndexOf(h, BlankLine, 0);
      Some(Head(status,
                if chunked then 0 else ContentLengthOf(h),
                chunked,
                if bodyAt != -1 then SubstringFrom(h, bodyAt + 4) else ""))
  }

  /**
   * Because the loop stops at the first blank line, the body part of the header buffer is
   * always empty: the body starts with nothing read.
   */
  lemma HeadBodyEmpty(h: string)
    requires EndsWith(h, BlankLine) && IndexOf(h, BlankLine, 0) == |h| - 4
    ensures ParseHead(h).Some? ==> ParseHead(h).value.body == ""
    ensures ParseHead(h).Some? ==> ParseHead(h).value.chunked ==> ParseHead(h).value.contentLength == 0
  {
  }

  /** A status line `<version> <code> <reason>` gives its code back. */
  lemma StatusLineRoundTrip(version: string, code: nat, rest: string)
    requires ' ' !in version && code <= LONG_MAX
    ensures StatusOf(version + " " + Numeral(code, 10) + " " + rest) == Some(code)
  {
    var digits := Numeral(code, 10);
    var h := version + " " + digits + " " + rest;
    var first := |version|;
    var second := first + 1 + |digits|;
    assert IndexOf(h, " ", 0) == first by {
      FirstSpace(version, digits + " " + rest);
      assert h == version + " " + (digits + " " + rest);
    }
    assert IndexOf(h, " ", first + 1) == second by {
      SecondSpace(h, first, digits, rest);
    }
    assert ToInt(Substring(h, first + 1, second)) == code by {
      var sub := Substring(h, first + 1, second);
      assert sub == digits + "";
      ToIntNumeral(sub, code, "");
    }
    StatusAt(h, first, second);
  }

  lemma StatusAt(h: string, first: nat, second: nat)
    requires first < second < |h|
    requires IndexOf(h, " ", 0) == first && IndexOf(h, " ", first + 1) == second
    ensures StatusOf(h) == Some(ToInt(Substring(h, first + 1, second)))
  {
  }

  lemma FirstSpace(version: string, tail: string)
    requires ' ' !in version
    ensures IndexOf(version + " " + tail, " ", 0) == |version|
  {
    var h := version + " " + tail;
    forall j | 0 <= j < |version|
      ensures h[j] != ' '
    {
      assert h[j] == version[j];
    }
    assert h[|version|..|version| + 1] == " ";
    IndexOfByFirstChar(h, " ", 0, |version|);
  }

  lemma SecondSpace(h: string, first: nat, digits: string, rest: string)
    requires forall i :: 0 <= i < |digits| ==> IsDigitIn(digits[i], 10)
    requires first + 1 <= |h| && h[first + 1..] == digits + " " + rest
    ensures IndexOf(h, " ", first + 1) == first + 1 + |digits|
  {
    var second := first + 1 + |digits|;
    forall j | first + 1 <= j < second
      ensures h[j] != ' '
    {
      assert h[j] == h[first + 1..][j - first - 1] == digits[j - first - 1];
    }
    assert h[second] == h[first + 1..][|digits|];
    assert h[second..second + 1] == [h[second]];
    IndexOfByFirstChar(h, " ", first + 1, second);
  }

  // ----- Body -----

  /**
   * The body loop: while bytes are available and the buffer holds fewer than
   * `GPRS_BODY_BUFFER_SIZE - 1` bytes, one byte is appended and counted; once it is full
   * the remaining bytes are read and thrown away.
   */
  function ReadBody(buffer: string, read: nat, rx: string): (r: (string, nat))
    decreases |rx|
  {
    if |rx| == 0 then (buffer, read)
    else if |buffer| < GPRS_BODY_BUFFER_SIZE - 1 then ReadBody(buffer + [rx[0]], read + 1, rx[1..])
    else (buffer, read)
  }

  /**
   * The body loop keeps as many of the available bytes as fit below the buffer size and
   * counts exactly the bytes it keeps.
   */
  lemma {:induction false} ReadBodySpec(buffer: string, read: nat, rx: string)
    ensures var (b, n) := ReadBody(buffer, read, rx);
      var keep := if |buffer| >= GPRS_BODY_BUFFER_SIZE - 1 then 0
                  else if |rx| < GPRS_BODY_BUFFER_SIZE - 1 - |buffer| then |rx|
                  else GPRS_BODY_BUFFER_SIZE - 1 - |buffer|;
      b == buffer + rx[..keep] && n == read + keep
    decreases |rx|
  {
    if |rx| > 0 && |buffer| < GPRS_BODY_BUFFER_SIZE - 1 {
      ReadBodySpec(buffer + [rx[0]], read + 1, rx[1..]);
      var keep := if |rx| < GPRS_BODY_BUFFER_SIZE - 1 - |buffer| then |rx| else GPRS_BODY_BUFFER_SIZE - 1 - |buffer|;
      assert buffer + [rx[0]] + rx[1..][..keep - 1] == buffer + rx[..keep];
    }
  }

  /** A non-chunked body is complete when a positive length has been read, or without a length once the peer has closed. */
  predicate PlainBodyComplete(contentLength: nat, read: nat, connected: bool)
  {
    (contentLength > 0 && read >= contentLength) || (contentLength == 0 && !connected)
  }

  // ----- Chunked bodies -----

  /** The outcome of one turn of the chunk loop. */
  datatype ChunkTurn = Stop | Done | Next(pos: nat, piece: string)

  /**
   * The size line at `pos`: where the next line break is, and the text before it (the
   * `substring(pos, e)` of the loop); `None` when no line break follows.
   */
  function SizeLine(buf: string, pos: nat): (r: Option<(nat, string)>)
    ensures r.Some? ==> pos <= r.value.0 < |buf| && OccursAt(buf, "\r\n", r.value.0)
    ensures r.Some? ==> r.value.1 == Substring(buf, pos, r.value.0)
    ensures r.None? ==> forall j :: pos <= j < |buf| ==> !OccursAt(buf, "\r\n", j)
  {
    var e := IndexOf(buf, "\r\n", pos);
    if e == -1 then None else Some((e, buf[pos..e]))
  }

  /**
   * The rest of a turn once a non-zero size is read from the line ending at `e`: a chunk
   * whose end, converted to `unsigned`, lies beyond the buffer stops the loop; otherwise
   * the data is taken with `substring` (which swaps reversed bounds), and the loop goes on
   * two bytes after it unless that is at or past the last byte.
   */
  function TakeChunk(buf: string, e: nat, size: int): ChunkTurn
    requires |buf| < WRAP / 2 && LONG_MIN <= size
  {
    var start := e + 2;
    if ToUnsigned(start + size) > |buf| then Stop
    else
      var piece := Substring(buf, start, ToUnsigned(start + size));
      var next := start + size + 2;
      if next >= |buf| - 1 then Stop else Next(next, piece)
  }

  /** One turn of the chunk loop as written: size 0 completes the body, any other size is taken. */
  function NextChunkAsWritten(buf: string, pos: nat): ChunkTurn
    requires |buf| < WRAP / 2
  {
    match SizeLine(buf, pos)
    case None => Stop
    case Some((e, line)) =>
      var size := ParseLong(line, 16);
      if size == 0 then Done else TakeChunk(buf, e, size)
  }

  /** The decoder's result: whether the terminating chunk was seen, and the data. */
  datatype Dechunked = Dechunked(complete: bool, body: string)

  /** The chunk loop as written, run for at most `fuel` turns; `None` when it has not stopped. */
  function DechunkAsWritten(buf: string, pos: nat, fuel: nat): Option<Dechunked>
    requires |buf| < WRAP / 2
    decreases fuel
  {
    if fuel == 0 then None
    else match NextChunkAsWritten(buf, pos)
      case Stop => Some(Dechunked(false, ""))
      case Done => Some(Dechunked(true, ""))
      case Next(p, piece) =>
        match DechunkAsWritten(buf, p, fuel - 1)
        case None => None
        case Some(d) => Some(Dechunked(d.complete, piece + d.body))
  }

  /** A chunked body whose second chunk has the size `-6`. */
  const NegativeChunkBody: string := "1\r\nX\r\n-6\r\n0\r\n\r\n"

  /** How that body, and every body the loop cannot leave, begins. */
  const NegativeChunkStart: string := "1\r\nX\r\n-6\r\n"

  /** That body holds the end marker, so the body state hands it to the decoder. */
  lemma NegativeChunkBodyComplete()
    ensures |NegativeChunkBody| < WRAP / 2
    ensures Contains(NegativeChunkBody, "\r\n0\r\n\r\n")
    ensures NegativeChunkBody[..|NegativeChunkStart|] == NegativeChunkStart
  {
    assert OccursAt(NegativeChunkBody, "\r\n0\r\n\r\n", 8);
  }

  /**
   * A body that begins with a one-byte chunk and then a size line reading -6 is never
   * decoded by the loop as written: the turn at that line takes the bytes 4..10 (the
   * swapped bounds) and returns to the same position.
   */
  lemma NegativeChunkLoopsForever(buf: string, fuel: nat)
    requires |NegativeChunkStart| <= |buf| < WRAP / 2 && buf[..|NegativeChunkStart|] == NegativeChunkStart
    ensures DechunkAsWritten(buf, 0, fuel) == None
  {
    if fuel > 0 {
      assert buf[0] == '1' && buf[1] == '\r' && buf[2] == '\n' && buf[3] == 'X' by {
        assert buf[..4] == NegativeChunkStart[..4];
      }
      assert buf[6] == '-' && buf[7] == '6' && buf[8] == '\r' && buf[9] == '\n' by {
        assert buf[6..10] == NegativeChunkStart[6..10];
      }
      OneByteSizeLine(buf, 0);
      MinusSixSizeLine(buf, 6);
      FirstTurn(buf);
      MinusSixLoopsForever(buf, 6, fuel - 1);
      EndlessAfterNext(buf, 0, 6, "X", fuel);
    }
  }

  /** A size line reading 1 at `pos`. */
  lemma OneByteSizeLine(buf: string, pos: nat)
    requires pos + 3 <= |buf|
    requires buf[pos] == '1' && buf[pos + 1] == '\r' && buf[pos + 2] == '\n'
    ensures SizeLine(buf, pos) == Some((pos + 1, "1"))
  {
    assert buf[pos + 1..pos + 3] == [buf[pos + 1], buf[pos + 2]];
    IndexOfByFirstChar(buf, "\r\n", pos, pos + 1);
    assert buf[pos..pos + 1] == [buf[pos]];
  }

  /** A size line reading -6 at `pos`. */
  lemma MinusSixSizeLine(buf: string, pos: nat)
    requires pos + 4 <= |buf|
    requires buf[pos] == '-' && buf[pos + 1] == '6' && buf[pos + 2] == '\r' && buf[pos + 3] == '\n'
    ensures SizeLine(buf, pos) == Some((pos + 2, "-6"))
  {
    assert buf[pos + 2..pos + 4] == [buf[pos + 2], buf[pos + 3]];
    IndexOfByFirstChar(buf, "\r\n", pos, pos + 2);
    assert buf[pos..pos + 2] == [buf[pos], buf[pos + 1]];
  }

  /** The first turn takes the one data byte and goes on to the second size line. */
  lemma FirstTurn(buf: string)
    requires 10 <= |buf| < WRAP / 2 && buf[3] == 'X'
    requires SizeLine(buf, 0) == Some((1, "1"))
    ensures NextChunkAsWritten(buf, 0) == Next(6, "X")
  {
    assert ParseLong("1", 16) == 1 by {
      assert Numeral(1, 16) + "" == "1";
      ParseNumeral(1, 16, "");
    }
    AsWrittenTurnAtSize(buf, 0, 1, "1", 1);
    assert TakeChunk(buf, 1, 1) == Next(6, "X") by {
      assert Substring(buf, 3, 4) == [buf[3]];
    }
  }

  /** As written, a size line that reads any non-zero size hands the turn to `TakeChunk`. */
  lemma AsWrittenTurnAtSize(buf: string, pos: nat, e: nat, line: string, size: int)
    requires |buf| < WRAP / 2
    requires SizeLine(buf, pos) == Some((e, line)) && ParseLong(line, 16) == size && size != 0
    ensures NextChunkAsWritten(buf, pos) == TakeChunk(buf, e, size)
  {
  }

  /**
   * Wherever a size line reads -6 (two bytes, so the data would start six bytes on), the
   * turn takes the six bytes before it and goes back to where it started, for ever.
   */
  lemma {:induction false} MinusSixLoopsForever(buf: string, pos: nat, fuel: nat)
    requires |buf| < WRAP / 2 && 2 <= pos
    requires SizeLine(buf, pos) == Some((pos + 2, "-6"))
    ensures DechunkAsWritten(buf, pos, fuel) == None
  {
    if fuel > 0 {
      assert NextChunkAsWritten(buf, pos) == Next(pos, buf[pos - 2..pos + 4]) by {
        MinusSix();
      }
      MinusSixLoopsForever(buf, pos, fuel - 1);
      EndlessAfterNext(buf, pos, pos, buf[pos - 2..pos + 4], fuel);
    }
  }

  /** A loop that goes on to a position from which it never stops never stops either. */
  lemma EndlessAfterNext(buf: string, pos: nat, next: nat, piece: string, fuel: nat)
    requires |buf| < WRAP / 2 && fuel > 0
    requires NextChunkAsWritten(buf, pos) == Next(next, piece)
    requires DechunkAsWritten(buf, next, fuel - 1) == None
    ensures DechunkAsWritten(buf, pos, fuel) == None
  {
  }

  lemma MinusSix()
    ensures ParseLong("-6", 16) == -6
  {
    assert DropSpaces("-6") == "-6";
    assert DigitRun("6", 16) == 1;
    assert DigitsAfterSign("-6", 16) == "6";
    assert ValueOf("6", 16) == 6 by {
      assert "6"[..0] == "";
    }
  }

  /**
   * One turn of the corrected chunk loop: a negative size stops the loop (the body is
   * then not complete), so every turn that goes on moves forward.
   */
  function NextChunk(buf: string, pos: nat): (t: ChunkTurn)
    requires |buf| < WRAP / 2
    ensures t.Next? ==> pos < t.pos < |buf| - 1
  {
    match SizeLine(buf, pos)
    case None => Stop
    case Some((e, line)) =>
      var size := ParseLong(line, 16);
      if size == 0 then Done else if size < 0 then Stop else TakeChunk(buf, e, size)
  }

  /** The correction changes a turn only where the size line reads a negative size. */
  lemma CorrectionOnlyForNegativeSizes(buf: string, pos: nat)
    requires |buf| < WRAP / 2
    ensures NextChunk(buf, pos) != NextChunkAsWritten(buf, pos) ==>
              SizeLine(buf, pos).Some? && ParseLong(SizeLine(buf, pos).value.1, 16) < 0 && NextChunk(buf, pos) == Stop
  {
  }

  /** The corrected chunk loop, which always stops. */
  function Dechunk(buf: string, pos: nat): Dechunked
    requires |buf| < WRAP / 2
    decreases |buf| - pos
  {
    match NextChunk(buf, pos)
    case Stop => Dechunked(false, "")
    case Done => Dechunked(true, "")
    case Next(p, piece) =>
      var d := Dechunk(buf, p);
      Dechunked(d.complete, piece + d.body)
  }

  /** The same loop with the data gathered so far carried along, as the decoder keeps it. */
  function DechunkAcc(buf: string, pos: nat, acc: string): Dechunked
    requires |buf| < WRAP / 2
    decreases |buf| - pos
  {
    match NextChunk(buf, pos)
    case Stop => Dechunked(false, acc)
    case Done => Dechunked(true, acc)
    case Next(p, piece) => DechunkAcc(buf, p, acc + piece)
  }

  /** Carrying the data along only puts it in front of what the rest of the loop decodes. */
  lemma {:induction false} DechunkAccSpec(buf: string, pos: nat, acc: string)
    requires |buf| < WRAP / 2
    ensures DechunkAcc(buf, pos, acc) == Dechunked(Dechunk(buf, pos).complete, acc + Dechunk(buf, pos).body)
    decreases |buf| - pos
  {
    match NextChunk(buf, pos)
    case Stop =>
    case Done =>
    case Next(p, piece) =>
      DechunkAccSpec(buf, p, acc + piece);
      assert (acc + piece) + Dechunk(buf, p).body == acc + (piece + Dechunk(buf, p).body);
  }

  /** The chunked encoding of a list of chunks: each as hex size, CRLF, data, CRLF, then the last chunk. */
  function Encode(chunks: seq<string>): string
  {
    if |chunks| == 0 then "0\r\n\r\n"
    else Numeral(|chunks[0]|, 16) + "\r\n" + chunks[0] + "\r\n" + Encode(chunks[1..])
  }

  function Flatten(chunks: seq<string>): string
  {
    if |chunks| == 0 then "" else chunks[0] + Flatten(chunks[1..])
  }

  predicate NonEmptyChunks(chunks: seq<string>)
  {
    forall i :: 0 <= i < |chunks| ==> 0 < |chunks[i]| <= LONG_MAX
  }

  /** Decoding an encoded body gives the chunks' data back and reports the body complete. */
  lemma {:induction false} DechunkEncode(prefix: string, chunks: seq<string>)
    requires NonEmptyChunks(chunks)
    requires |prefix + Encode(chunks)| < WRAP / 2
    ensures Dechunk(prefix + Encode(chunks), |prefix|) == Dechunked(true, Flatten(chunks))
    decreases |chunks|
  {
    var buf := prefix + Encode(chunks);
    var pos := |prefix|;
    if |chunks| == 0 {
      LastChunkTurn(prefix);
    } else {
      var c := chunks[0];
      var next := prefix + Numeral(|c|, 16) + "\r\n" + c + "\r\n";
      assert buf == next + Encode(chunks[1..]);
      EncodeEndsWithLastChunk(chunks[1..]);
      DataChunkTurn(prefix, c, Encode(chunks[1..]));
      assert NonEmptyChunks(chunks[1..]) by {
        forall i | 0 <= i < |chunks[1..]|
          ensures 0 < |chunks[1..][i]| <= LONG_MAX
        {
          assert chunks[1..][i] == chunks[i + 1];
        }
      }
      DechunkEncode(next, chunks[1..]);
    }
  }

  /** Every encoding ends with the last chunk, so it is at least five bytes long. */
  lemma {:induction false} EncodeEndsWithLastChunk(chunks: seq<string>)
    ensures |Encode(chunks)| >= 5
    ensures Encode(chunks)[|Encode(chunks)| - 5..] == "0\r\n\r\n"
  {
    if |chunks| > 0 {
      EncodeEndsWithLastChunk(chunks[1..]);
      var c := chunks[0];
      SuffixOfAppend(Numeral(|c|, 16) + "\r\n" + c + "\r\n", Encode(chunks[1..]), 5);
    }
  }

  /** An encoding with at least one data chunk ends with the end marker the body state looks for. */
  lemma {:induction false} EncodeEndsWithEndMarker(chunks: seq<string>)
    requires |chunks| > 0
    ensures |Encode(chunks)| >= 7
    ensures Encode(chunks)[|Encode(chunks)| - 7..] == "\r\n0\r\n\r\n"
  {
    var c := chunks[0];
    var head := Numeral(|c|, 16) + "\r\n" + c;
    if |chunks| == 1 {
      assert Encode(chunks[1..]) == "0\r\n\r\n";
      SuffixOfAppend(head, "\r\n" + "0\r\n\r\n", 7);
    } else {
      EncodeEndsWithEndMarker(chunks[1..]);
      SuffixOfAppend(head + "\r\n", Encode(chunks[1..]), 7);
    }
  }

  lemma SuffixOfAppend(a: string, b: string, n: nat)
    requires n <= |b|
    ensures (a + b)[|a + b| - n..] == b[|b| - n..]
  {
  }

  /** `strtol` reads a hex numeral back as its value. */
  lemma ParseHexNumeral(size: nat)
    requires size <= LONG_MAX
    ensures ParseLong(Numeral(size, 16), 16) == size
  {
    ParseNumeral(size, 16, "");
    assert Numeral(size, 16) + "" == Numeral(size, 16);
  }

  /** No hex digit starts a line break, so a size line of hex digits ends at the first line break. */
  lemma SizeLineAtDigits(buf: string, pos: nat, e: nat, digits: string)
    requires forall i :: 0 <= i < |digits| ==> IsDigitIn(digits[i], 16)
    requires pos <= e && e + 2 <= |buf| && buf[pos..e] == digits
    requires buf[e] == '\r' && buf[e + 1] == '\n'
    ensures SizeLine(buf, pos) == Some((e, digits))
  {
    forall j | pos <= j < e
      ensures buf[j] != '\r'
    {
      assert buf[j] == digits[j - pos];
      assert IsDigitIn(digits[j - pos], 16);
    }
    assert buf[e..e + 2] == "\r\n";
    IndexOfByFirstChar(buf, "\r\n", pos, e);
  }

  /** The turn at a data chunk takes its data and moves to the next size line. */
  lemma DataChunkTurn(prefix: string, c: string, rest: string)
    requires 0 < |c| <= LONG_MAX && |rest| >= 5
    requires |prefix + Numeral(|c|, 16) + "\r\n" + c + "\r\n" + rest| < WRAP / 2
    ensures NextChunk(prefix + Numeral(|c|, 16) + "\r\n" + c + "\r\n" + rest, |prefix|) ==
              Next(|prefix + Numeral(|c|, 16) + "\r\n" + c + "\r\n"|, c)
  {
    var digits := Numeral(|c|, 16);
    var buf := prefix + digits + "\r\n" + c + "\r\n" + rest;
    ChunkLayout(buf, prefix, digits, c, rest);
    NumeralChunkTurn(buf, |prefix|, c);
  }

  /** The turn at a chunk written by `Encode` at `pos` takes its data and moves past it. */
  lemma NumeralChunkTurn(buf: string, pos: nat, c: string)
    requires |buf| < WRAP / 2 && 0 < |c| <= LONG_MAX
    requires ChunkAt(buf, pos, Numeral(|c|, 16), c)
    ensures NextChunk(buf, pos) == Next(pos + |Numeral(|c|, 16)| + 2 + |c| + 2, c)
  {
    var e := pos + |Numeral(|c|, 16)|;
    NumeralSizeLine(buf, pos, c);
    ChunkData(buf, pos, Numeral(|c|, 16), c);
    TurnAtPositiveSize(buf, pos, e, |c|, Next(e + 2 + |c| + 2, c));
  }

  /** The size line of a chunk written by `Encode` is the numeral of its size. */
  lemma NumeralSizeLine(buf: string, pos: nat, c: string)
    requires |c| <= LONG_MAX && ChunkAt(buf, pos, Numeral(|c|, 16), c)
    ensures SizeLine(buf, pos) == Some((pos + |Numeral(|c|, 16)|, Numeral(|c|, 16)))
  {
    ChunkSizeLine(buf, pos, Numeral(|c|, 16), c);
  }

  /** A data chunk at `pos`: hex size digits, a line break, the data and room for what follows. */
  predicate ChunkAt(buf: string, pos: nat, digits: string, c: string)
  {
    pos + |digits| + 2 + |c| + 2 < |buf| - 1 &&
    buf[pos..pos + |digits|] == digits &&
    buf[pos + |digits|] == '\r' && buf[pos + |digits| + 1] == '\n' &&
    buf[pos + |digits| + 2..pos + |digits| + 2 + |c|] == c
  }

  /** Where the size digits, the line break and the data of a chunk lie in the encoded body. */
  lemma ChunkLayout(buf: string, prefix: string, digits: string, c: string, rest: string)
    requires |rest| >= 5
    requires buf == prefix + digits + "\r\n" + c + "\r\n" + rest
    ensures ChunkAt(buf, |prefix|, digits, c)
  {
    var e := |prefix| + |digits|;
    assert buf == (prefix + digits + "\r\n") + c + ("\r\n" + rest);
    assert buf == prefix + (digits + ("\r\n" + c + "\r\n" + rest));
    assert buf[|prefix|..e] == digits;
    assert buf[e] == (prefix + digits + "\r\n")[e];
  }

  /** The size line of a data chunk is its hex digits. */
  lemma ChunkSizeLine(buf: string, pos: nat, digits: string, c: string)
    requires forall i :: 0 <= i < |digits| ==> IsDigitIn(digits[i], 16)
    requires ChunkAt(buf, pos, digits, c)
    ensures SizeLine(buf, pos) == Some((pos + |digits|, digits))
  {
    SizeLineAtDigits(buf, pos, pos + |digits|, digits);
  }

  /** The data of a chunk is taken whole, and the loop goes on after its line break. */
  lemma ChunkData(buf: string, pos: nat, digits: string, c: string)
    requires |buf| < WRAP / 2 && 0 < |c| <= LONG_MAX
    requires ChunkAt(buf, pos, digits, c)
    ensures TakeChunk(buf, pos + |digits|, |c|) == Next(pos + |digits| + 2 + |c| + 2, c)
  {
    TakeData(buf, pos + |digits|, c);
  }

  /** A size line that holds the numeral of a positive size hands the turn to `TakeChunk`. */
  lemma TurnAtPositiveSize(buf: string, pos: nat, e: nat, size: nat, t: ChunkTurn)
    requires |buf| < WRAP / 2 && 0 < size <= LONG_MAX
    requires SizeLine(buf, pos) == Some((e, Numeral(size, 16)))
    requires TakeChunk(buf, e, size) == t
    ensures NextChunk(buf, pos) == t
  {
    ParseHexNumeral(size);
  }

  /** A positive size whose data lies inside the buffer is taken, and the loop goes on after it. */
  lemma TakeData(buf: string, e: nat, c: string)
    requires |buf| < WRAP / 2 && 0 < |c| <= LONG_MAX
    requires e + 2 + |c| + 2 < |buf| - 1
    requires buf[e + 2..e + 2 + |c|] == c
    ensures TakeChunk(buf, e, |c|) == Next(e + 2 + |c| + 2, c)
  {
  }

  /** The turn at the last chunk completes the body. */
  lemma LastChunkTurn(prefix: string)
    requires |prefix + Encode([])| < WRAP / 2
    ensures NextChunk(prefix + Encode([]), |prefix|) == Done
  {
    var buf := prefix + "0\r\n\r\n";
    var pos := |prefix|;
    assert SizeLine(buf, pos) == Some((pos + 1, "0")) by {
      assert buf[pos] == '0';
      assert buf[pos + 1..pos + 3] == "\r\n";
      IndexOfByFirstChar(buf, "\r\n", pos, pos + 1);
      assert buf[pos..pos + 1] == "0";
    }
    assert ParseLong("0", 16) == 0 by {
      assert Numeral(0, 16) + "" == "0";
      ParseNumeral(0, 16, "");
    }
  }

  /** A complete chunked body holds the end marker, so the body state decodes it. */
  lemma EncodedBodyHasEndMarker(chunks: seq<string>)
    requires |chunks| > 0
    ensures Contains(Encode(chunks), "\r\n0\r\n\r\n")
  {
    EncodeEndsWithEndMarker(chunks);
    assert OccursAt(Encode(chunks), "\r\n0\r\n\r\n", |Encode(chunks)| - 7);
  }

  /** A complete chunked body is decoded, and the decoder gives the data back. */
  lemma EncodedBodyIsDecoded(chunks: seq<string>)
    requires |chunks| > 0 && NonEmptyChunks(chunks)
    requires |Encode(chunks)| < WRAP / 2
    ensures Contains(Encode(chunks), "\r\n0\r\n\r\n")
    ensures Dechunk(Encode(chunks), 0) == Dechunked(true, Flatten(chunks))
  {
    EncodedBodyHasEndMarker(chunks);
    assert "" + Encode(chunks) == Encode(chunks);
    DechunkEncode("", chunks);
  }
}
