/**
 * The request text the cellular HTTP client sends: a request line and headers printed
 * piece by piece with `snprintf` into a 512-byte stack buffer, then the payload.
 *
 * `snprintf(buf + offset, sizeof(buf) - offset, ...)` returns the length the piece
 * would have had, and the firmware adds that to `offset` whether or not it fitted.
 * The size argument is a `size_t`, so once `offset` is past 512 it wraps to a huge
 * value and the next piece is printed beyond the end of the buffer.  `FillAsWritten`
 * models that; `FillChecked` stops at the first piece that did not fit, which is what
 * the final `offset >= sizeof(buf)` test evidently relies on, and it is the one the
 * rest of the model uses.
 */
module GprsRequest {
  import opened Clock
  import opened Text
  import opened Wrappers
  import opened GprsUrl

  /** `GPRS_REQUEST_BUFFER_SIZE`. */
  const GPRS_REQUEST_BUFFER_SIZE: nat := 512
  /** `FW_NAME` and `FW_VERSION` of the greenhouse-1 build. */
  const FW_NAME: string := "GH1_FW"
  const FW_VERSION: string := "1.3.0_GH1"

  /** The pieces are printed one after the other. */
  function Concat(pieces: seq<string>): string
  {
    if |pieces| == 0 then "" else pieces[0] + Concat(pieces[1..])
  }

  /**
   * The request line and header pieces, in the order they are printed: the request line,
   * `Host`, `Authorization` only when the request needs it and a token is set,
   * `User-Agent`, `Content-Type` and `Content-Length` only for a non-empty payload, and
   * `Connection: close` with the blank line that ends the headers.
   */
  function HeaderPieces(verb: string, path: string, host: string, needsAuth: bool, token: string,
                        payload: string): seq<string>
  {
    [verb + " " + path + " HTTP/1.1\r\n", "Host: " + host + "\r\n"] +
    (if needsAuth && |token| > 0 then ["Authorization: Bearer " + token + "\r\n"] else []) +
    ["User-Agent: " + FW_NAME + "/" + FW_VERSION + "\r\n"] +
    (if |payload| > 0
     then ["Content-Type: application/json\r\n", "Content-Length: " + Numeral(|payload|, 10) + "\r\n"]
     else []) +
    ["Connection: close\r\n\r\n"]
  }

  /**
   * Where one `snprintf` stops writing: it is given `sizeof(buf) - offset` as a 32-bit
   * `size_t`; with a size of 0 it stores nothing, otherwise it stores as much of the
   * piece as fits in size - 1 bytes and a terminator.  The result is one past the last
   * byte stored (or `offset` when none is).
   */
  function WriteEnd(offset: nat, piece: string): (e: nat)
    ensures offset < GPRS_REQUEST_BUFFER_SIZE ==> e <= GPRS_REQUEST_BUFFER_SIZE
    ensures GPRS_REQUEST_BUFFER_SIZE < offset && offset + |piece| < WRAP / 2 ==> e == offset + |piece| + 1
  {
    var room := ToUnsigned(GPRS_REQUEST_BUFFER_SIZE - offset);
    if room == 0 then offset
    else offset + (if |piece| < room - 1 then |piece| else room - 1) + 1
  }

  /** The running `offset` and one past the highest byte stored so far. */
  datatype Fill = Fill(offset: nat, reach: nat)

  function Max(a: nat, b: nat): nat
  {
    if a < b then b else a
  }

  /** The buffer after printing one more piece. */
  function Print(f: Fill, piece: string): Fill
  {
    Fill(f.offset + |piece|, Max(f.reach, WriteEnd(f.offset, piece)))
  }

  /** As written: every piece is printed, whatever the offset has become. */
  function FillAsWritten(pieces: seq<string>, f: Fill): Fill
  {
    if |pieces| == 0 then f else FillAsWritten(pieces[1..], Print(f, pieces[0]))
  }

  /** Corrected: printing stops as soon as a piece did not fit. */
  function FillChecked(pieces: seq<string>, f: Fill): Fill
  {
    if |pieces| == 0 || f.offset >= GPRS_REQUEST_BUFFER_SIZE then f
    else FillChecked(pieces[1..], Print(f, pieces[0]))
  }

  /**
   * The corrected printing never stores a byte outside the buffer, and it ends with an
   * offset of at least 512 exactly when the pieces do not fit; when they fit, the offset
   * is their length.
   */
  lemma {:induction false} FillCheckedInBounds(pieces: seq<string>, f: Fill)
    requires f.reach <= GPRS_REQUEST_BUFFER_SIZE
    ensures FillChecked(pieces, f).reach <= GPRS_REQUEST_BUFFER_SIZE
    ensures FillChecked(pieces, f).offset >= GPRS_REQUEST_BUFFER_SIZE <==>
              f.offset + |Concat(pieces)| >= GPRS_REQUEST_BUFFER_SIZE
    ensures f.offset + |Concat(pieces)| < GPRS_REQUEST_BUFFER_SIZE ==>
              FillChecked(pieces, f).offset == f.offset + |Concat(pieces)|
  {
    if |pieces| > 0 && f.offset < GPRS_REQUEST_BUFFER_SIZE {
      FillCheckedInBounds(pieces[1..], Print(f, pieces[0]));
    }
  }

  /** The pieces of the request that shows the overrun (see `OverrunExample`). */
  function LongName(n: nat): (s: string)
    ensures |s| == n
  {
    if n == 0 then "" else LongName(n - 1) + "a"
  }

  const OverrunHost: string := LongName(256)
  const OverrunPath: string := "/" + LongName(255)

  /**
   * A GET without authentication whose host and path are both 256 characters long (each
   * fits its 257-byte buffer) prints 271 + 264 = 535 bytes of request line and `Host`
   * header, so the `User-Agent` piece is stored past the end of the 512-byte buffer.
   */
  lemma OverrunExample()
    ensures |OverrunHost| < 257 && |OverrunPath| < 257
    ensures FillAsWritten(HeaderPieces("GET", OverrunPath, OverrunHost, false, "", ""), Fill(0, 0)).reach >
              GPRS_REQUEST_BUFFER_SIZE
  {
    var line := "GET" + " " + OverrunPath + " HTTP/1.1\r\n";
    var hostLine := "Host: " + OverrunHost + "\r\n";
    var agent := "User-Agent: " + FW_NAME + "/" + FW_VERSION + "\r\n";
    var pieces := HeaderPieces("GET", OverrunPath, OverrunHost, false, "", "");
    assert pieces == [line, hostLine, agent, "Connection: close\r\n\r\n"];
    var f1 := Print(Fill(0, 0), line);
    var f2 := Print(f1, hostLine);
    assert f2.offset == 535;
    var f3 := Print(f2, agent);
    assert f3.reach > GPRS_REQUEST_BUFFER_SIZE;
    assert FillAsWritten(pieces, Fill(0, 0)) == FillAsWritten(pieces[1..], f1);
    assert FillAsWritten(pieces[1..], f1) == FillAsWritten(pieces[2..], f2) by {
      assert pieces[1..][1..] == pieces[2..];
    }
    assert FillAsWritten(pieces[2..], f2) == FillAsWritten(pieces[3..], f3) by {
      assert pieces[2..][1..] == pieces[3..];
    }
    FillReachGrows(pieces[3..], f3);
  }

  /** The URL of that request is accepted by the URL split. */
  lemma OverrunUrlAccepted()
    ensures SplitUrl("http" + "://" + (OverrunHost + OverrunPath)) == Some(Target(OverrunHost, 80, OverrunPath))
  {
    AllLetters(256);
    AllLetters(255);
    assert OverrunPath[1..] == LongName(255);
    forall i | 0 <= i < |OverrunPath|
      ensures OverrunPath[i] != ':'
    {
      if i > 0 {
        assert OverrunPath[i] == LongName(255)[i - 1];
      }
    }
    assert !IsHttps("http");
    SplitComposedWithoutPort("http", OverrunHost, OverrunPath);
  }

  lemma {:induction false} AllLetters(n: nat)
    ensures forall i :: 0 <= i < n ==> LongName(n)[i] == 'a'
  {
    if n > 0 {
      AllLetters(n - 1);
    }
  }

  /** Printing more never lowers the reach. */
  lemma {:induction false} FillReachGrows(pieces: seq<string>, f: Fill)
    ensures FillAsWritten(pieces, f).reach >= f.reach
  {
    if |pieces| > 0 {
      FillReachGrows(pieces[1..], Print(f, pieces[0]));
    }
  }

  /** Why the corrected request is refused, or the bytes that are sent. */
  datatype Assembled = Sent(text: string) | HeadersTooLarge | PayloadTooLarge

  /**
   * The request of the SENDING_REQUEST state: the headers must leave room in the buffer,
   * and a payload is appended only when headers and payload together are below 512 bytes.
   */
  function Assemble(verb: string, path: string, host: string, needsAuth: bool, token: string,
                    payload: string): Assembled
  {
    var pieces := HeaderPieces(verb, path, host, needsAuth, token, payload);
    var f := FillChecked(pieces, Fill(0, 0));
    if f.offset >= GPRS_REQUEST_BUFFER_SIZE then HeadersTooLarge
    else if |payload| > 0 && f.offset + |payload| >= GPRS_REQUEST_BUFFER_SIZE then PayloadTooLarge
    else Sent(Concat(pieces) + payload)
  }

  /**
   * A request is sent exactly when headers and payload fit in the buffer together; what is
   * sent is the headers followed by the payload, below 512 bytes.
   */
  lemma AssembleSpec(verb: string, path: string, host: string, needsAuth: bool, token: string,
                     payload: string)
    ensures var headers := Concat(HeaderPieces(verb, path, host, needsAuth, token, payload));
      var a := Assemble(verb, path, host, needsAuth, token, payload);
      (a.Sent? <==> |headers| + |payload| < GPRS_REQUEST_BUFFER_SIZE) &&
      (a.HeadersTooLarge? <==> |headers| >= GPRS_REQUEST_BUFFER_SIZE) &&
      (a.Sent? ==> a.text == headers + payload && |a.text| < GPRS_REQUEST_BUFFER_SIZE)
  {
    FillCheckedInBounds(HeaderPieces(verb, path, host, needsAuth, token, payload), Fill(0, 0));
  }

  /** The headers begin with the request line and end with the blank line. */
  lemma HeadersShape(verb: string, path: string, host: string, needsAuth: bool, token: string,
                     payload: string)
    ensures var headers := Concat(HeaderPieces(verb, path, host, needsAuth, token, payload));
      var line := verb + " " + path + " HTTP/1.1\r\n";
      |line| <= |headers| && headers[..|line|] == line && EndsWith(headers, "\r\n\r\n")
  {
    var pieces := HeaderPieces(verb, path, host, needsAuth, token, payload);
    var line := verb + " " + path + " HTTP/1.1\r\n";
    assert pieces[0] == line;
    var headers := line + Concat(pieces[1..]);
    assert Concat(pieces) == headers;
    assert headers[..|line|] == line;
    ConcatEndsWithLast(pieces);
    assert pieces[|pieces| - 1] == "Connection: close\r\n\r\n";
    var close := pieces[|pieces| - 1];
    assert headers[|headers| - 4..] == headers[|headers| - |close|..][|close| - 4..];
  }

  /** The printed text ends with the last piece. */
  lemma {:induction false} ConcatEndsWithLast(pieces: seq<string>)
    requires |pieces| > 0
    ensures EndsWith(Concat(pieces), pieces[|pieces| - 1])
  {
    if |pieces| > 1 {
      ConcatEndsWithLast(pieces[1..]);
      var rest := Concat(pieces[1..]);
      var last := pieces[|pieces| - 1];
      assert Concat(pieces)[|Concat(pieces)| - |last|..] == rest[|rest| - |last|..];
    } else {
      assert Concat(pieces) == pieces[0] + "";
    }
  }
}
