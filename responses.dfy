/**
 * The text the server puts on the wire: header blocks, the three response
 * shapes, and the pieces of the directory-listing page.
 *
 * Every header block is a list of lines, each followed by CR LF, and then
 * one more CR LF. A client finds the end of the block at the first blank
 * line; `FindBlankLine` is that client, and `HeaderBlockFraming` proves that
 * it stops exactly where the server's block ends.
 */
module Responses {
  import opened Wrappers
  import opened Wire

  const CRLF := "\r\n"

  /** The lines of a header block, each terminated by CR LF. */
  function Lines(lines: seq<string>): string {
    if lines == [] then "" else lines[0] + CRLF + Lines(lines[1..])
  }

  /** A header block: its lines, then the empty line that ends it. */
  function HeaderBlock(lines: seq<string>): string {
    Lines(lines) + CRLF
  }

  /** `sendResponse(out, statusLine, statusMessage)`: no Content-Type and no Content-Length. */
  function StatusResponse(statusLine: string, statusMessage: string): string {
    HeaderBlock(StatusHeadLines(statusLine)) + statusMessage
  }

  /**
   * `sendResponse(out, statusLine, statusMessage, contentType)`: this
   * overload puts "HTTP/1.1 " in front of the status line it is given.
   */
  function TypedResponse(statusLine: string, statusMessage: string, contentType: string): string {
    HeaderBlock(TypedHeadLines(statusLine, contentType)) + statusMessage
  }

  /** The header block `sendFile` writes ahead of the file's bytes. */
  function FileHead(contentType: string, fileName: string, fileSize: nat): string {
    HeaderBlock(FileHeadLines(contentType, fileName, fileSize))
  }

  const NOT_IMPLEMENTED := StatusResponse("HTTP/1.1 501 Not Implemented", "Not Implemented")
  const NOT_FOUND := StatusResponse("HTTP/1.1 404 Not Found", "File Not Found")
  const LISTING_HEAD := TypedResponse("HTTP/1.1 200 OK", "OK", "text/html")

  const OCTET_STREAM := "application/octet-stream"

  /** The Content-Type of a file: the probed MIME type, or the generic binary type when the probe has none. */
  function ContentType(mimeType: Option<string>): string {
    mimeType.GetOr(OCTET_STREAM)
  }

  const LISTING_OPEN :=
    "<html><head><title>Directory Listing</title></head><body>" + "<h1>Directory Listing</h1>" + "<ul>"
  const LISTING_CLOSE := "</ul></body></html>"

  /** One entry of the listing: a link to the name, its size and its formatted modification time. */
  function ListingItem(fileName: string, fileSize: nat, modifiedDate: string): string {
    "<li><a href=\"" + fileName + "\">" + fileName + "</a> ("
      + "Size: " + NatToString(fileSize) + " bytes, "
      + "Last Modified: " + modifiedDate + ")</li>"
  }

  // ---------------------------------------------------------------------
  // The same texts as lists of header lines

  /** The header lines of a status response. */
  function StatusHeadLines(statusLine: string): seq<string> {
    [statusLine, "Connection: close"]
  }

  /** The header lines of a typed response. */
  function TypedHeadLines(statusLine: string, contentType: string): seq<string> {
    ["HTTP/1.1 " + statusLine, "Content-Type: " + contentType, "Connection: close"]
  }

  /** The header lines of a file response, in the order `sendFile` writes them. */
  function FileHeadLines(contentType: string, fileName: string, fileSize: nat): seq<string> {
    [ "HTTP/1.1 200 OK",
      "Content-Type: " + contentType,
      "Content-Disposition: attachment; filename=\"" + fileName + "\"",
      "Content-Length: " + NatToString(fileSize),
      "Connection: close" ]
  }

  lemma LinesOfTwo(a: string, b: string)
    ensures Lines([a, b]) == a + CRLF + b + CRLF
  {
    assert [a, b][1..] == [b];
    assert Lines([b]) == b + CRLF + Lines([]);
  }

  /** The text `sendResponse` concatenates is the status response. */
  lemma StatusResponseText(statusLine: string, statusMessage: string)
    ensures statusLine + CRLF + "Connection: close" + CRLF + CRLF + statusMessage ==
      StatusResponse(statusLine, statusMessage)
  {
    LinesOfTwo(statusLine, "Connection: close");
  }

  lemma LinesOfThree(a: string, b: string, c: string)
    ensures Lines([a, b, c]) == a + CRLF + b + CRLF + c + CRLF
  {
    assert [a, b, c][1..] == [b, c];
    LinesOfTwo(b, c);
  }

  lemma LinesOfFive(a: string, b: string, c: string, d: string, e: string)
    ensures Lines([a, b, c, d, e]) == a + CRLF + b + CRLF + c + CRLF + d + CRLF + e + CRLF
  {
    assert [a, b, c, d, e][1..] == [b, c, d, e];
    assert [b, c, d, e][1..] == [c, d, e];
    LinesOfThree(c, d, e);
    var tail := c + CRLF + d + CRLF + e + CRLF;
    assert Lines([b, c, d, e]) == b + CRLF + tail;
    assert Lines([a, b, c, d, e]) == a + CRLF + (b + CRLF + tail);
  }

  /** The text the typed `sendResponse` concatenates, one header line after another, is the typed response. */
  lemma TypedResponseText(statusLine: string, statusMessage: string, contentType: string)
    ensures ("HTTP/1.1 " + statusLine) + CRLF + ("Content-Type: " + contentType) + CRLF + "Connection: close" + CRLF
        + CRLF + statusMessage ==
      TypedResponse(statusLine, statusMessage, contentType)
  {
    LinesOfThree("HTTP/1.1 " + statusLine, "Content-Type: " + contentType, "Connection: close");
  }

  /** The text `sendFile` concatenates for its headers, one line after another, is the file response's header block. */
  lemma FileHeadText(contentType: string, fileName: string, fileSize: nat)
    ensures "HTTP/1.1 200 OK" + CRLF
        + ("Content-Type: " + contentType) + CRLF
        + ("Content-Disposition: attachment; filename=\"" + fileName + "\"") + CRLF
        + ("Content-Length: " + NatToString(fileSize)) + CRLF
        + "Connection: close" + CRLF
        + CRLF ==
      FileHead(contentType, fileName, fileSize)
  {
    var lines := FileHeadLines(contentType, fileName, fileSize);
    LinesOfFive(lines[0], lines[1], lines[2], lines[3], lines[4]);
  }

  // ---------------------------------------------------------------------
  // Finding the end of a header block

  const CR: byte := 13
  const LF: byte := 10

  predicate BlankLineAt(b: seq<byte>, i: nat) {
    i + 4 <= |b| && b[i] == CR && b[i + 1] == LF && b[i + 2] == CR && b[i + 3] == LF
  }

  /** Where a client reading the response finds the first CR LF CR LF. */
  function FindBlankLine(b: seq<byte>): (r: Option<nat>)
    ensures r.Some? ==> BlankLineAt(b, r.value)
    ensures r.Some? ==> forall j :: 0 <= j < r.value ==> !BlankLineAt(b, j)
    ensures r.None? ==> forall j :: 0 <= j < |b| ==> !BlankLineAt(b, j)
  {
    if |b| < 4 then None
    else if BlankLineAt(b, 0) then Some(0)
    else
      var rest := FindBlankLine(b[1..]);
      assert forall j :: 1 <= j < |b| ==> (BlankLineAt(b, j) <==> BlankLineAt(b[1..], j - 1));
      if rest.None? then None else Some(rest.value + 1)
  }

  /** A header line: not empty and free of line breaks. */
  predicate IsHeaderLine(line: string) {
    line != [] && '\r' !in line && '\n' !in line
  }

  /** Inside `Lines`, a line feed is never followed by a carriage return. */
  lemma {:induction false} LinesNoEarlyBlank(lines: seq<string>)
    requires forall k :: 0 <= k < |lines| ==> IsHeaderLine(lines[k])
    ensures var s := Lines(lines);
      forall p :: 0 <= p < |s| - 1 && s[p] == '\n' ==> s[p + 1] != '\r'
    ensures lines != [] ==> |Lines(lines)| >= 3
    ensures lines != [] ==> Lines(lines)[|Lines(lines)| - 2..] == CRLF
  {
    if lines != [] {
      var l := lines[0];
      var rest := Lines(lines[1..]);
      LinesNoEarlyBlank(lines[1..]);
      var s := Lines(lines);
      assert s == l + CRLF + rest;
      forall p | 0 <= p < |s| - 1 && s[p] == '\n'
        ensures s[p + 1] != '\r'
      {
        if p == |l| + 1 {
          assert rest != [];
          assert lines[1..] != [];
          assert rest[0] == lines[1][0];
          assert lines[1][0] in lines[1];
        } else if p > |l| + 1 {
          assert s[p] == rest[p - |l| - 2];
          assert s[p + 1] == rest[p - |l| - 1];
        }
      }
      if lines[1..] == [] {
        assert s == l + CRLF;
      }
    }
  }

  lemma EncodeCrLf(s: string, i: nat)
    requires i < |s|
    ensures Encode(s)[i] == CR <==> s[i] == '\r'
    ensures Encode(s)[i] == LF <==> s[i] == '\n'
  {
  }

  /**
   * A client that reads a response up to the first blank line gets exactly
   * the header block the server wrote, and everything after it is the body,
   * whatever bytes the body holds.
   */
  lemma HeaderBlockFraming(lines: seq<string>, body: seq<byte>)
    requires lines != []
    requires forall k :: 0 <= k < |lines| ==> IsHeaderLine(lines[k])
    ensures var head := Encode(HeaderBlock(lines));
      FindBlankLine(head + body) == Some(|head| - 4)
  {
    var h := HeaderBlock(lines);
    var s := Lines(lines);
    var head := Encode(h);
    var b := head + body;
    LinesNoEarlyBlank(lines);
    assert h == s + CRLF;
    var k := |head| - 4;
    EncodeCrLf(h, k);
    EncodeCrLf(h, k + 1);
    EncodeCrLf(h, k + 2);
    EncodeCrLf(h, k + 3);
    assert h[k..] == "\r\n\r\n";
    assert BlankLineAt(b, k);
    forall j | 0 <= j < k ensures !BlankLineAt(b, j) {
      EncodeCrLf(h, j + 1);
      EncodeCrLf(h, j + 2);
      assert b[j + 1] == head[j + 1] && b[j + 2] == head[j + 2];
      assert h[j + 1] == s[j + 1] && h[j + 2] == s[j + 2];
    }
  }

  /**
   * A client reading a status response finds the block of its two header
   * lines (no Content-Type, no Content-Length) and after it the message.
   */
  lemma StatusResponseFraming(statusLine: string, statusMessage: string)
    requires IsHeaderLine(statusLine)
    ensures var head := Encode(HeaderBlock(StatusHeadLines(statusLine)));
      var response := Encode(StatusResponse(statusLine, statusMessage));
      response == head + Encode(statusMessage) &&
      FindBlankLine(response) == Some(|head| - 4)
  {
    var lines := StatusHeadLines(statusLine);
    EncodeAppend(HeaderBlock(lines), statusMessage);
    assert IsHeaderLine(lines[1]);
    HeaderBlockFraming(lines, Encode(statusMessage));
  }

  /**
   * After the header block of a typed response a client finds the status
   * message and then whatever follows it.
   */
  lemma TypedResponseFraming(statusLine: string, statusMessage: string, contentType: string, rest: seq<byte>)
    requires IsHeaderLine("HTTP/1.1 " + statusLine) && IsHeaderLine("Content-Type: " + contentType)
    ensures var head := Encode(HeaderBlock(TypedHeadLines(statusLine, contentType)));
      var response := Encode(TypedResponse(statusLine, statusMessage, contentType)) + rest;
      response == head + (Encode(statusMessage) + rest) &&
      FindBlankLine(response) == Some(|head| - 4)
  {
    var lines := TypedHeadLines(statusLine, contentType);
    assert IsHeaderLine(lines[2]);
    EncodeAppend(HeaderBlock(lines), statusMessage);
    HeaderBlockFraming(lines, Encode(statusMessage) + rest);
  }

  /** The 501 answer: its status line, "Connection: close", a blank line, and "Not Implemented" as the whole body. */
  lemma NotImplementedFraming()
    ensures var head := Encode(HeaderBlock(["HTTP/1.1 501 Not Implemented", "Connection: close"]));
      Encode(NOT_IMPLEMENTED) == head + Encode("Not Implemented") &&
      FindBlankLine(Encode(NOT_IMPLEMENTED)) == Some(|head| - 4)
  {
    LiteralHeaderLine501();
    StatusResponseFraming("HTTP/1.1 501 Not Implemented", "Not Implemented");
  }

  /** The 404 answer: its status line, "Connection: close", a blank line, and "File Not Found" as the whole body. */
  lemma NotFoundFraming()
    ensures var head := Encode(HeaderBlock(["HTTP/1.1 404 Not Found", "Connection: close"]));
      Encode(NOT_FOUND) == head + Encode("File Not Found") &&
      FindBlankLine(Encode(NOT_FOUND)) == Some(|head| - 4)
  {
    LiteralHeaderLine404();
    StatusResponseFraming("HTTP/1.1 404 Not Found", "File Not Found");
  }

  /** The listing's status line carries "HTTP/1.1 " twice. */
  lemma ListingStatusLine()
    ensures TypedHeadLines("HTTP/1.1 200 OK", "text/html")[0] == "HTTP/1.1 HTTP/1.1 200 OK"
  {
  }

  /** The listing's header lines are well formed. */
  lemma ListingHeadLines()
    ensures IsHeaderLine("HTTP/1.1 " + "HTTP/1.1 200 OK") && IsHeaderLine("Content-Type: " + "text/html")
  {
    LiteralListingStatus();
    LiteralListingType();
  }

  /** A prefix, a value and a suffix, none with a line break, make a header line. */
  lemma LabeledLine(prefix: string, value: string, suffix: string)
    requires IsHeaderLine(prefix)
    requires '\r' !in value && '\n' !in value && '\r' !in suffix && '\n' !in suffix
    ensures IsHeaderLine(prefix + value + suffix)
  {
    assert (prefix + value + suffix)[0] == prefix[0];
  }

  /** Decimal digits hold no line break. */
  lemma DigitsNoBreak(s: string)
    requires AllDigits(s)
    ensures '\r' !in s && '\n' !in s
  {
  }

  /** The five header lines of a file response are well formed when the type and name carry no line break. */
  lemma FileHeadLinesWellFormed(contentType: string, fileName: string, fileSize: nat)
    requires '\r' !in contentType && '\n' !in contentType
    requires '\r' !in fileName && '\n' !in fileName
    ensures forall k :: 0 <= k < 5 ==> IsHeaderLine(FileHeadLines(contentType, fileName, fileSize)[k])
  {
    var lines := FileHeadLines(contentType, fileName, fileSize);
    LiteralStatus200();
    LiteralContentType();
    LiteralDisposition();
    LiteralContentLength();
    LiteralConnection();
    LabeledLine("Content-Type: ", contentType, "");
    assert lines[1] == "Content-Type: " + contentType + "";
    LabeledLine("Content-Disposition: attachment; filename=\"", fileName, "\"");
    DigitsNoBreak(NatToString(fileSize));
    LabeledLine("Content-Length: ", NatToString(fileSize), "");
    assert lines[3] == "Content-Length: " + NatToString(fileSize) + "";
  }

  // The fixed texts above, one at a time, hold no line break.

  lemma LiteralHeaderLine501() ensures IsHeaderLine("HTTP/1.1 501 Not Implemented") {}
  lemma LiteralHeaderLine404() ensures IsHeaderLine("HTTP/1.1 404 Not Found") {}
  lemma LiteralListingStatus() ensures IsHeaderLine("HTTP/1.1 " + "HTTP/1.1 200 OK") {}
  lemma LiteralListingType() ensures IsHeaderLine("Content-Type: " + "text/html") {}
  lemma LiteralStatus200() ensures IsHeaderLine("HTTP/1.1 200 OK") {}
  lemma LiteralContentType() ensures IsHeaderLine("Content-Type: ") {}
  lemma LiteralDisposition()
    ensures IsHeaderLine("Content-Disposition: attachment; filename=\"") && '\r' !in "\"" && '\n' !in "\""
  {
    DispositionNoReturn();
    DispositionNoFeed();
  }
  lemma DispositionNoReturn() ensures '\r' !in "Content-Disposition: attachment; filename=\"" {}
  lemma DispositionNoFeed() ensures '\n' !in "Content-Disposition: attachment; filename=\"" {}
  lemma LiteralContentLength() ensures IsHeaderLine("Content-Length: ") {}
  lemma LiteralConnection() ensures IsHeaderLine("Connection: close") {}
}
