/** The answers of process_write as their receiver reads them, byte by byte. */
module HttpAnswer {
  import opened CStrings
  import opened HttpParser
  import opened HttpChunking
  import opened HttpLines
  import opened HttpResponse
  import opened ResponseDrain
  import opened Wrappers

  /** Which outcomes have an answer, its status line and what stands behind its blank line. */
  function LineAndBody(v: Version, code: HttpCode, file: seq<char>): Option<(string, seq<char>)> {
    match code
    case FILE_REQUEST => if file == [] then None else Some(("HTTP/1.1 200 OK", file))
    case FORBIDDEN_REQUEST =>
      Some(("HTTP/1.1 403 Forbidden",
            if v == Chap5 then "You do not have permission to get file from this server.\n"
            else "You do not have permission to get file form this server.\n"))
    case INTERNAL_ERROR =>
      Some(("HTTP/1.1 500 Internal Error",
            if v == Chap5 then "There was an unusual problem serving the requested file.\n"
            else "There was an unusual problem serving the request file.\n"))
    case BAD_REQUEST =>
      Some(if v == Chap5 then
             ("HTTP/1.1 400 Bad Request",
              "Your request has bad syntax or is inherently impossible to satisfy.\n")
           else ("HTTP/1.1 404 Not Found", "The requested file was not found on this server.\n"))
    case NO_RESOURCE =>
      if v == Chap5 then Some(("HTTP/1.1 404 Not Found", "The requested file was not found on this server.\n"))
      else None
    case _ => None
  }

  lemma CodesInDecimal()
    ensures IntText(200) == "200" && IntText(400) == "400" && IntText(403) == "403"
    ensures IntText(404) == "404" && IntText(500) == "500"
  {
    assert Decimal(20) == "20" && Decimal(40) == "40" && Decimal(50) == "50";
  }

  lemma LineFor(status: nat, digits: string, title: string, line: string)
    requires IntText(status) == digits && line == "HTTP/1.1 " + digits + " " + title
    ensures StatusLine(status, title) == line + "\r\n"
  {
    assert VERSION + " " == "HTTP/1.1 ";
    hide IntText;
  }

  lemma Ok()
    ensures StatusLine(200, OK_TITLE) == "HTTP/1.1 200 OK" + "\r\n" && PlainText("HTTP/1.1 200 OK")
  {
    hide StatusLine;
    CodesInDecimal();
    LineFor(200, "200", OK_TITLE, "HTTP/1.1 200 OK");
  }

  lemma BadRequest()
    ensures StatusLine(400, BAD_TITLE) == "HTTP/1.1 400 Bad Request" + "\r\n" && PlainText("HTTP/1.1 400 Bad Request")
  {
    hide StatusLine;
    CodesInDecimal();
    LineFor(400, "400", BAD_TITLE, "HTTP/1.1 400 Bad Request");
  }

  lemma Forbidden()
    ensures StatusLine(403, FORBIDDEN_TITLE) == "HTTP/1.1 403 Forbidden" + "\r\n" && PlainText("HTTP/1.1 403 Forbidden")
  {
    hide StatusLine;
    CodesInDecimal();
    LineFor(403, "403", FORBIDDEN_TITLE, "HTTP/1.1 403 Forbidden");
  }

  lemma NotFound()
    ensures StatusLine(404, NOT_FOUND_TITLE) == "HTTP/1.1 404 Not Found" + "\r\n" && PlainText("HTTP/1.1 404 Not Found")
  {
    hide StatusLine;
    CodesInDecimal();
    LineFor(404, "404", NOT_FOUND_TITLE, "HTTP/1.1 404 Not Found");
  }

  lemma InternalError()
    ensures StatusLine(500, INTERNAL_TITLE) == "HTTP/1.1 500 Internal Error" + "\r\n"
    ensures PlainText("HTTP/1.1 500 Internal Error")
  {
    hide StatusLine;
    CodesInDecimal();
    LineFor(500, "500", INTERNAL_TITLE, "HTTP/1.1 500 Internal Error");
  }

  /** An answer is there for exactly those outcomes, and starts with that line. */
  lemma AnswersExactly(v: Version, code: HttpCode, file: seq<char>, linger: bool)
    ensures Answer(v, code, file, linger).Some? <==> LineAndBody(v, code, file).Some?
    ensures LineAndBody(v, code, file).Some? ==>
              var (line, body) := LineAndBody(v, code, file).value;
              StatusOf(v, code) == line + "\r\n" && BodyOf(v, code, file) == body && PlainText(line)
  {
    hide StatusLine, HeaderText, PlainText, OK_TITLE, BAD_TITLE, FORBIDDEN_TITLE, NOT_FOUND_TITLE, INTERNAL_TITLE;
    match code {
      case FILE_REQUEST => Ok();
      case FORBIDDEN_REQUEST => Forbidden();
      case INTERNAL_ERROR => InternalError();
      case BAD_REQUEST =>
        BadRequest();
        NotFound();
      case NO_RESOURCE => NotFound();
      case _ =>
    }
  }

  /** The header fields of an answer; chap.5 prints a blank behind the names. */
  function FieldBytes(v: Version, n: int, linger: bool): string {
    if v == Chap5 then
      "Content-Length: " + IntText(n) + "\r\n"
      + "Connection: " + (if linger then "keep-alive" else "close") + "\r\n"
      + "\r\n"
    else
      "Content-Length:" + IntText(n) + "\r\n"
      + "Connection:" + (if linger then "keep-alive" else "close") + "\r\n"
      + "\r\n"
  }

  lemma JoinFields(name: string, digits: string, end: string, name2: string, value: string)
    ensures name + digits + end + (name2 + value + end) + end == name + digits + end + name2 + value + end + end
  {
  }

  lemma FieldsPrinted(v: Version, n: int, linger: bool)
    ensures HeaderText(v, n, linger) == FieldBytes(v, n, linger)
  {
    hide IntText;
    var value := if linger then "keep-alive" else "close";
    assert PRINTED_LENGTH + " " == "Content-Length: " && CONNECTION + " " == "Connection: ";
    assert PRINTED_LENGTH + "" == "Content-Length:" && CONNECTION + "" == "Connection:" && CRLF == "\r\n";
    JoinFields(PRINTED_LENGTH + Gap(v), IntText(n), CRLF, CONNECTION + Gap(v), value);
  }

  /** Every answer, byte by byte. */
  lemma AnswerBytes(v: Version, code: HttpCode, file: seq<char>, linger: bool)
    requires LineAndBody(v, code, file).Some?
    ensures var (line, body) := LineAndBody(v, code, file).value;
            Answer(v, code, file, linger) == Some(line + "\r\n" + FieldBytes(v, AsInt(|body|), linger) + body)
  {
    AnswersExactly(v, code, file, linger);
    hide Answer, StatusOf, BodyOf, LineAndBody, HeaderText, FieldBytes, AsInt;
    AnswerParts(v, code, file, linger);
    FieldsPrinted(v, AsInt(|LineAndBody(v, code, file).value.1|), linger);
  }

  /** The parser behind a first line: it looks for headers. */
  function BehindLine(c: Conn): Conn {
    var d := ParseLine(c).1;
    d.(state := HEADER, startLine := |d.done|)
  }

  /** An answer from its first byte on, as far as it has been read: a whole line that is the
      status line, then headers that give the length of the body, then the body. */
  lemma AnswerReadFromStart(v: Version, code: HttpCode, file: seq<char>, linger: bool,
                            text: seq<char>, first: seq<char>, later: seq<char>)
    requires Answer(v, code, file, linger).Some? && BodyOf(v, code, file) == first + later
    requires text + later == Answer(v, code, file, linger).value && |text| <= READ_BUFFER_SIZE
    ensures LineAndBody(v, code, file).Some?
    ensures var (line, body) := LineAndBody(v, code, file).value;
            var c := Receive(Fresh(), text);
            var e := BehindLine(c);
            && body == first + later
            && ParseLine(c).0 == LINE_OK && CStr(e.done, 0) == line && InHeaders(e)
            && var p := HeaderPhase(e);
               && p.conn.rest == first && p.conn.contentLength == AsInt(|body|) && p.conn.linger == linger
               && (p.AtBody? && p.conn.contentLength == |body| <==> |body| <= INT_MAX)
  {
    hide HeaderPhase, HeaderText, AsInt, LineAndBody, PlainText, CStr, ParseLine, InHeaders;
    AnswersExactly(v, code, file, linger);
    AnswerParts(v, code, file, linger);
    hide Answer, StatusOf, BodyOf;
    var (line, body) := LineAndBody(v, code, file).value;
    var n := AsInt(|body|);
    var more := HeaderText(v, n, linger) + first;
    WithoutTail(text, line + "\r\n" + HeaderText(v, n, linger), first, later);
    StatusLineTaken(text, line, more);
    var e := BehindLine(Receive(Fresh(), text));
    Rejoined(line + "\r\n", HeaderText(v, n, linger), first, later);
    AnswerFramesBody(v, code, file, linger, e, first, later);
  }

  lemma WithoutTail(text: seq<char>, head: seq<char>, first: seq<char>, later: seq<char>)
    requires text + later == head + (first + later)
    ensures text == head + first
  {
    assert (text + later)[..|text|] == text;
    assert (head + (first + later))[..|head| + |first|] == head + first;
  }

  lemma Rejoined(a: seq<char>, b: seq<char>, c: seq<char>, d: seq<char>)
    ensures a + (b + c) + d == a + b + (c + d)
    ensures a + b + c == a + (b + c)
  {
  }

  lemma StatusLineTaken(text: seq<char>, line: string, more: seq<char>)
    requires PlainText(line) && |text| <= READ_BUFFER_SIZE && text == line + "\r\n" + more
    ensures var c := Receive(Fresh(), text);
            var e := BehindLine(c);
            && ParseLine(c).0 == LINE_OK && CStr(e.done, 0) == line && InHeaders(e) && e.rest == more && !e.linger
  {
    hide ParseLine, CStr, PlainText;
    var c := Receive(Fresh(), text);
    assert c.rest == line + CRLF + more;
    assert Inv(c);
    TakesLine(c, line, more);
    LineEndsAtPair(c);
  }
}
