/** The head of a POST as the parser reads it, and requests that stall because their body
    arrives in pieces. */
module HttpStall {
  import opened CStrings
  import opened HttpParser
  import opened HttpChunking
  import opened HttpLines
  import opened HttpResponse
  import opened ResponseDrain
  import opened Wrappers

  /** A POST of `n` body bytes. */
  function PostHead(path: string, n: nat): string {
    "POST" + " " + path + " " + VERSION + CRLF + HeaderText(Webserver, n, false)
  }

  lemma CStrKept(b: seq<char>, b': seq<char>, i: nat, s: string)
    requires i + |s| < |b| && CStr(b, i) == s && b <= b'
    ensures Holds(b', i, s)
  {
    assert b' == b + b'[|b|..];
    CStrStable(b, b'[|b|..], i);
  }

  lemma PostHeadRead(path: string, n: nat, more: seq<char>)
    requires Word(path) && PlainText(path) && path[0] == '/' && 0 < n <= INT_MAX
    requires |PostHead(path, n)| + |more| <= READ_BUFFER_SIZE
    ensures var p := HeaderPhase(Receive(Fresh(), PostHead(path, n) + more));
            && p.AtBody? && p.conn.rest == more && p.conn.contentLength == n && p.conn.startLine == |p.conn.done|
            && p.conn.cgi && p.conn.url.Some? && Holds(p.conn.done, p.conn.url.value, Page(path))
  {
    var c := Receive(Fresh(), PostHead(path, n) + more);
    assert c.rest == "POST" + " " + path + " " + VERSION + CRLF + (HeaderText(Webserver, n, false) + more);
    var d := PostLineRead(c, path, HeaderText(Webserver, n, false) + more);
    hide HeaderPhase, HeaderText, Word, PlainText, Page, PostHead, InHeaders, CStr;
    HeadersReadBack(Webserver, d, n, false, more);
    CStrKept(d.done, HeaderPhase(c).conn.done, 5, Page(path));
  }

  lemma PostLineRead(c: Conn, path: string, fields: seq<char>) returns (d: Conn)
    requires Word(path) && PlainText(path) && path[0] == '/'
    requires Inv(c) && c.state == REQUESTLINE && c.startLine == 0 && c.done == [] && !c.linger
    requires c.rest == "POST" + " " + path + " " + VERSION + CRLF + fields
    ensures InHeaders(d) && HeaderPhase(c) == HeaderPhase(d)
    ensures d.cgi && d.url == Some(5) && d.rest == fields && !d.linger
    ensures 5 + |Page(path)| < |d.done| && CStr(d.done, 5) == Page(path)
  {
    hide *;
    PostRequested(c, path, fields);
    PageLength(path);
    RequestRound(c, "POST", path, fields);
    d := Requested(c, "POST", path, fields);
  }

  lemma PostRequested(c: Conn, path: string, more: seq<char>)
    requires Word(path) && path[0] == '/'
    ensures IsMethod("POST") && PlainText("POST")
    ensures var d := Requested(c, "POST", path, more);
            d.cgi && d.url == Some(|c.done| + 5) && d.rest == more && d.linger == c.linger
  {
    assert !EqNoCase("POST", "GET");
  }

  lemma PageLength(path: string)
    ensures |Page(path)| <= |path| + 10
  {
  }

  /** No piece ends strictly between the two positions. */
  ghost predicate NoCutBetween(chunks: seq<seq<char>>, from: nat, to: nat) {
    forall i :: 0 < i < |chunks| ==> !(from < |Flatten(chunks[..i])| < to)
  }

  /** The head of a request that announces a body, and the whole body behind it. */
  lemma HeadAndBody(head: seq<char>, body: seq<char>)
    requires |head| + |body| < READ_BUFFER_SIZE && body != []
    requires var p := HeaderPhase(Receive(Fresh(), head));
             p.AtBody? && p.conn.rest == [] && p.conn.contentLength == |body|
    ensures var h := HeaderPhase(Receive(Fresh(), head + body)).conn;
            && EndsWithBody(Receive(Fresh(), head + body)) && |h.done| == |head| && h.rest == body
  {
    hide HeaderPhase, ProcessRead, Receive;
    var c := Receive(Fresh(), head);
    ReceiveKeepsInv(Fresh(), head);
    ReceiveTwice(Fresh(), head, body);
    PhaseExtends(c, body);
    var h := HeaderPhase(c).conn;
    ReceiveKeepsInv(h, body);
    ReceiveKeepsInv(Fresh(), head + body);
    ReceiveDone(h, body);
    BodyAnswer(Receive(h, body));
    LoopIsPhases(Receive(Fresh(), head + body));
  }

  /** Every request with a body, whatever its request line and headers, whose body does not
      start with a CR or LF: cut into any pieces, it is complete when the last of its bytes
      has come exactly if no piece ends strictly inside the body. */
  lemma BodyInPiecesExactly(head: seq<char>, body: seq<char>, chunks: seq<seq<char>>)
    requires |head| + |body| < READ_BUFFER_SIZE && body != [] && !CrOrLf(body[0])
    requires var p := HeaderPhase(Receive(Fresh(), head));
             p.AtBody? && p.conn.rest == [] && p.conn.contentLength == |body|
    requires Flatten(chunks) == head + body
    ensures chunks != []
    ensures Feed(Fresh(), chunks).0 == if NoCutBetween(chunks, |head|, |head| + |body|) then GET_REQUEST else NO_REQUEST
  {
    hide HeaderPhase, ProcessRead, Receive, Feed, EndsWithBody;
    assert chunks == [] ==> Flatten(chunks) == [];
    hide Flatten;
    HeadAndBody(head, body);
    ReceiveKeepsInv(Fresh(), head + body);
    InsideByPosition(head, body, chunks);
    CompleteIffOutside(Fresh(), chunks);
  }

  lemma InsideByPosition(head: seq<char>, body: seq<char>, chunks: seq<seq<char>>)
    requires |head| + |body| < READ_BUFFER_SIZE && body != [] && Flatten(chunks) == head + body
    requires Inv(Receive(Fresh(), head + body)) && EndsWithBody(Receive(Fresh(), head + body))
    requires |HeaderPhase(Receive(Fresh(), head + body)).conn.done| == |head|
    ensures CutsOutsideBody(Fresh(), chunks) <==> NoCutBetween(chunks, |head|, |head| + |body|)
  {
    hide HeaderPhase, ProcessRead, Receive, Flatten;
    ReceiveKeepsInv(Fresh(), head + body);
    var whole := Receive(Fresh(), head + body);
    forall n: nat ensures InsideBody(whole, n) <==> |head| < n < |head| + |body| {
    }
  }

  /** A stray CR or LF in the request line or a header is never answered: not by this call,
      and not by the next, whatever has arrived by then. */
  lemma BadLineNeverAnswered(c: Conn, later: seq<char>)
    requires Inv(c) && c.state != CONTENT && ReadIdx(c) + |later| <= READ_BUFFER_SIZE
    requires var k := First(c.rest, 0, CrOrLf);
             k < |c.rest| && (c.rest[k] == LF || (k + 1 < |c.rest| && c.rest[k + 1] != LF))
    ensures var (code, d) := ProcessRead(c);
            && code == NO_REQUEST && d == Skip(c, First(c.rest, 0, CrOrLf))
            && ProcessRead(Receive(d, later)).0 == NO_REQUEST
  {
    hide *;
    BadLineBounds(c, later);
    LineStatusExactly(c, later);
    StatusAtFirst(c);
    NoLineKeepsBuffer(c);
    NoLineNoAnswer(c);
    var d := ProcessRead(c).1;
    ReceiveKeepsInv(d, later);
    NoLineResumes(c, later);
    ResumesInState(c, later);
    NoLineNoAnswer(Receive(d, later));
  }

  lemma BadLineBounds(c: Conn, later: seq<char>)
    requires Inv(c) && ReadIdx(c) + |later| <= READ_BUFFER_SIZE
    ensures !EndsInCR(c.done) && Bounds(Receive(c, later))
  {
  }

  lemma ResumesInState(c: Conn, later: seq<char>)
    ensures var k := First(c.rest, 0, CrOrLf); Receive(Skip(c, k), later).state == c.state
    ensures ReadIdx(Skip(c, First(c.rest, 0, CrOrLf))) == ReadIdx(c)
  {
  }

  lemma NoLineNoAnswer(c: Conn)
    requires Inv(c) && c.state != CONTENT && ParseLine(c).0 != LINE_OK
    ensures ProcessRead(c) == (NO_REQUEST, ParseLine(c).1)
  {
    hide ParseLine;
    LoopOnLine(c, LINE_OK);
  }
}
