/** Whole requests byte by byte, and what the server makes of them. */
module RequestBytes {
  import opened CStrings
  import opened HttpParser
  import opened HttpChunking
  import opened HttpLines
  import opened HttpResponse
  import opened RequestGrammar
  import opened Webbench
  import opened Wrappers

  // --- what webbench sends ----------------------------------------------------------

  function WithHttp09(m: string, path: string): string { m + " " + path + "\r\n" }

  function WithHttp10(m: string, path: string, host: string): string {
    m + " " + path + " HTTP/1.0\r\n"
    + "User-Agent: WebBench 1.5\r\n"
    + "Host: " + host + "\r\n"
    + "\r\n"
  }

  function WithHttp11(m: string, path: string, host: string): string {
    m + " " + path + " HTTP/1.1\r\n"
    + "User-Agent: WebBench 1.5\r\n"
    + "Host: " + host + "\r\n"
    + "Connection: close\r\n"
    + "\r\n"
  }

  /** The method, as the protocol spells it. */
  predicate Spelt(meth: BenchMethod, m: string) {
    match meth
    case METHOD_GET => m == "GET"
    case METHOD_HEAD => m == "HEAD"
    case METHOD_OPTIONS => m == "OPTIONS"
    case METHOD_TRACE => m == "TRACE"
  }

  lemma JoinAll(x: string, v: string, b: string, agent: string, h: string, host: string, close: string)
    ensures x + v + b + agent + (h + host + b) + "" + close + b == x + (v + b) + agent + h + host + b + close + b
    ensures close == "" ==> x + (v + b) + agent + h + host + b + close + b == x + (v + b) + agent + h + host + b + b
  {
  }

  lemma WholeLines()
    ensures " HTTP/1.0" + CRLF == " HTTP/1.0\r\n" && " HTTP/1.1" + CRLF == " HTTP/1.1\r\n"
    ensures USER_AGENT + CRLF == "User-Agent: WebBench 1.5\r\n"
    ensures "Connection: close" + CRLF == "Connection: close\r\n" && CRLF == "\r\n"
  {
  }

  /** The request for a plain URL, for every method and every protocol version that the
      options can ask for. */
  lemma BytesSent(o: Options, m: string, host: string, port: string, path: string)
    requires PlainUrl(host, port, path) && o.proxyhost.None? && 0 <= o.http10 <= 2 && Spelt(o.meth, m)
    ensures var url := "http://" + (host + port + path);
            && Outcome(o, url) == OK
            && RequestText(o, url) == if o.http10 == 2 || o.meth == METHOD_OPTIONS || o.meth == METHOD_TRACE then
                                        WithHttp11(m, path, host)
                                      else if o.http10 == 1 || o.meth == METHOD_HEAD then WithHttp10(m, path, host)
                                      else WithHttp09(m, path)
  {
    hide *;
    var url := "http://" + (host + port + path);
    UrlTakenApart(o, host, port, path);
    MethodSpelt(o.meth, m);
    VersionSent(o);
    AsPieces(o, url, m, host, path);
    var v := Protocol(o);
    if v == 2 {
      Pieces11(m, path, host);
    } else if v == 1 {
      Pieces10(m, path, host);
    } else {
      Pieces09(m, path, host);
    }
  }

  lemma MethodSpelt(meth: BenchMethod, m: string)
    requires Spelt(meth, m)
    ensures MethodName(meth) == m
  {
  }

  lemma VersionSent(o: Options)
    requires 0 <= o.http10 <= 2
    ensures Protocol(o) == if o.http10 == 2 || o.meth == METHOD_OPTIONS || o.meth == METHOD_TRACE then 2
                           else if o.http10 == 1 || o.meth == METHOD_HEAD || (o.proxyhost.Some? && o.forceReload) then 1
                           else 0
  {
  }

  /** The pieces of a request without a proxy. */
  function Pieces(m: string, path: string, host: string, v: int): string {
    m + " " + path + VersionText(v) + CRLF + When(v > 0, USER_AGENT + CRLF) + When(v > 0, "Host: " + host + CRLF)
    + "" + When(v > 1, "Connection: close" + CRLF) + When(v > 0, CRLF)
  }

  lemma AsPieces(o: Options, url: string, m: string, host: string, path: string)
    requires Outcome(o, url) == OK && o.proxyhost.None? && MethodName(o.meth) == m
    requires HostOf(url) == host && url[PlacesOf(url).slash..] == path
    ensures RequestText(o, url) == Pieces(m, path, host, Protocol(o))
  {
    hide Outcome, PlacesOf, HostOf, MethodName, VersionText, Protocol, USER_AGENT, CRLF, Find;
  }

  lemma Pieces09(m: string, path: string, host: string)
    ensures Pieces(m, path, host, 0) == WithHttp09(m, path)
  {
    hide USER_AGENT;
  }

  lemma Pieces10(m: string, path: string, host: string)
    ensures Pieces(m, path, host, 1) == WithHttp10(m, path, host)
  {
    WholeLines();
    JoinAll(m + " " + path, " HTTP/1.0", CRLF, USER_AGENT + CRLF, "Host: ", host, "");
    hide CRLF, USER_AGENT;
  }

  lemma Pieces11(m: string, path: string, host: string)
    ensures Pieces(m, path, host, 2) == WithHttp11(m, path, host)
  {
    WholeLines();
    JoinAll(m + " " + path, " HTTP/1.1", CRLF, USER_AGENT + CRLF, "Host: ", host, "Connection: close" + CRLF);
    hide CRLF, USER_AGENT;
  }

  // --- what the server makes of it --------------------------------------------------

  /** A request whose first line is not good is answered as a bad one. */
  lemma BadLineAnswered(c: Conn, line: string, more: seq<char>)
    requires Inv(c) && c.state == REQUESTLINE && c.startLine == |c.done|
    requires PlainText(line) && c.rest == line + CRLF + more
    requires forall m, url, version :: !GoodLine(line, m, url, version)
    ensures ProcessRead(c).0 == BAD_REQUEST
  {
    hide GoodLine, HandleLine, HeaderPhase, ParseLine, CStr, PlainText;
    TakesLine(c, line, more);
    LineEndsAtPair(c);
    HeaderPhaseStep(c);
    var d := Took(c, line, more);
    HandleRequestLine(d);
    RequestLineExactly(d.(startLine := |d.done|), c.startLine);
    LoopIsPhases(c);
  }

  /** `line` is the words `name` and `path`, and a version behind a blank or none. */
  lemma NotGoodLine(line: string, name: string, path: string, version: string)
    requires Word(path) && Unbroken(name) && (version != "" ==> Unbroken(version))
    requires line == if version == "" then name + " " + path else name + " " + (path + " " + version)
    requires version != "" ==> !GoodWords(name, path, version)
    ensures forall m, u, v :: !GoodLine(line, m, u, v)
  {
    assert Unbroken(path) && Blanks(" ");
    hide GoodLine, GoodWords, Word;
    forall m, u, v
      ensures !GoodLine(line, m, u, v)
    {
      if version == "" {
        assert FirstWord(line, name, " ", path);
        OneWordIsBad(line, name, " ", path, m, u, v);
      } else {
        assert FirstWord(path + " " + version, path, " ", version);
        assert FirstWord(line, name, " ", path + " " + version);
        OnlyTheseWords(line, name, " ", path + " " + version, path, " ", version, m, u, v);
      }
    }
  }

  /** webbench's request line is good only with GET and HTTP/1.1. */
  lemma OtherLinesBad(meth: BenchMethod, path: string, v: int)
    requires Word(path) && (meth != METHOD_GET || v != 2)
    ensures forall m, url, version :: !GoodLine(MethodName(meth) + " " + path + VersionText(v), m, url, version)
  {
    hide *;
    var name, version := MethodName(meth), Version(v);
    var line := name + " " + path + VersionText(v);
    MethodsDiffer(meth);
    VersionSpaced(v);
    if version != "" {
      NotGood(meth, path, version);
    }
    Spaced(name, path, version);
    NotGoodLine(line, name, path, version);
  }

  function Version(v: int): string { if v == 1 then "HTTP/1.0" else if v == 2 then "HTTP/1.1" else "" }

  lemma VersionSpaced(v: int)
    ensures VersionText(v) == if Version(v) == "" then "" else " " + Version(v)
    ensures Unbroken(Version(v)) && (Version(v) == "" <==> v != 1 && v != 2) && (Version(v) == "HTTP/1.0" <==> v == 1)
  {
    assert |"HTTP/1.0"| == 8 && "HTTP/1.0"[7] == '0' && "HTTP/1.1"[7] == '1';
  }

  lemma Spaced(name: string, path: string, version: string)
    ensures name + " " + path + (" " + version) == name + " " + (path + " " + version)
    ensures name + " " + path + "" == name + " " + path
  {
  }

  lemma MethodsDiffer(meth: BenchMethod)
    ensures Unbroken(MethodName(meth))
    ensures meth != METHOD_GET ==> !EqNoCase(MethodName(meth), "GET") && !EqNoCase(MethodName(meth), "POST")
  {
    assert Lower(MethodName(meth)[0]) in {'g', 'h', 'o', 't'};
    assert Lower("GET"[0]) == 'g' && Lower("POST"[0]) == 'p';
  }

  lemma NotGood(meth: BenchMethod, path: string, text: string)
    requires meth != METHOD_GET || text == "HTTP/1.0"
    ensures !GoodWords(MethodName(meth), path, text)
  {
    hide IsPath, PathOf;
    MethodsDiffer(meth);
    if text == "HTTP/1.0" {
      assert Lower(text[7]) != Lower(VERSION[7]);
    }
  }

  lemma BenchLinePlain(meth: BenchMethod, path: string, v: int)
    requires PlainText(path)
    ensures PlainText(MethodName(meth) + " " + path + VersionText(v))
  {
    PlainConcat(MethodName(meth) + " ", path);
    assert PlainText(VersionText(v));
    PlainConcat(MethodName(meth) + " " + path, VersionText(v));
  }

  /** Of the requests that webbench sends for a plain URL, the server understands exactly
      those with GET and HTTP/1.1; all others, among them its default, HTTP/1.0, are
      answered as bad requests. */
  lemma BenchAnsweredExactly(o: Options, host: string, port: string, path: string)
    requires PlainUrl(host, port, path) && o.proxyhost.None?
    ensures var url := "http://" + (host + port + path);
            && Outcome(o, url) == OK && |RequestText(o, url)| <= READ_BUFFER_SIZE
            && ProcessRead(Receive(Fresh(), RequestText(o, url))).0
               == if o.meth == METHOD_GET && o.http10 == 2 then GET_REQUEST else BAD_REQUEST
  {
    var url := "http://" + (host + port + path);
    assert Word(path) && PlainText(path);
    hide *;
    UrlTakenApart(o, host, port, path);
    RequestFits(o, url);
    if o.meth == METHOD_GET && o.http10 == 2 {
      RequestUnderstood(o, host, port, path);
      UnderstoodIsGet(ProcessRead(Receive(Fresh(), RequestText(o, url))), host, path);
    } else {
      OtherAnswered(o, url, path);
    }
  }

  lemma UnderstoodIsGet(r: (HttpCode, Conn), host: string, path: string)
    requires Understood(r, host, path)
    ensures r.0 == GET_REQUEST
  {
  }

  lemma ProtocolIs2(o: Options)
    ensures o.meth == METHOD_GET && Protocol(o) == 2 ==> o.http10 == 2
  {
  }

  lemma Regrouped(line: string, a: string, b: string, c: string, d: string, e: string) returns (more: string)
    ensures line + a + b + c + d + e == line + more
  {
    more := a + b + c + d + e;
  }

  lemma OtherAnswered(o: Options, url: string, path: string)
    requires Outcome(o, url) == OK && url[PlacesOf(url).slash..] == path && o.proxyhost.None?
    requires Word(path) && PlainText(path) && |RequestText(o, url)| <= READ_BUFFER_SIZE
    requires o.meth != METHOD_GET || o.http10 != 2
    ensures ProcessRead(Receive(Fresh(), RequestText(o, url))).0 == BAD_REQUEST
  {
    hide Outcome, PlacesOf, HostOf, Protocol, PlainText, Word, ProcessRead, HostLine, MethodName, VersionText, GoodLine;
    var v := Protocol(o);
    ProtocolIs2(o);
    OtherLinesBad(o.meth, path, v);
    BenchLinePlain(o.meth, path, v);
    var line := MethodName(o.meth) + " " + path + VersionText(v);
    assert RequestLine(o, url) == line + CRLF;
    var more := Regrouped(line + CRLF, When(v > 0, USER_AGENT + CRLF), HostLine(o, url),
                          When(o.forceReload && o.proxyhost.Some?, "Pragma: no-cache" + CRLF),
                          When(v > 1, "Connection: close" + CRLF), When(v > 0, CRLF));
    hide When, RequestLine, USER_AGENT;
    var c := Receive(Fresh(), RequestText(o, url));
    assert c.rest == [] + RequestText(o, url) == RequestText(o, url);
    BadLineAnswered(c, line, more);
  }

  // --- what a browser sends -----------------------------------------------------------

  /** A request head as a browser prints it. */
  function Head(m: string, path: string, host: string, keep: bool, n: int): string {
    m + " " + path + " HTTP/1.1\r\n" + Fields(host, keep, n)
  }

  function Fields(host: string, keep: bool, n: int): string {
    "Host: " + host + "\r\n" + (
      "Connection: " + (if keep then "keep-alive" else "close") + "\r\n" + (
        "Content-Length: " + IntText(n) + "\r\n" + (
          "\r\n" + "")))
  }

  /** The parser among the headers of such a request, with `more` to read. */
  ghost predicate Among(d: Conn, m: string, path: string, more: seq<char>) {
    && InHeaders(d) && d.rest == more
    && d.meth == (if m == "GET" then GET else POST) && (d.cgi <==> m == "POST")
    && d.url.Some? && Holds(d.done, d.url.value, if path == "/" then "/judge.html" else path)
  }

  ghost predicate HostHeld(d: Conn, host: string) { d.host.Some? && Holds(d.done, d.host.value, host) }

  lemma StaysAmong(c: Conn, d: Conn, line: string, m: string, path: string, more: seq<char>)
    requires Among(c, m, path, line + CRLF + more) && InHeaders(d)
    requires d == Past(c, line, more).(host := d.host, contentLength := d.contentLength, linger := d.linger)
    ensures Among(d, m, path, more)
    ensures forall host :: HostHeld(c, host) && d.host == c.host ==> HostHeld(d, host)
  {
    hide Holds, InHeaders;
    PastHolds(c, line, more, c.url.value, if path == "/" then "/judge.html" else path);
    forall host | HostHeld(c, host) && d.host == c.host
      ensures HostHeld(d, host)
    {
      PastHolds(c, line, more, c.host.value, host);
    }
  }

  lemma ReadFirst(c: Conn, m: string, path: string, more: seq<char>) returns (d: Conn)
    requires c == Receive(Fresh(), m + " " + path + " HTTP/1.1\r\n" + more) && Inv(c)
    requires m == "GET" || m == "POST"
    requires Word(path) && PlainText(path) && path[0] == '/'
    ensures Among(d, m, path, more) && HeaderPhase(c) == HeaderPhase(d) && !d.linger && d.contentLength == 0
  {
    hide *;
    MethodOk(m);
    FirstLine(m, path, more);
    FreshRest(c, m + " " + path + " HTTP/1.1\r\n" + more);
    RequestRound(c, m, path, more);
    d := Requested(c, m, path, more);
    RequestedIs(c, m, path, more);
    AmongFirst(c, d, m, path, more);
  }

  lemma FirstLine(m: string, path: string, more: seq<char>)
    ensures m + " " + path + " HTTP/1.1\r\n" + more == m + " " + path + " " + VERSION + CRLF + more
  {
    VersionPrinted();
    LineSplit(m + " " + path, " ", VERSION, CRLF);
  }

  lemma FreshRest(c: Conn, text: seq<char>)
    requires c == Receive(Fresh(), text)
    ensures c.rest == text && c.done == [] && c.state == REQUESTLINE && c.startLine == 0
    ensures !c.linger && !c.cgi && c.contentLength == 0
  {
  }

  lemma AmongFirst(c: Conn, d: Conn, m: string, path: string, more: seq<char>)
    requires InHeaders(d) && d.rest == more && d.url == Some(|c.done| + |m| + 1) && !c.cgi
    requires d.meth == (if m == "GET" then GET else POST) && d.cgi == (c.cgi || m == "POST")
    requires |d.done| == |c.done| + |m| + |path| + 12 && CStr(d.done, |c.done| + |m| + 1) == Page(path)
    requires Page(path) == if path == "/" then "/judge.html" else path
    requires |Page(path)| <= |path| + 10
    ensures Among(d, m, path, more)
  {
    hide CStr, Page, InHeaders;
  }

  lemma VersionPrinted()
    ensures " HTTP/1.1\r\n" == " " + VERSION + CRLF
  {
  }

  lemma LineSplit(x: string, a: string, b: string, c: string)
    ensures x + (a + b + c) == x + a + b + c
  {
  }

  lemma RequestedIs(c: Conn, m: string, path: string, more: seq<char>)
    requires (m == "GET" || m == "POST") && Word(path) && path[0] == '/'
    ensures var d := Requested(c, m, path, more);
            && d.rest == more && d.meth == (if m == "GET" then GET else POST)
            && d.cgi == (c.cgi || m == "POST") && d.url == Some(|c.done| + |m| + 1)
            && d.linger == c.linger && d.contentLength == c.contentLength
    ensures Page(path) == if path == "/" then "/judge.html" else path
    ensures |Page(path)| <= |path| + 10
  {
    MethodOk(m);
    PageIs(path);
    hide IsMethod, PlainText, EqNoCase, AppendJudge, Page, CStr, Target, Word;
  }

  lemma PageIs(path: string)
    ensures Page(path) == if path == "/" then "/judge.html" else path
    ensures |Page(path)| <= |path| + 10
  {
  }

  lemma MethodOk(m: string)
    requires m == "GET" || m == "POST"
    ensures IsMethod(m) && PlainText(m) && (EqNoCase(m, "GET") <==> m == "GET")
  {
    assert EqNoCase("GET", "GET") && EqNoCase("POST", "POST");
    assert |"GET"| == 3 && |"POST"| == 4;
  }

  lemma NamesPrinted()
    ensures "Host: " == HOST + " " && "Connection: " == CONNECTION + " " && "Content-Length: " == PRINTED_LENGTH + " "
    ensures CRLF == "\r\n"
    ensures PlainText("keep-alive") && PlainText("close") && NotBlank("keep-alive"[0]) && NotBlank("close"[0])
    ensures EqNoCase("keep-alive", KEEP_ALIVE) && !EqNoCase("close", KEEP_ALIVE)
  {
    assert |"close"| == 5 && |KEEP_ALIVE| == 10;
  }

  lemma ReadHostField(c: Conn, host: string, m: string, path: string, more: seq<char>) returns (d: Conn)
    requires Among(c, m, path, "Host: " + host + "\r\n" + more)
    requires PlainText(host) && (host != "" ==> NotBlank(host[0]))
    ensures Among(d, m, path, more) && HostHeld(d, host) && HeaderPhase(c) == HeaderPhase(d)
    ensures d.linger == c.linger && d.contentLength == c.contentLength
  {
    hide HeaderPhase, InHeaders, PlainText, Holds;
    NamesPrinted();
    hide HOST, CONNECTION, PRINTED_LENGTH, KEEP_ALIVE, CRLF, EqNoCase;
    assert c.rest == HOST + " " + host + CRLF + more;
    HostRound(c, " ", host, more);
    d := Past(c, HOST + " " + host, more).(host := Some(|c.done| + |HOST| + 1));
    HostThere(c, host, more);
    StaysAmong(c, d, HOST + " " + host, m, path, more);
  }

  lemma HostThere(c: Conn, host: string, more: seq<char>)
    ensures var d := Past(c, HOST + " " + host, more);
            |c.done| + |HOST| + 1 + |host| < |d.done|
            && (CStr(d.done, |c.done| + |HOST| + 1) == host ==> Holds(d.done, |c.done| + |HOST| + 1, host))
  {
    hide CStr, HOST;
  }

  lemma ReadConnectionField(c: Conn, keep: bool, host: string, m: string, path: string, more: seq<char>)
    returns (d: Conn)
    requires Among(c, m, path, "Connection: " + (if keep then "keep-alive" else "close") + "\r\n" + more)
    requires HostHeld(c, host) && !c.linger
    ensures Among(d, m, path, more) && HostHeld(d, host) && HeaderPhase(c) == HeaderPhase(d)
    ensures d.linger == keep && d.contentLength == c.contentLength
  {
    hide HeaderPhase, InHeaders, PlainText, Holds, HostHeld;
    NamesPrinted();
    var value := if keep then "keep-alive" else "close";
    hide HOST, CONNECTION, PRINTED_LENGTH, KEEP_ALIVE, CRLF, EqNoCase;
    assert c.rest == CONNECTION + " " + value + CRLF + more;
    ConnectionRound(c, " ", value, more);
    d := Past(c, CONNECTION + " " + value, more).(linger := c.linger || EqNoCase(value, KEEP_ALIVE));
    StaysAmong(c, d, CONNECTION + " " + value, m, path, more);
  }

  lemma ReadLengthField(c: Conn, n: int, host: string, m: string, path: string, more: seq<char>)
    returns (d: Conn)
    requires Among(c, m, path, "Content-Length: " + IntText(n) + "\r\n" + more)
    requires HostHeld(c, host) && IsInt(n)
    ensures Among(d, m, path, more) && HostHeld(d, host) && HeaderPhase(c) == HeaderPhase(d)
    ensures d.linger == c.linger && d.contentLength == n
  {
    hide HeaderPhase, InHeaders, PlainText, Holds, HostHeld, IntText, AtolToInt;
    NamesPrinted();
    hide HOST, CONNECTION, PRINTED_LENGTH, KEEP_ALIVE, CRLF, EqNoCase;
    PlainIntText(n);
    AtolOfIntText(n);
    assert c.rest == PRINTED_LENGTH + " " + IntText(n) + CRLF + more;
    ContentLengthRound(c, " ", IntText(n), more);
    d := Past(c, PRINTED_LENGTH + " " + IntText(n), more).(contentLength := n);
    StaysAmong(c, d, PRINTED_LENGTH + " " + IntText(n), m, path, more);
  }

  lemma ReadEnd(c: Conn, host: string, m: string, path: string)
    requires Among(c, m, path, "\r\n" + "") && HostHeld(c, host)
    ensures var p := HeaderPhase(c);
            && p.conn.rest == [] && HeadRead(p.conn, m, path, host, c.linger, c.contentLength)
            && (if c.contentLength == 0 then p.Done? && p.code == GET_REQUEST else p.AtBody?)
  {
    hide HeaderPhase, InHeaders;
    BlankRound(c, "");
    PastHolds(c, "", "", c.url.value, if path == "/" then "/judge.html" else path);
    PastHolds(c, "", "", c.host.value, host);
  }

  /** What the head says. */
  ghost predicate HeadRead(d: Conn, m: string, path: string, host: string, keep: bool, n: int) {
    && d.meth == (if m == "GET" then GET else POST) && (d.cgi <==> m == "POST")
    && d.url.Some? && Holds(d.done, d.url.value, if path == "/" then "/judge.html" else path)
    && HostHeld(d, host) && d.linger == keep && d.contentLength == n
  }

  /** A browser's request head is read as it is meant: method, page, host, keep-alive and
      length; without a body it is a complete request, else the body is next. */
  lemma HeadUnderstood(m: string, path: string, host: string, keep: bool, n: int)
    requires (m == "GET" || m == "POST") && Word(path) && PlainText(path) && path[0] == '/' && IsInt(n)
    requires PlainText(host) && (host != "" ==> NotBlank(host[0]))
    requires |Head(m, path, host, keep, n)| <= READ_BUFFER_SIZE
    ensures var c := Receive(Fresh(), Head(m, path, host, keep, n));
            var p := HeaderPhase(c);
            && p.conn.rest == [] && HeadRead(p.conn, m, path, host, keep, n)
            && (if n == 0 then p.Done? && p.code == GET_REQUEST else p.AtBody?)
  {
    var end := "\r\n" + "";
    var length := "Content-Length: " + IntText(n) + "\r\n" + end;
    var connection := "Connection: " + (if keep then "keep-alive" else "close") + "\r\n" + length;
    var hosts := "Host: " + host + "\r\n" + connection;
    hide HeaderPhase, Among, HostHeld, HeadRead, IntText, PlainText, Word;
    var c := Receive(Fresh(), Head(m, path, host, keep, n));
    var d1 := ReadFirst(c, m, path, hosts);
    var d2 := ReadHostField(d1, host, m, path, connection);
    var d3 := ReadConnectionField(d2, keep, host, m, path, length);
    var d4 := ReadLengthField(d3, n, host, m, path, end);
    ReadEnd(d4, host, m, path);
  }
}
