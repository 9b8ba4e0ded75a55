/** webbench's build_request, and what the server's parser makes of its requests. */
module Webbench {
  import opened CStrings
  import opened HttpParser
  import opened HttpChunking
  import opened HttpLines
  import opened Wrappers

  const REQUEST_SIZE: nat := 2048
  const MAXHOSTNAMELEN: nat := 64
  const PORT_BUFFER: nat := 10
  const MAX_URL: nat := 1500
  const USER_AGENT: string := "User-Agent: WebBench 1.5"
  const SCHEME_END: string := "://"

  datatype BenchMethod = METHOD_GET | METHOD_HEAD | METHOD_OPTIONS | METHOD_TRACE

  datatype Options = Options(http10: int, meth: BenchMethod, forceReload: bool, proxyhost: Option<string>)

  /** How build_request ends: a request, one of its exits, or OVERRUN where it would
      copy past the end of `host` or of the port buffer. */
  datatype Built = OK | NOT_A_URL | TOO_LONG | ONLY_HTTP | NO_SLASH | OVERRUN

  function MethodName(m: BenchMethod): string {
    match m
    case METHOD_GET => "GET"
    case METHOD_HEAD => "HEAD"
    case METHOD_OPTIONS => "OPTIONS"
    case METHOD_TRACE => "TRACE"
  }

  /** The protocol version after the adjustments at the head of build_request. */
  function Protocol(o: Options): (v: int)
    ensures v >= o.http10 && (o.http10 >= 2 ==> v == o.http10)
  {
    var a := if o.forceReload && o.proxyhost.Some? && o.http10 < 1 then 1 else o.http10;
    var b := if o.meth == METHOD_HEAD && a < 1 then 1 else a;
    if (o.meth == METHOD_OPTIONS || o.meth == METHOD_TRACE) && b < 2 then 2 else b
  }

  /** strstr(s, t) - s, or |s| when `t` does not occur. */
  function Find(s: string, t: string): (i: nat)
    ensures i < |s| ==> t <= s[i..]
    ensures i <= |s| && forall k :: 0 <= k < i ==> !(t <= s[k..])
  {
    if s == [] || t <= s then 0
    else
      var i := Find(s[1..], t);
      assert forall k :: 0 < k <= |s| ==> s[k..] == s[1..][k - 1..];
      i + 1
  }

  predicate IsSlash(c: char) { c == '/' }

  predicate IsColon(c: char) { c == ':' }

  /** The offsets build_request finds: behind "://", the first '/' and the first ':'
      from there (|url| when there is none). */
  datatype Places = Places(start: nat, slash: nat, colon: nat)

  function PlacesOf(url: string): (p: Places)
    requires Find(url, SCHEME_END) < |url|
    ensures p.start <= p.slash <= |url| && p.start <= p.colon <= |url|
  {
    var start := Find(url, SCHEME_END) + 3;
    assert |SCHEME_END| <= |url[Find(url, SCHEME_END)..]|;
    Places(start, First(url, start, IsSlash), First(url, start, IsColon))
  }

  /** Where the host name ends: at a ':' before the '/', or at the '/'. */
  function HostEnd(p: Places): nat {
    if p.colon < p.slash then p.colon else p.slash
  }

  function Outcome(o: Options, url: string): Built {
    if Find(url, SCHEME_END) == |url| then NOT_A_URL
    else if |url| > MAX_URL then TOO_LONG
    else if o.proxyhost.None? && !HasPrefixNoCase(url, "http://") then ONLY_HTTP
    else
      var p := PlacesOf(url);
      if p.slash == |url| then NO_SLASH
      else if o.proxyhost.None? && HostEnd(p) - p.start >= MAXHOSTNAMELEN then OVERRUN
      else if o.proxyhost.None? && p.colon < p.slash && p.slash - p.colon - 1 >= PORT_BUFFER then OVERRUN
      else OK
  }

  function HostOf(url: string): string
    requires Find(url, SCHEME_END) < |url|
  {
    var p := PlacesOf(url);
    url[p.start..HostEnd(p)]
  }

  function VersionText(v: int): string {
    if v == 1 then " HTTP/1.0" else if v == 2 then " HTTP/1.1" else ""
  }

  function When(b: bool, s: string): string { if b then s else "" }

  function RequestLine(o: Options, url: string): string
    requires Outcome(o, url) == OK
  {
    MethodName(o.meth) + " " + (if o.proxyhost.None? then url[PlacesOf(url).slash..] else url)
    + VersionText(Protocol(o)) + CRLF
  }

  function HostLine(o: Options, url: string): string
    requires Outcome(o, url) == OK
  {
    When(o.proxyhost.None? && Protocol(o) > 0, "Host: " + HostOf(url) + CRLF)
  }

  /** The request printed when the outcome is OK. */
  function RequestText(o: Options, url: string): string
    requires Outcome(o, url) == OK
  {
    RequestLine(o, url)
    + When(Protocol(o) > 0, USER_AGENT + CRLF)
    + HostLine(o, url)
    + When(o.forceReload && o.proxyhost.Some?, "Pragma: no-cache" + CRLF)
    + When(Protocol(o) > 1, "Connection: close" + CRLF)
    + When(Protocol(o) > 0, CRLF)
  }

  /** Any accepted URL yields a request that fits its buffer. */
  lemma RequestFits(o: Options, url: string)
    requires Outcome(o, url) == OK
    ensures |RequestLine(o, url)| <= MAX_URL + 19 && |HostLine(o, url)| <= MAXHOSTNAMELEN + 7
    ensures |RequestText(o, url)| < REQUEST_SIZE
  {
    hide Find, HasPrefixNoCase, First;
    assert |RequestLine(o, url)| <= MAX_URL + 19;
    assert |HostLine(o, url)| <= MAXHOSTNAMELEN + 7;
    hide RequestLine, HostLine, Outcome, Protocol;
  }

  /** http://host[:port]/path, without blanks or control bytes. */
  ghost predicate PlainUrl(host: string, port: string, path: string) {
    && (forall k :: 0 <= k < |host| ==> host[k] != '/' && host[k] != ':' && !BlankOrNul(host[k]))
    && PlainText(host) && |host| < MAXHOSTNAMELEN
    && (port != "" ==> port[0] == ':' && |port| <= PORT_BUFFER)
    && (forall k :: 0 <= k < |port| ==> port[k] != '/')
    && Word(path) && PlainText(path) && path[0] == '/'
    && |host| + |port| + |path| + 7 <= MAX_URL
  }

  lemma {:induction false} FindIs(s: string, t: string, i: nat)
    requires i < |s| && t <= s[i..]
    requires forall k :: 0 <= k < i ==> !(t <= s[k..])
    ensures Find(s, t) == i
  {
    if i > 0 {
      assert forall k :: 0 < k <= |s| ==> s[k..] == s[1..][k - 1..];
      assert s == s[0..];
      FindIs(s[1..], t, i - 1);
    }
  }

  lemma SchemeFound(rest: string)
    requires rest != ""
    ensures Find("http://" + rest, SCHEME_END) == 4 && HasPrefixNoCase("http://" + rest, "http://")
  {
    var url := "http://" + rest;
    assert url[4..][..3] == SCHEME_END;
    assert forall k :: 0 <= k < 4 ==> url[k..][0] == url[k] != ':';
    FindIs(url, SCHEME_END, 4);
    assert url[..7] == "http://";
  }

  /** [host][:port]/path */
  ghost predicate UrlParts(host: string, port: string, path: string) {
    && (forall k :: 0 <= k < |host| ==> host[k] != '/' && host[k] != ':')
    && (port != "" ==> port[0] == ':') && (forall k :: 0 <= k < |port| ==> port[k] != '/')
    && path != "" && path[0] == '/'
  }

  lemma PlainParts(host: string, port: string, path: string)
    requires PlainUrl(host, port, path)
    ensures UrlParts(host, port, path)
    ensures |host| < MAXHOSTNAMELEN && |port| <= PORT_BUFFER && |host| + |port| + |path| + 7 <= MAX_URL
  {
    hide PlainText, BlankOrNul;
  }

  /** Where the parts of a URL stand. */
  lemma UrlBytes(url: string, scheme: string, host: string, port: string, path: string)
    requires UrlParts(host, port, path) && url == scheme + (host + port + path)
    ensures var n, a, b := |scheme|, |scheme| + |host|, |scheme| + |host| + |port|;
            && a <= b < |url| && url[b] == '/' && (a < b ==> url[a] == ':')
            && (forall k :: n <= k < a ==> url[k] != '/' && url[k] != ':')
            && (forall k :: a <= k < b ==> url[k] != '/')
  {
    var n := |scheme|;
    assert forall k :: n <= k < n + |host| ==> url[k] == host[k - n];
    assert forall k :: 0 <= k < |port| ==> url[n + |host| + k] == port[k];
    assert url[n + |host| + |port|] == path[0];
  }

  /** Where the first '/' and the first ':' behind the scheme are. */
  lemma MarksFound(url: string, n: nat, a: nat, b: nat)
    requires n <= a <= b < |url| && url[b] == '/' && (a < b ==> url[a] == ':')
    requires forall k :: n <= k < a ==> url[k] != '/' && url[k] != ':'
    requires forall k :: a <= k < b ==> url[k] != '/'
    ensures First(url, n, IsSlash) == b
    ensures if a < b then First(url, n, IsColon) == a else First(url, n, IsColon) > a
  {
    hide First;
    FirstIs(url, n, IsSlash, b);
    if a < b {
      FirstIs(url, n, IsColon, a);
    }
  }

  predicate SchemeAt(url: string, k: int) { 0 <= k <= |url| && SCHEME_END <= url[k..] }

  /** build_request's exits, by the text of the url: a URL is refused without "://", when
      it has more than 1500 bytes, without a proxy when it does not start with "http://",
      and when there is no '/' behind the first "://". */
  lemma ExitsExactly(o: Options, url: string)
    ensures Outcome(o, url) == NOT_A_URL <==> forall k :: 0 <= k <= |url| ==> !SchemeAt(url, k)
    ensures forall k: nat :: SchemeAt(url, k) && (forall j :: 0 <= j < k ==> !SchemeAt(url, j)) ==>
              if |url| > 1500 then Outcome(o, url) == TOO_LONG
              else if o.proxyhost.None? && !HasPrefixNoCase(url, "http://") then Outcome(o, url) == ONLY_HTTP
              else (Outcome(o, url) == NO_SLASH <==> '/' !in url[k + 3..])
                   && Outcome(o, url) in {OK, OVERRUN, NO_SLASH}
  {
    hide HasPrefixNoCase;
    var f := Find(url, SCHEME_END);
    if f < |url| {
      assert SchemeAt(url, f) && forall j :: 0 <= j < f ==> !SchemeAt(url, j);
      var slash := First(url, f + 3, IsSlash);
      if slash < |url| {
        assert url[f + 3..][slash - f - 3] == '/';
      } else {
        assert forall k :: f + 3 <= k < |url| ==> !IsSlash(url[k]);
      }
    } else {
      assert !SchemeAt(url, |url|);
    }
  }

  /** The copies of host and port stay inside their buffers exactly when the host has at
      most 63 bytes and the port at most 9 (with its ':' 10); a proxy needs none. */
  lemma CopiesFitExactly(o: Options, front: string, host: string, port: string, path: string)
    requires UrlParts(host, port, path)
    requires forall j :: 0 <= j < |front| ==> !SchemeAt(front + "://" + (host + port + path), j)
    ensures var url := front + "://" + (host + port + path);
            Outcome(o, url) in {OK, OVERRUN} ==>
              (Outcome(o, url) == OK <==> o.proxyhost.Some? || (|host| <= 63 && |port| <= 10))
  {
    hide HasPrefixNoCase, Find, First;
    var url := front + "://" + (host + port + path);
    assert url[|front|..][..3] == "://";
    forall k | 0 <= k < |front|
      ensures !(SCHEME_END <= url[k..])
    {
      assert !SchemeAt(url, k);
    }
    FindIs(url, SCHEME_END, |front|);
    UrlBytes(url, front + "://", host, port, path);
    MarksFound(url, |front| + 3, |front| + 3 + |host|, |front| + 3 + |host| + |port|);
  }

  lemma PlacesFound(host: string, port: string, path: string)
    requires PlainUrl(host, port, path)
    ensures var url := "http://" + (host + port + path);
            && Find(url, SCHEME_END) == 4 && HasPrefixNoCase(url, "http://")
            && var p := PlacesOf(url);
               && p.start == 7 && p.slash == 7 + |host| + |port| && HostEnd(p) == 7 + |host|
               && (p.colon < p.slash ==> p.slash - p.colon == |port|)
  {
    hide Find, HasPrefixNoCase, PlainText, First, BlankOrNul;
    var url := "http://" + (host + port + path);
    SchemeFound(host + port + path);
    PlainParts(host, port, path);
    hide Word, PlainUrl, UrlParts;
    UrlBytes(url, "http://", host, port, path);
    MarksFound(url, 7, 7 + |host|, 7 + |host| + |port|);
  }

  lemma PartsOf(a: string, b: string, c: string, d: string)
    ensures var s := a + (b + c + d);
            s[|a|..|a| + |b|] == b && s[|a| + |b| + |c|..] == d && |s| == |a| + |b| + |c| + |d|
  {
  }

  /** build_request takes such a URL apart into its host and its path. */
  lemma UrlTakenApart(o: Options, host: string, port: string, path: string)
    requires PlainUrl(host, port, path) && o.proxyhost.None?
    ensures var url := "http://" + (host + port + path);
            && Outcome(o, url) == OK
            && HostOf(url) == host && url[PlacesOf(url).slash..] == path
  {
    PlainParts(host, port, path);
    assert path != "";
    hide Find, HasPrefixNoCase, PlacesOf, HostEnd, PlainUrl;
    PlacesFound(host, port, path);
    PartsOf("http://", host, port, path);
  }

  /** The request for a plain URL: GET, HTTP/1.1, no proxy. */
  function PlainRequestText(host: string, path: string): string {
    "GET" + " " + path + " " + VERSION + CRLF + (
      USER_AGENT + CRLF + (
        HOST + " " + host + CRLF + (
          CONNECTION + " " + "close" + CRLF + (
            CRLF + ""))))
  }

  lemma Rejoined(x: string, a: string, h: string, c: string, e: string)
    ensures x + a + h + "" + c + e == x + (a + (h + (c + (e + ""))))
  {
  }

  lemma PlainLines(o: Options, url: string, host: string, path: string)
    requires Outcome(o, url) == OK && HostOf(url) == host && url[PlacesOf(url).slash..] == path
    requires o.proxyhost.None? && o.meth == METHOD_GET && o.http10 == 2
    ensures RequestLine(o, url) == "GET" + " " + path + " " + VERSION + CRLF
    ensures HostLine(o, url) == HOST + " " + host + CRLF
  {
    hide Outcome, PlacesOf, HostOf;
    assert "GET" + " " + path + " HTTP/1.1" + CRLF == "GET" + " " + path + " " + VERSION + CRLF;
    assert "Host: " + host + CRLF == HOST + " " + host + CRLF;
  }

  lemma PlainAssembled(o: Options, url: string, host: string, path: string)
    requires Outcome(o, url) == OK && o.proxyhost.None? && o.meth == METHOD_GET && o.http10 == 2
    requires RequestLine(o, url) == "GET" + " " + path + " " + VERSION + CRLF
    requires HostLine(o, url) == HOST + " " + host + CRLF
    ensures RequestText(o, url) == PlainRequestText(host, path)
  {
    hide Outcome, RequestLine, HostLine;
    var close := CONNECTION + " " + "close" + CRLF;
    assert "Connection: close" + CRLF == close;
    Rejoined(RequestLine(o, url), USER_AGENT + CRLF, HostLine(o, url), close, CRLF);
  }

  lemma RequestIsPlain(o: Options, host: string, port: string, path: string)
    requires PlainUrl(host, port, path)
    requires o.proxyhost.None? && o.meth == METHOD_GET && o.http10 == 2
    ensures var url := "http://" + (host + port + path);
            Outcome(o, url) == OK && RequestText(o, url) == PlainRequestText(host, path)
  {
    hide *;
    UrlTakenApart(o, host, port, path);
    var url := "http://" + (host + port + path);
    PlainLines(o, url, host, path);
    PlainAssembled(o, url, host, path);
  }

  /** The server's reading of such a request, from a fresh connection: one complete
      request for the page of the path, the host found, no keep-alive, no body, and
      nothing left over. */
  ghost predicate Understood(r: (HttpCode, Conn), host: string, path: string) {
    var (code, d) := r;
    && code == GET_REQUEST && d.rest == []
    && d.meth == GET && d.url.Some? && Holds(d.done, d.url.value, Page(path))
    && d.host.Some? && Holds(d.done, d.host.value, host)
    && !d.linger && d.contentLength == 0
  }

  lemma StillHolds(b: seq<char>, more: seq<char>, i: nat, s: string)
    requires Holds(b, i, s)
    ensures Holds(b + more, i, s)
  {
    CStrStable(b, more, i);
  }

  /** The parser in the headers of a GET request for `path`, with `more` to read. */
  ghost predicate Reading(d: Conn, path: string, more: seq<char>) {
    && InHeaders(d) && d.rest == more
    && d.meth == GET && d.url.Some? && Holds(d.done, d.url.value, Page(path))
    && !d.linger && d.contentLength == 0
  }

  lemma PastHolds(d: Conn, line: string, more: seq<char>, i: nat, s: string)
    requires Holds(d.done, i, s)
    ensures Holds(Past(d, line, more).done, i, s)
  {
    hide Holds;
    assert Past(d, line, more).done == d.done + (line + [NUL, NUL]);
    StillHolds(d.done, line + [NUL, NUL], i, s);
  }

  lemma GetIsMethod()
    ensures IsMethod("GET") && PlainText("GET")
  {
  }

  lemma AgentUnknown()
    ensures !KnownHeader(USER_AGENT) && PlainText(USER_AGENT)
  {
    hide EqNoCase;
    assert EqNoCase(USER_AGENT, USER_AGENT) by { SameNoCase(USER_AGENT); }
    assert USER_AGENT[..|USER_AGENT|] == USER_AGENT;
    NotThatHeader(USER_AGENT, USER_AGENT, HOST, 0);
    NotThatHeader(USER_AGENT, USER_AGENT, CONNECTION, 0);
    NotThatHeader(USER_AGENT, USER_AGENT, CONTENT_LENGTH, 0);
  }

  lemma SameNoCase(s: string)
    ensures EqNoCase(s, s)
  {
  }

  lemma ReadRequestLine(c: Conn, path: string, more: seq<char>) returns (d: Conn)
    requires c == Receive(Fresh(), "GET" + " " + path + " " + VERSION + CRLF + more) && Inv(c)
    requires Word(path) && PlainText(path) && path[0] == '/'
    ensures Reading(d, path, more) && HeaderPhase(c) == HeaderPhase(d)
  {
    hide HeaderPhase, IsMethod, PlainText, Word, Requested, CStr, Page, InHeaders;
    GetIsMethod();
    assert c.rest == "GET" + " " + path + " " + VERSION + CRLF + more;
    RequestRound(c, "GET", path, more);
    GetRequested(c, path, more);
    d := Requested(c, "GET", path, more);
  }

  lemma GetRequested(c: Conn, path: string, more: seq<char>)
    requires Word(path) && path[0] == '/'
    ensures var d := Requested(c, "GET", path, more);
            && d.rest == more && d.meth == GET && d.url == Some(|c.done| + 4)
            && d.linger == c.linger && d.contentLength == c.contentLength
    ensures |Page(path)| <= |path| + 10
  {
    assert EqNoCase("GET", "GET");
  }

  lemma ReadAgent(c: Conn, path: string, more: seq<char>) returns (d: Conn)
    requires Reading(c, path, USER_AGENT + CRLF + more)
    ensures Reading(d, path, more) && HeaderPhase(c) == HeaderPhase(d)
  {
    hide HeaderPhase, InHeaders, Holds, KnownHeader, PlainText;
    AgentUnknown();
    OtherRound(c, USER_AGENT, more);
    d := Past(c, USER_AGENT, more);
    PastHolds(c, USER_AGENT, more, c.url.value, Page(path));
  }

  lemma ReadHost(c: Conn, host: string, path: string, more: seq<char>) returns (d: Conn)
    requires Reading(c, path, HOST + " " + host + CRLF + more)
    requires PlainText(host) && (host != "" ==> NotBlank(host[0]))
    ensures Reading(d, path, more) && HeaderPhase(c) == HeaderPhase(d)
    ensures d.host.Some? && Holds(d.done, d.host.value, host)
  {
    hide HeaderPhase, InHeaders, CStr, PlainText;
    HostRound(c, " ", host, more);
    var v := |c.done| + |HOST| + 1;
    d := Past(c, HOST + " " + host, more).(host := Some(v));
    assert Holds(d.done, v, host);
    hide Holds;
    PastHolds(c, HOST + " " + host, more, c.url.value, Page(path));
  }

  lemma ReadClose(c: Conn, host: string, path: string, more: seq<char>) returns (d: Conn)
    requires Reading(c, path, CONNECTION + " " + "close" + CRLF + more)
    requires c.host.Some? && Holds(c.done, c.host.value, host)
    ensures Reading(d, path, more) && HeaderPhase(c) == HeaderPhase(d)
    ensures d.host.Some? && Holds(d.done, d.host.value, host)
  {
    assert PlainText("close") && !EqNoCase("close", KEEP_ALIVE);
    hide HeaderPhase, InHeaders;
    ConnectionRound(c, " ", "close", more);
    d := Past(c, CONNECTION + " " + "close", more).(linger := c.linger || EqNoCase("close", KEEP_ALIVE));
    PastHolds(c, CONNECTION + " " + "close", more, c.url.value, Page(path));
    PastHolds(c, CONNECTION + " " + "close", more, c.host.value, host);
  }

  lemma ReadBlank(c: Conn, host: string, path: string)
    requires Reading(c, path, CRLF + "") && c.host.Some? && Holds(c.done, c.host.value, host)
    ensures var p := HeaderPhase(c);
            p.Done? && Understood((p.code, p.conn), host, path)
  {
    hide HeaderPhase, InHeaders;
    BlankRound(c, "");
    PastHolds(c, "", "", c.url.value, Page(path));
    PastHolds(c, "", "", c.host.value, host);
  }

  lemma PlainTextUnderstood(host: string, port: string, path: string)
    requires PlainUrl(host, port, path)
    ensures |PlainRequestText(host, path)| <= READ_BUFFER_SIZE
    ensures var c := Receive(Fresh(), PlainRequestText(host, path));
            HeaderPhase(c).Done? && Understood(ProcessRead(c), host, path)
  {
    var c := Receive(Fresh(), PlainRequestText(host, path));
    var end := CRLF + "";
    var close := CONNECTION + " " + "close" + CRLF + end;
    var hosts := HOST + " " + host + CRLF + close;
    var agent := USER_AGENT + CRLF + hosts;
    assert host != "" ==> NotBlank(host[0]);
    hide HeaderPhase, ProcessRead, Holds, Reading, Understood;
    var d1 := ReadRequestLine(c, path, agent);
    var d2 := ReadAgent(d1, path, hosts);
    var d3 := ReadHost(d2, host, path, close);
    var d4 := ReadClose(d3, host, path, end);
    ReadBlank(d4, host, path);
    LoopIsPhases(c);
  }

  /** Printer and parser agree: what build_request prints for a plain URL (GET, HTTP/1.1,
      no proxy) is understood by the server. */
  lemma RequestUnderstood(o: Options, host: string, port: string, path: string)
    requires PlainUrl(host, port, path) && o.proxyhost.None? && o.meth == METHOD_GET && o.http10 == 2
    ensures var url := "http://" + (host + port + path);
            && Outcome(o, url) == OK && |RequestText(o, url)| <= READ_BUFFER_SIZE
            && var c := Receive(Fresh(), RequestText(o, url));
               HeaderPhase(c).Done? && Understood(ProcessRead(c), host, path)
  {
    hide *;
    RequestIsPlain(o, host, port, path);
    PlainTextUnderstood(host, port, path);
  }

  /** The same however the request's bytes are cut into arriving pieces: the last
      piece, and only it, completes the request. */
  lemma RequestUnderstoodInPieces(o: Options, host: string, port: string, path: string, chunks: seq<seq<char>>)
    requires PlainUrl(host, port, path) && o.proxyhost.None? && o.meth == METHOD_GET && o.http10 == 2
    requires var url := "http://" + (host + port + path);
             Outcome(o, url) == OK && Flatten(chunks) == RequestText(o, url)
    requires forall k :: 0 <= k < |chunks| ==> chunks[k] != []
    ensures chunks != [] && |Flatten(chunks)| <= READ_BUFFER_SIZE
    ensures var (code, d, left) := Feed(Fresh(), chunks);
            left == [] && Understood((code, d), host, path)
  {
    RequestUnderstood(o, host, port, path);
    RequestIsPlain(o, host, port, path);
    hide ProcessRead, HeaderPhase, PlainUrl, RequestText, Outcome, Understood, Holds;
    assert chunks != [];
    var c := Receive(Fresh(), Flatten(chunks));
    BodilessChunking(Fresh(), chunks);
    NothingLeftOver(ProcessRead(c), host, path);
  }

  lemma NothingLeftOver(r: (HttpCode, Conn), host: string, path: string)
    requires Understood(r, host, path)
    ensures r.1.rest == []
  {
  }
}
